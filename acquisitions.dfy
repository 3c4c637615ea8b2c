/** The fields of a converted acquisition that the ASL step reads, and the selection of
    the ASL acquisitions among all of them. */
module Acquisitions {
  import opened Paths

  /** The acquisition's description: its metadata (the label list is stored under
      "aslContext"), its modality label and its position among the descriptions. */
  datatype Description = Description(data: map<string, seq<string>>, modalityLabel: string, index: int)

  /** An acquisition after it has been moved: its destination root with and without the
      modality suffix. */
  datatype Acquisition = Acquisition(
    description: Description,
    dstRoot: Path,
    dstRootNoModality: Path)

  /** `is_asl`. */
  predicate IsAsl(acq: Acquisition) {
    acq.description.modalityLabel == "_asl"
  }

  /** `find_asl_acquisitions`: the ASL acquisitions, in input order. */
  function FindAslAcquisitions(acqs: seq<Acquisition>): (r: seq<Acquisition>)
    ensures |r| <= |acqs|
    ensures forall i :: 0 <= i < |r| ==> IsAsl(r[i]) && r[i] in acqs
  {
    if acqs == [] then []
    else (if IsAsl(acqs[0]) then [acqs[0]] else []) + FindAslAcquisitions(acqs[1..])
  }

  /** Each ASL acquisition is kept as many times as it occurs, every other one is dropped. */
  lemma {:induction false} FindAslCounts(acqs: seq<Acquisition>, a: Acquisition)
    ensures multiset(FindAslAcquisitions(acqs))[a] == if IsAsl(a) then multiset(acqs)[a] else 0
  {
    if acqs != [] {
      assert acqs == [acqs[0]] + acqs[1..];
      FindAslCounts(acqs[1..], a);
    }
  }

  /** Selecting from a concatenation selects from each part and keeps them in order;
      with the multiset clause above this is the order-preserving filter. */
  lemma {:induction false} FindAslDistributes(xs: seq<Acquisition>, ys: seq<Acquisition>)
    ensures FindAslAcquisitions(xs + ys) == FindAslAcquisitions(xs) + FindAslAcquisitions(ys)
  {
    if xs != [] {
      assert (xs + ys)[0] == xs[0];
      assert (xs + ys)[1..] == xs[1..] + ys;
      FindAslDistributes(xs[1..], ys);
    } else {
      assert xs + ys == ys;
    }
  }

  /** Selecting twice selects nothing more. */
  lemma {:induction false} FindAslIdempotent(acqs: seq<Acquisition>)
    ensures FindAslAcquisitions(FindAslAcquisitions(acqs)) == FindAslAcquisitions(acqs)
  {
    if acqs != [] {
      var head := if IsAsl(acqs[0]) then [acqs[0]] else [];
      FindAslDistributes(head, FindAslAcquisitions(acqs[1..]));
      FindAslIdempotent(acqs[1..]);
    }
  }
}
