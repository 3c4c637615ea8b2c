/** The aslContext label vocabulary (the BIDS `*_aslcontext.tsv` volume types, from DICOM
    tag (0018,9257) "ASL Context") and the tagging of each label as BIDS or not. */
module Labels {

  /** The volume types BIDS allows in an `*_aslcontext.tsv` file. */
  const BidsLabels: seq<string> := ["cbf", "control", "deltam", "label", "m0scan"]

  /** Labels accepted on top of the BIDS ones: they mark volumes to be removed. */
  const AllowedNonBidsLabels: seq<string> := ["discard"]

  /** The label is in one of the two lists; `validate` rejects every other label. */
  predicate IsAllowed(lbl: string) {
    lbl in BidsLabels || lbl in AllowedNonBidsLabels
  }

  /** The labels `validate` accepts are exactly the five BIDS volume types and "discard". */
  lemma AllowedLabels(lbl: string)
    ensures IsAllowed(lbl) <==>
      lbl == "cbf" || lbl == "control" || lbl == "deltam" || lbl == "label" || lbl == "m0scan"
        || lbl == "discard"
    ensures lbl in BidsLabels <==> IsAllowed(lbl) && lbl != "discard"
  {
  }

  /** One label with the flag saying whether it goes into the BIDS sidecar. */
  datatype TaggedLabel = TaggedLabel(isBids: bool, name: string)

  /** `Aslcontext.tagged_labels`: one entry per label, in order. Only membership in the
      non-BIDS list clears the flag, so a label that `validate` would reject is still
      tagged as BIDS. */
  function TaggedLabels(labels: seq<string>): (r: seq<TaggedLabel>)
    ensures |r| == |labels|
    ensures forall i :: 0 <= i < |r| ==> r[i].name == labels[i]
    ensures forall i :: 0 <= i < |r| ==> (r[i].isBids <==> labels[i] != "discard")
    ensures forall i :: 0 <= i < |r| && !IsAllowed(labels[i]) ==> r[i].isBids
  {
    seq(|labels|, i requires 0 <= i < |labels| => TaggedLabel(labels[i] !in AllowedNonBidsLabels, labels[i]))
  }

  /** The positions, in ascending order, of the entries whose flag equals `isBids`
      (`[i for i, t in enumerate(tagged) if t.is_bids == isBids]`). */
  function IndicesWith(tagged: seq<TaggedLabel>, isBids: bool): (r: seq<nat>)
    ensures |r| <= |tagged|
    ensures forall k :: 0 <= k < |r| ==> r[k] < |tagged| && tagged[r[k]].isBids == isBids
    ensures forall k, m :: 0 <= k < m < |r| ==> r[k] < r[m]
    ensures forall i :: 0 <= i < |tagged| && tagged[i].isBids == isBids ==> i in r
  {
    if tagged == [] then []
    else
      var n := |tagged| - 1;
      IndicesWith(tagged[..n], isBids) + (if tagged[n].isBids == isBids then [n] else [])
  }

  /** `r` lists, in ascending order, exactly the positions of `tagged` whose flag is
      `isBids`. */
  predicate Enumerates(tagged: seq<TaggedLabel>, isBids: bool, r: seq<nat>) {
    && (forall k :: 0 <= k < |r| ==> r[k] < |tagged| && tagged[r[k]].isBids == isBids)
    && (forall k, m :: 0 <= k < m < |r| ==> r[k] < r[m])
    && (forall i :: 0 <= i < |tagged| && tagged[i].isBids == isBids ==> i in r)
  }

  /** When the last entry matches, it is the last position listed, and the rest of the
      list enumerates the rest of the entries. */
  lemma EnumeratesDropMatching(tagged: seq<TaggedLabel>, isBids: bool, r: seq<nat>)
    requires Enumerates(tagged, isBids, r)
    requires tagged != [] && tagged[|tagged| - 1].isBids == isBids
    ensures r != [] && r[|r| - 1] == |tagged| - 1
    ensures Enumerates(tagged[..|tagged| - 1], isBids, r[..|r| - 1])
  {
    var n := |tagged| - 1;
    assert n in r;
    var j :| 0 <= j < |r| && r[j] == n;
    assert r[|r| - 1] < |tagged|;
    var front := r[..|r| - 1];
    forall i | 0 <= i < n && tagged[..n][i].isBids == isBids
      ensures i in front
    {
      assert i in r;
      var k :| 0 <= k < |r| && r[k] == i;
      assert k != j;
      assert front[k] == i;
    }
  }

  /** When the last entry does not match, the same list enumerates the other entries. */
  lemma EnumeratesDropOther(tagged: seq<TaggedLabel>, isBids: bool, r: seq<nat>)
    requires Enumerates(tagged, isBids, r)
    requires tagged != [] && tagged[|tagged| - 1].isBids != isBids
    ensures Enumerates(tagged[..|tagged| - 1], isBids, r)
  {
    forall k | 0 <= k < |r|
      ensures r[k] < |tagged| - 1
    {
      assert r[k] != |tagged| - 1;
    }
  }

  /** Such a list is no longer than the entries it enumerates. */
  lemma EnumeratesLength(tagged: seq<TaggedLabel>, isBids: bool, r: seq<nat>)
    requires Enumerates(tagged, isBids, r)
    ensures |r| <= |tagged|
  {
    if r != [] {
      AscendingLowerBound(r, |r| - 1);
    }
  }

  /** `IndicesWith` is the only such list. */
  lemma {:induction false} IndicesWithUnique(tagged: seq<TaggedLabel>, isBids: bool, r: seq<nat>)
    requires Enumerates(tagged, isBids, r)
    ensures IndicesWith(tagged, isBids) == r
    decreases |tagged|, 1
  {
    EnumeratesLength(tagged, isBids, r);
    if tagged != [] {
      if tagged[|tagged| - 1].isBids == isBids {
        UniqueWhenLastMatches(tagged, isBids, r);
      } else {
        UniqueWhenLastDiffers(tagged, isBids, r);
      }
    }
  }

  lemma {:induction false} UniqueWhenLastMatches(tagged: seq<TaggedLabel>, isBids: bool, r: seq<nat>)
    requires Enumerates(tagged, isBids, r)
    requires tagged != [] && tagged[|tagged| - 1].isBids == isBids
    ensures IndicesWith(tagged, isBids) == r
    decreases |tagged|, 0
  {
    var n := |tagged| - 1;
    EnumeratesDropMatching(tagged, isBids, r);
    var front := r[..|r| - 1];
    IndicesWithUnique(tagged[..n], isBids, front);
    assert IndicesWith(tagged, isBids) == front + [n];
    assert r == front + [n];
  }

  lemma {:induction false} UniqueWhenLastDiffers(tagged: seq<TaggedLabel>, isBids: bool, r: seq<nat>)
    requires Enumerates(tagged, isBids, r)
    requires tagged != [] && tagged[|tagged| - 1].isBids != isBids
    ensures IndicesWith(tagged, isBids) == r
    decreases |tagged|, 0
  {
    EnumeratesDropOther(tagged, isBids, r);
    IndicesWithUnique(tagged[..|tagged| - 1], isBids, r);
  }

  /** Every position is kept or discarded, never both. */
  lemma {:induction false} KeptAndDiscardedPartition(tagged: seq<TaggedLabel>)
    ensures |IndicesWith(tagged, true)| + |IndicesWith(tagged, false)| == |tagged|
    ensures forall i :: 0 <= i < |tagged| ==> (i in IndicesWith(tagged, true) <==> i !in IndicesWith(tagged, false))
  {
    if tagged != [] {
      KeptAndDiscardedPartition(tagged[..|tagged| - 1]);
    }
  }

  /** The number of discarded positions is the number of "discard" labels. */
  lemma {:induction false} DiscardedCount(labels: seq<string>)
    ensures |IndicesWith(TaggedLabels(labels), false)| == multiset(labels)["discard"]
    ensures |IndicesWith(TaggedLabels(labels), true)| == |labels| - multiset(labels)["discard"]
  {
    if labels != [] {
      var n := |labels| - 1;
      assert TaggedLabels(labels)[..n] == TaggedLabels(labels[..n]);
      assert labels == labels[..n] + [labels[n]];
      DiscardedCount(labels[..n]);
    }
    KeptAndDiscardedPartition(TaggedLabels(labels));
  }

  /** When every position is kept the kept positions are 0, 1, ..., n - 1. */
  lemma KeepAllIsIdentity(tagged: seq<TaggedLabel>)
    requires |IndicesWith(tagged, true)| == |tagged|
    ensures IndicesWith(tagged, true) == seq(|tagged|, i => i)
  {
    var keep := IndicesWith(tagged, true);
    var n := |tagged|;
    forall k | 0 <= k < n ensures keep[k] == k {
      AscendingLowerBound(keep, k);
      AscendingUpperBound(keep, n, k);
    }
  }

  /** When every entry is tagged BIDS every position is kept. */
  lemma {:induction false} KeepEverythingIsIdentity(tagged: seq<TaggedLabel>)
    requires forall i :: 0 <= i < |tagged| ==> tagged[i].isBids
    ensures IndicesWith(tagged, true) == seq(|tagged|, i => i)
  {
    if tagged != [] {
      var n := |tagged| - 1;
      KeepEverythingIsIdentity(tagged[..n]);
      assert seq(n + 1, i => i) == seq(n, i => i) + [n];
    }
  }

  lemma {:induction false} AscendingLowerBound(s: seq<nat>, k: nat)
    requires forall a, b :: 0 <= a < b < |s| ==> s[a] < s[b]
    requires k < |s|
    ensures s[k] >= k
  {
    if k > 0 {
      AscendingLowerBound(s, k - 1);
    }
  }

  lemma {:induction false} AscendingUpperBound(s: seq<nat>, n: nat, k: nat)
    requires forall a, b :: 0 <= a < b < |s| ==> s[a] < s[b]
    requires forall a :: 0 <= a < |s| ==> s[a] < n
    requires |s| == n && k < n
    ensures s[k] <= k
    decreases n - k
  {
    if k < n - 1 {
      AscendingUpperBound(s, n, k + 1);
    }
  }
}
