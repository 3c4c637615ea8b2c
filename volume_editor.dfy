/** Removing the volumes tagged non-BIDS from the ASL image file (`discard_volumes`). */
module VolumeEditor {
  import opened Labels
  import opened AslContext

  /** A 4-D image: its volumes in order along the last axis, its affine and its header. */
  datatype Image<V, A, H> = Image(volumes: seq<V>, affine: A, header: H)

  /** `data[..., indices]`: the volumes at the given positions, in the given order. */
  function Select<V>(volumes: seq<V>, indices: seq<nat>): (r: seq<V>)
    requires forall k :: 0 <= k < |indices| ==> indices[k] < |volumes|
    ensures |r| == |indices|
    ensures forall k :: 0 <= k < |r| ==> r[k] == volumes[indices[k]]
  {
    seq(|indices|, k requires 0 <= k < |indices| => volumes[indices[k]])
  }

  /** What `discard_volumes` did to the file. */
  datatype DiscardOutcome =
    | Untouched        // every volume is kept: the file is not rewritten
    | Rewritten        // the file now holds only the kept volumes
    | IndexOutOfRange  // a kept position is past the image's last volume (numpy's IndexError)

  /** The ASL image file, whose content `discard_volumes` replaces in place. */
  class NiftiFile<V, A, H> {
    var image: Image<V, A, H>

    constructor (image: Image<V, A, H>)
      ensures this.image == image
    {
      this.image := image;
    }

    /** `discard_volumes`: keeps the volumes at the positions tagged BIDS, in ascending
        order, and saves them with the original affine and header over the same file.
        When every position is kept the file is left alone. */
    method DiscardVolumes(ctx: Aslcontext) returns (outcome: DiscardOutcome)
      modifies this
      ensures var keep := IndicesWith(TaggedLabels(ctx.labels), true);
        && (outcome == Untouched <==> |keep| == |ctx.labels|)
        && (outcome == IndexOutOfRange <==>
              |keep| != |ctx.labels| && exists k :: 0 <= k < |keep| && keep[k] >= |old(image).volumes|)
        && (outcome != Rewritten ==> image == old(image))
        && (outcome == Rewritten ==>
              image == Image(Select(old(image).volumes, keep), old(image).affine, old(image).header))
    {
      var keep := IndicesWith(TaggedLabels(ctx.labels), true);
      if |keep| == |TaggedLabels(ctx.labels)| {
        return Untouched;
      }
      if exists k :: 0 <= k < |keep| && keep[k] >= |image.volumes| {
        return IndexOutOfRange;
      }
      image := Image(Select(image.volumes, keep), image.affine, image.header);
      return Rewritten;
    }
  }

  /** Once validation has matched the label count to the volume count, the rewrite
      cannot fail, and it keeps exactly the volumes whose labels the TSV lists: the k-th
      kept volume is the k-th TSV row's volume. */
  lemma KeptVolumesMatchTsvRows<V>(labels: seq<string>, volumes: seq<V>)
    requires |volumes| == |labels|
    ensures var keep := IndicesWith(TaggedLabels(labels), true);
      && (forall k :: 0 <= k < |keep| ==> keep[k] < |volumes|)
      && |Select(volumes, keep)| == |Records(TaggedLabels(labels))|
      && forall k :: 0 <= k < |keep| ==>
           Select(volumes, keep)[k] == volumes[keep[k]] && Records(TaggedLabels(labels))[k] == labels[keep[k]]
  {
  }

  /** The kept volumes are the volumes that are not labelled "discard", in order: the
      labels selected by the same positions are exactly the TSV records. */
  lemma KeptLabelsAreRecords(labels: seq<string>)
    ensures Select(labels, IndicesWith(TaggedLabels(labels), true)) == Records(TaggedLabels(labels))
  {
  }

  /** When nothing is discarded, selecting the kept positions gives back the volumes,
      so skipping the rewrite loses nothing. */
  lemma NothingDiscardedKeepsAll<V>(ctx: Aslcontext, volumes: seq<V>)
    requires !ShouldDiscardVolumes(ctx)
    requires |volumes| == |ctx.labels|
    ensures Select(volumes, IndicesWith(TaggedLabels(ctx.labels), true)) == volumes
  {
    DiscardDecisionMatchesKeep(ctx);
    KeepAllIsIdentity(TaggedLabels(ctx.labels));
  }

  /** A context that asks for discarding loses exactly the "discard" volumes. */
  lemma DiscardShrinksByDiscardCount<V>(ctx: Aslcontext, volumes: seq<V>)
    requires |volumes| == |ctx.labels|
    ensures |Select(volumes, IndicesWith(TaggedLabels(ctx.labels), true))| == |volumes| - multiset(ctx.labels)["discard"]
  {
    DiscardedCount(ctx.labels);
  }
}
