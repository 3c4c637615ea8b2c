/** The aslContext of one ASL acquisition: its per-volume labels and the root its sidecar
    files are named after, with validation against the image's volume count, the discard
    decision and the content of the `*_aslcontext.tsv` and `*_aslcontext.json` sidecars. */
module AslContext {
  import opened Wrappers
  import opened Text
  import opened Paths
  import opened Labels
  import opened Csv
  import opened Acquisitions

  /** The description key holding the label list. */
  const AslContextDescriptionProperty: string := "aslContext"

  /** `Aslcontext(labels, file_root)`: both fields are set at construction and never
      changed. `fileRoot` is the destination root without the modality suffix. */
  datatype Aslcontext = Aslcontext(labels: seq<string>, fileRoot: Option<Path>)

  /** The exceptions the core raises. */
  datatype AslError =
    | MissingAslcontextError(descriptionIndex: int)
    | AslContextConfigurationError(aslFile: Path, nvols: int, nlabels: int)
    | InvalidAslcontextLabelError(badLabel: string)
    | TypeError(message: string)

  /** `Aslcontext.from_acquisition`: the labels stored under "aslContext" in the
      acquisition's description; a description without that key is an error that names
      the description's index. */
  function FromAcquisition(acq: Acquisition): (r: Result<Aslcontext, AslError>)
    ensures r.Ok? <==> AslContextDescriptionProperty in acq.description.data
    ensures r.Ok? ==> r.value.labels == acq.description.data[AslContextDescriptionProperty]
    ensures r.Ok? ==> r.value.fileRoot == Some(acq.dstRootNoModality)
    ensures r.Err? ==> r.error == MissingAslcontextError(acq.description.index)
  {
    if AslContextDescriptionProperty in acq.description.data then
      Ok(Aslcontext(acq.description.data[AslContextDescriptionProperty], Some(acq.dstRootNoModality)))
    else
      Err(MissingAslcontextError(acq.description.index))
  }

  // ---------------------------------------------------------------------------
  // Sidecar file names

  const TsvSuffix: string := "_aslcontext.tsv"
  const JsonSuffix: string := "_aslcontext.json"

  /** The sidecar beside the file root: same directory, the root's stem followed by
      `suffix`. Without a file root there is nothing to name the sidecar after. */
  function SidecarFile(fileRoot: Option<Path>, suffix: string, message: string): (r: Result<Path, AslError>)
    ensures r.Err? <==> fileRoot.None?
    ensures r.Err? ==> r.error == TypeError(message)
    ensures r.Ok? ==> Parent(r.value) == Parent(fileRoot.value)
    ensures r.Ok? ==> Name(r.value) == Stem(Name(fileRoot.value)) + suffix
  {
    match fileRoot
    case None => Err(TypeError(message))
    case Some(root) =>
      var dir := Parent(root);
      Ok(Path(dir.absolute, dir.parts + [Stem(Name(root)) + suffix]))
  }

  /** A stem of a component followed by a suffix without `/` is again a component. */
  lemma SidecarNameIsComponent(name: string, suffix: string)
    requires '/' !in name && '/' !in suffix && |suffix| > 1
    ensures IsComponent(Stem(name) + suffix)
  {
    assert Stem(name) == name[..|Stem(name)|];
  }

  /** `Aslcontext.tsv_file`: `<parent>/<stem>_aslcontext.tsv`, or the TypeError raised
      when there is no file root. */
  function TsvFile(ctx: Aslcontext): (r: Result<Path, AslError>)
    ensures r.Err? <==> ctx.fileRoot.None?
    ensures r.Err? ==> r.error == TypeError("Cannot write tsv file with NoneType file_root attribute.")
    ensures r.Ok? ==> Parent(r.value) == Parent(ctx.fileRoot.value)
    ensures r.Ok? ==> Name(r.value) == Stem(Name(ctx.fileRoot.value)) + TsvSuffix
    ensures r.Ok? && WellFormed(ctx.fileRoot.value) ==> WellFormed(r.value)
  {
    var r := SidecarFile(ctx.fileRoot, TsvSuffix, "Cannot write tsv file with NoneType file_root attribute.");
    if r.Ok? && WellFormed(ctx.fileRoot.value) then
      SidecarNameIsComponent(Name(ctx.fileRoot.value), TsvSuffix); r
    else r
  }

  /** `Aslcontext.json_file`: `<parent>/<stem>_aslcontext.json`, or the TypeError raised
      when there is no file root. */
  function JsonFile(ctx: Aslcontext): (r: Result<Path, AslError>)
    ensures r.Err? <==> ctx.fileRoot.None?
    ensures r.Err? ==> r.error == TypeError("Cannot write json file with NoneType file_root attribute.")
    ensures r.Ok? ==> Parent(r.value) == Parent(ctx.fileRoot.value)
    ensures r.Ok? ==> Name(r.value) == Stem(Name(ctx.fileRoot.value)) + JsonSuffix
    ensures r.Ok? && WellFormed(ctx.fileRoot.value) ==> WellFormed(r.value)
  {
    var r := SidecarFile(ctx.fileRoot, JsonSuffix, "Cannot write json file with NoneType file_root attribute.");
    if r.Ok? && WellFormed(ctx.fileRoot.value) then
      SidecarNameIsComponent(Name(ctx.fileRoot.value), JsonSuffix); r
    else r
  }

  /** The two sidecars sit in the same directory and share their name up to the extension. */
  lemma SidecarFilesDifferOnlyInExtension(ctx: Aslcontext)
    requires ctx.fileRoot.Some?
    ensures TsvFile(ctx).Ok? && JsonFile(ctx).Ok?
    ensures TsvFile(ctx).value.absolute == JsonFile(ctx).value.absolute
    ensures Parent(TsvFile(ctx).value) == Parent(JsonFile(ctx).value)
    ensures Name(TsvFile(ctx).value) == Stem(Name(ctx.fileRoot.value)) + "_aslcontext.tsv"
    ensures Name(JsonFile(ctx).value) == Stem(Name(ctx.fileRoot.value)) + "_aslcontext.json"
  {
  }

  // ---------------------------------------------------------------------------
  // Validation

  /** The position of the first label outside both lists, if there is one. */
  function FirstUnknownLabel(labels: seq<string>): (r: Option<nat>)
    ensures r.None? <==> forall i :: 0 <= i < |labels| ==> IsAllowed(labels[i])
    ensures r.Some? ==> r.value < |labels| && !IsAllowed(labels[r.value])
    ensures r.Some? ==> forall j :: 0 <= j < r.value ==> IsAllowed(labels[j])
  {
    if labels == [] then None
    else if !IsAllowed(labels[0]) then Some(0)
    else match FirstUnknownLabel(labels[1..])
      case None => None
      case Some(k) => Some(k + 1)
  }

  /** What `validate` decides for an image with `nvols` volumes: the count check comes
      first and wins over any bad label, then the first label outside both lists is
      reported, and otherwise the context is valid. */
  function Validation(ctx: Aslcontext, aslFile: Path, nvols: int): (r: Outcome<AslError>)
    ensures nvols != |ctx.labels| <==> r == Fail(AslContextConfigurationError(aslFile, nvols, |ctx.labels|))
    ensures r.Pass? <==> nvols == |ctx.labels| && forall i :: 0 <= i < |ctx.labels| ==> IsAllowed(ctx.labels[i])
    ensures r.Fail? ==> r.error.AslContextConfigurationError? || r.error.InvalidAslcontextLabelError?
    ensures r.Fail? && r.error.AslContextConfigurationError? ==> nvols != |ctx.labels|
    ensures r.Fail? && r.error.InvalidAslcontextLabelError? ==>
      exists i :: 0 <= i < |ctx.labels| && ctx.labels[i] == r.error.badLabel && !IsAllowed(ctx.labels[i])
        && forall j :: 0 <= j < i ==> IsAllowed(ctx.labels[j])
  {
    if nvols != |ctx.labels| then Fail(AslContextConfigurationError(aslFile, nvols, |ctx.labels|))
    else match FirstUnknownLabel(ctx.labels)
      case None => Pass
      case Some(i) => Fail(InvalidAslcontextLabelError(ctx.labels[i]))
  }

  /** `Aslcontext.validate`, given the volume count read from the image header
      (`dim[4]`): compares the counts, then scans the labels and stops at the first
      unknown one. */
  method Validate(ctx: Aslcontext, aslFile: Path, nvols: int) returns (r: Outcome<AslError>)
    ensures r == Validation(ctx, aslFile, nvols)
  {
    var nlabels := |ctx.labels|;
    if nvols != nlabels {
      return Fail(AslContextConfigurationError(aslFile, nvols, nlabels));
    }
    for i := 0 to |ctx.labels|
      invariant forall j :: 0 <= j < i ==> IsAllowed(ctx.labels[j])
    {
      var lbl := ctx.labels[i];
      if !(lbl in BidsLabels || lbl in AllowedNonBidsLabels) {
        assert FirstUnknownLabel(ctx.labels) == Some(i);
        return Fail(InvalidAslcontextLabelError(lbl));
      }
    }
    return Pass;
  }

  // ---------------------------------------------------------------------------
  // Discard decision

  /** `Aslcontext.should_discard_volumes`: some volume is tagged non-BIDS. */
  function ShouldDiscardVolumes(ctx: Aslcontext): (r: bool)
    ensures r <==> "discard" in ctx.labels
    ensures (forall i :: 0 <= i < |ctx.labels| ==> ctx.labels[i] in BidsLabels) ==> !r
  {
    var tagged := TaggedLabels(ctx.labels);
    exists i :: 0 <= i < |tagged| && !tagged[i].isBids
  }

  /** Volumes are discarded exactly when fewer positions are kept than there are labels,
      which is the test `discard_volumes` uses to bail out early. */
  lemma DiscardDecisionMatchesKeep(ctx: Aslcontext)
    ensures ShouldDiscardVolumes(ctx) <==> |IndicesWith(TaggedLabels(ctx.labels), true)| != |ctx.labels|
  {
    DiscardedCount(ctx.labels);
    assert "discard" in ctx.labels <==> multiset(ctx.labels)["discard"] > 0;
  }

  // ---------------------------------------------------------------------------
  // The aslcontext.tsv sidecar

  const VolumeTypeColumn: string := "volume_type"

  /** The `volume_type` values of the records `tsv` writes: the labels tagged BIDS. The
      k-th record is the label of the k-th kept volume. */
  function Records(tagged: seq<TaggedLabel>): (r: seq<string>)
    ensures |r| == |IndicesWith(tagged, true)|
    ensures forall k :: 0 <= k < |r| ==> r[k] == tagged[IndicesWith(tagged, true)[k]].name
  {
    if tagged == [] then []
    else
      var n := |tagged| - 1;
      Records(tagged[..n]) + (if tagged[n].isBids then [tagged[n].name] else [])
  }

  /** `DictWriter` field names: the sorted keys of all records, so no column at all when
      there are no records. */
  function FieldNames(records: seq<string>): (r: seq<string>)
    ensures r == [] <==> records == []
  {
    if records == [] then [] else [VolumeTypeColumn]
  }

  /** `DictWriter.writeheader`: the field names as a row. */
  function HeaderRow(records: seq<string>): (r: string)
    ensures records == [] ==> r == "\r\n"
    ensures records != [] ==> r == "volume_type\r\n"
  {
    var fieldNames := FieldNames(records);
    if fieldNames == [] then EmptyRow
    else
      VolumeTypeColumnIsPlain();
      SingleFieldRow(fieldNames[0])
  }

  /** The text `Aslcontext.tsv` produces: the header row, then one row per record. */
  function TsvText(ctx: Aslcontext): string {
    var records := Records(TaggedLabels(ctx.labels));
    HeaderRow(records) + RowsText(records)
  }

  /** `Aslcontext.tsv`: builds the records, then writes them. */
  method Tsv(ctx: Aslcontext) returns (text: string)
    ensures text == TsvText(ctx)
  {
    var records := Records(TaggedLabels(ctx.labels));
    text := WriteRecords(records);
  }

  /** The `DictWriter` part of `Aslcontext.tsv`: the header row into an empty buffer,
      then one row per record, in order. */
  method WriteRecords(records: seq<string>) returns (text: string)
    ensures text == HeaderRow(records) + RowsText(records)
  {
    text := HeaderRow(records);
    for i := 0 to |records|
      invariant text == HeaderRow(records) + RowsText(records[..i])
    {
      RowsTextStep(records, i);
      text := text + SingleFieldRow(records[i]);
    }
    assert records[..|records|] == records;
  }

  /** A BIDS label is written as it is: it is not empty and needs no quoting. */
  lemma BidsLabelIsPlain(lbl: string)
    requires lbl in BidsLabels
    ensures IsPlain(lbl)
  {
    assert lbl == "cbf" || lbl == "control" || lbl == "deltam" || lbl == "label" || lbl == "m0scan";
    forall i | 0 <= i < |lbl| ensures !IsSpecial(lbl[i]) {
    }
  }

  /** The records of labels that pass validation are BIDS labels, written plain. */
  lemma ValidRecordsArePlain(labels: seq<string>)
    requires forall i :: 0 <= i < |labels| ==> IsAllowed(labels[i])
    ensures forall x :: x in Records(TaggedLabels(labels)) ==> IsPlain(x)
  {
    var tagged := TaggedLabels(labels);
    var records := Records(tagged);
    var keep := IndicesWith(tagged, true);
    forall x | x in records ensures IsPlain(x) {
      var k :| 0 <= k < |records| && records[k] == x;
      assert records[k] == labels[keep[k]];
      BidsLabelIsPlain(records[k]);
    }
  }

  lemma VolumeTypeColumnIsPlain()
    ensures IsPlain(VolumeTypeColumn)
  {
    forall i | 0 <= i < |VolumeTypeColumn| ensures !IsSpecial(VolumeTypeColumn[i]) {
    }
  }

  /** For labels that pass validation the TSV is the `volume_type` header line followed
      by the non-discard labels in their original order, one per `\r\n`-terminated line;
      when every label is "discard" it is a single empty line. */
  lemma TsvOfValidLabels(ctx: Aslcontext)
    requires forall i :: 0 <= i < |ctx.labels| ==> IsAllowed(ctx.labels[i])
    ensures Records(TaggedLabels(ctx.labels)) == [] ==> TsvText(ctx) == "\r\n"
    ensures Records(TaggedLabels(ctx.labels)) != [] ==>
      TsvText(ctx) == Lines(["volume_type"] + Records(TaggedLabels(ctx.labels)))
  {
    var records := Records(TaggedLabels(ctx.labels));
    ValidRecordsArePlain(ctx.labels);
    PlainRows(records);
    if records != [] {
      VolumeTypeColumnIsPlain();
      assert HeaderRow(records) == VolumeTypeColumn + LineTerminator;
      assert ([VolumeTypeColumn] + records)[1..] == records;
    }
  }

  /** The TSV has one data row per label that is not "discard". */
  lemma TsvRowCount(ctx: Aslcontext)
    ensures |Records(TaggedLabels(ctx.labels))| == |ctx.labels| - multiset(ctx.labels)["discard"]
  {
    DiscardedCount(ctx.labels);
  }

  /** The TSV depends only on the non-discard labels in order: removing the "discard"
      labels from the context leaves it unchanged. */
  lemma TsvIgnoresDiscardedLabels(ctx: Aslcontext)
    ensures TsvText(Aslcontext(Records(TaggedLabels(ctx.labels)), ctx.fileRoot)) == TsvText(ctx)
  {
    var tagged := TaggedLabels(ctx.labels);
    var records := Records(tagged);
    var again := TaggedLabels(records);
    forall k | 0 <= k < |records| ensures again[k].isBids {
      assert tagged[IndicesWith(tagged, true)[k]].isBids;
    }
    KeepEverythingIsIdentity(again);
    assert Records(again) == records;
  }

  // ---------------------------------------------------------------------------
  // The discard log message

  /** The (index, label) pairs of the volumes that will be removed, by ascending index. */
  function DiscardedVolumes(ctx: Aslcontext): (r: seq<(nat, string)>)
    ensures forall k :: 0 <= k < |r| ==> r[k].0 < |ctx.labels| && r[k].1 == ctx.labels[r[k].0] == "discard"
    ensures forall k, m :: 0 <= k < m < |r| ==> r[k].0 < r[m].0
    ensures forall i :: 0 <= i < |ctx.labels| && ctx.labels[i] == "discard" ==> exists k :: 0 <= k < |r| && r[k].0 == i
  {
    var tagged := TaggedLabels(ctx.labels);
    var idx := IndicesWith(tagged, false);
    var r := seq(|idx|, k requires 0 <= k < |idx| => (idx[k], tagged[idx[k]].name));
    assert forall i :: 0 <= i < |ctx.labels| && ctx.labels[i] == "discard" ==> r[IndexOf(idx, i)].0 == i;
    r
  }

  function IndexOf(s: seq<nat>, x: nat): (k: nat)
    requires x in s
    ensures k < |s| && s[k] == x
  {
    if s[0] == x then 0 else 1 + IndexOf(s[1..], x)
  }

  /** "volume at index [i] with label [lab]", the index in decimal. */
  function Reason(volume: (nat, string)): string {
    "volume at index [" + DecimalText(volume.0) + "] with label [" + volume.1 + "]"
  }

  /** One reason per discarded volume, in the same order. */
  function Reasons(ctx: Aslcontext): (r: seq<string>)
    ensures |r| == |DiscardedVolumes(ctx)|
    ensures forall k :: 0 <= k < |r| ==> r[k] == Reason(DiscardedVolumes(ctx)[k])
  {
    var volumes := DiscardedVolumes(ctx);
    seq(|volumes|, k requires 0 <= k < |volumes| => Reason(volumes[k]))
  }

  function WillDiscardPreamble(acq: Acquisition): string {
    "ASL context for acqusition [" + PathText(acq.dstRoot)
      + "] has non-BIDS-compliant aslContext labels. d2b-asl will remove volumes: "
  }

  /** `_msg_will_discard_volumes`: the preamble naming the acquisition, then the
      reasons, comma-separated. */
  function WillDiscardVolumesMessage(acq: Acquisition, ctx: Aslcontext): (r: string)
    ensures WillDiscardPreamble(acq) <= r
  {
    WillDiscardPreamble(acq) + Join(",", Reasons(ctx))
  }

  /** A reason for a label without a comma holds no comma: the index is all digits. */
  lemma ReasonHasNoComma(volume: (nat, string))
    requires ',' !in volume.1
    ensures ',' !in Reason(volume)
  {
    var digits := DecimalText(volume.0);
    forall i | 0 <= i < |digits| ensures digits[i] != ',' {
      assert IsDigit(digits[i]);
    }
    var head := "volume at index [";
    var middle := "] with label [";
    forall i | 0 <= i < |head| ensures head[i] != ',' {
    }
    forall i | 0 <= i < |middle| ensures middle[i] != ',' {
    }
    assert Reason(volume) == head + digits + middle + volume.1 + "]";
  }

  /** Every reason is free of commas, since only "discard" labels are listed. */
  lemma ReasonsHaveNoComma(ctx: Aslcontext)
    ensures forall k :: 0 <= k < |Reasons(ctx)| ==> ',' !in Reasons(ctx)[k]
  {
    var volumes := DiscardedVolumes(ctx);
    forall k | 0 <= k < |volumes| ensures ',' !in Reasons(ctx)[k] {
      assert volumes[k].1 == "discard";
      ReasonHasNoComma(volumes[k]);
    }
  }

  /** A context that discards volumes has at least one reason. */
  lemma ReasonsWhenDiscarding(ctx: Aslcontext)
    requires ShouldDiscardVolumes(ctx)
    ensures Reasons(ctx) != []
  {
    var i :| 0 <= i < |ctx.labels| && ctx.labels[i] == "discard";
  }

  /** After the preamble the message splits on "," into exactly the reasons, one per
      discarded volume in ascending index order. */
  lemma WillDiscardMessageListsReasons(acq: Acquisition, ctx: Aslcontext)
    ensures ShouldDiscardVolumes(ctx) ==>
      Split(WillDiscardVolumesMessage(acq, ctx)[|WillDiscardPreamble(acq)|..], ',') == Reasons(ctx)
  {
    if ShouldDiscardVolumes(ctx) {
      var reasons := Reasons(ctx);
      ReasonsWhenDiscarding(ctx);
      ReasonsHaveNoComma(ctx);
      var msg := WillDiscardVolumesMessage(acq, ctx);
      assert msg[|WillDiscardPreamble(acq)|..] == Join([','], reasons);
      SplitJoin(reasons, ',');
    }
  }

  /** The message lists one reason per "discard" label, and the list is empty exactly
      when no volume is discarded. */
  lemma WillDiscardMessageReasons(acq: Acquisition, ctx: Aslcontext)
    ensures |DiscardedVolumes(ctx)| == multiset(ctx.labels)["discard"]
    ensures WillDiscardPreamble(acq) <= WillDiscardVolumesMessage(acq, ctx)
    ensures |WillDiscardVolumesMessage(acq, ctx)| == |WillDiscardPreamble(acq)| <==> !ShouldDiscardVolumes(ctx)
  {
    var reasons := Reasons(ctx);
    DiscardedCount(ctx.labels);
    assert "discard" in ctx.labels <==> multiset(ctx.labels)["discard"] > 0;
    if reasons != [] {
      assert |reasons[0]| > 0;
      if |reasons| > 1 {
        assert Join(",", reasons) == reasons[0] + "," + Join(",", reasons[1..]);
      }
    }
  }
}
