/** Worked cases of the aslContext step, stated on the model. */
module Scenarios {
  import opened Wrappers
  import opened Paths
  import opened Csv
  import opened Labels
  import opened Acquisitions
  import opened AslContext
  import opened VolumeEditor

  const AslFile: Path := Path(true, ["out", "sub-01", "perf", "sub-01_asl.nii.gz"])
  const Root: Path := Path(true, ["out", "sub-01", "perf", "sub-01"])

  const ThreeBids: seq<string> := ["control", "label", "m0scan"]
  const ThreeBidsTagged: seq<TaggedLabel> :=
    [TaggedLabel(true, "control"), TaggedLabel(true, "label"), TaggedLabel(true, "m0scan")]

  lemma ThreeBidsTaggedAsBids()
    ensures TaggedLabels(ThreeBids) == ThreeBidsTagged
  {
  }

  lemma ThreeBidsKeepAll()
    ensures IndicesWith(ThreeBidsTagged, true) == [0, 1, 2]
  {
    IndicesWithUnique(ThreeBidsTagged, true, [0, 1, 2]);
  }

  lemma ThreeBidsRecords()
    ensures Records(ThreeBidsTagged) == ThreeBids
  {
    ThreeBidsKeepAll();
  }

  /** Three BIDS labels for a three-volume image: valid, nothing discarded, one TSV row
      per label. */
  lemma AllBidsLabels()
    ensures var ctx := Aslcontext(ThreeBids, Some(Root));
      && Validation(ctx, AslFile, 3) == Pass
      && !ShouldDiscardVolumes(ctx)
      && IndicesWith(TaggedLabels(ctx.labels), true) == [0, 1, 2]
      && TsvText(ctx) == Lines(["volume_type", "control", "label", "m0scan"])
  {
    var ctx := Aslcontext(ThreeBids, Some(Root));
    ThreeBidsTaggedAsBids();
    ThreeBidsKeepAll();
    ThreeBidsRecords();
    assert ["volume_type"] + ThreeBids == ["volume_type", "control", "label", "m0scan"];
    TsvOfValidLabels(ctx);
  }

  const FourLabels: seq<string> := ["control", "label", "discard", "m0scan"]
  const FourTagged: seq<TaggedLabel> :=
    [TaggedLabel(true, "control"), TaggedLabel(true, "label"), TaggedLabel(false, "discard"), TaggedLabel(true, "m0scan")]

  lemma FourLabelsTagged()
    ensures TaggedLabels(FourLabels) == FourTagged
  {
  }

  lemma FourLabelsKeep()
    ensures IndicesWith(FourTagged, true) == [0, 1, 3]
  {
    IndicesWithUnique(FourTagged, true, [0, 1, 3]);
  }

  lemma FourLabelsDiscard()
    ensures IndicesWith(FourTagged, false) == [2]
  {
    IndicesWithUnique(FourTagged, false, [2]);
  }

  lemma FourLabelsAllowed()
    ensures forall i :: 0 <= i < |FourLabels| ==> IsAllowed(FourLabels[i])
  {
    assert FourLabels[0] == BidsLabels[1] && FourLabels[1] == BidsLabels[3];
    assert FourLabels[2] == AllowedNonBidsLabels[0] && FourLabels[3] == BidsLabels[4];
  }

  lemma FourLabelsRecords()
    ensures Records(FourTagged) == ["control", "label", "m0scan"]
  {
    FourLabelsKeep();
  }

  /** One "discard" label among four for a four-volume image: valid, and volumes are
      to be discarded. */
  lemma OneDiscardLabelIsValid()
    ensures var ctx := Aslcontext(FourLabels, Some(Root));
      Validation(ctx, AslFile, 4) == Pass && ShouldDiscardVolumes(ctx)
  {
    assert FourLabels[2] == "discard";
    FourLabelsAllowed();
  }

  /** The rewritten image keeps volumes 0, 1 and 3, and the message names volume 2. */
  lemma OneDiscardLabelVolumes<V>(v0: V, v1: V, v2: V, v3: V)
    ensures var ctx := Aslcontext(FourLabels, Some(Root));
      && Select([v0, v1, v2, v3], IndicesWith(TaggedLabels(ctx.labels), true)) == [v0, v1, v3]
      && DiscardedVolumes(ctx) == [(2, "discard")]
  {
    FourLabelsTagged();
    FourLabelsKeep();
    FourLabelsDiscard();
  }

  /** The TSV lists the three other labels, in order. */
  lemma OneDiscardLabelTsv()
    ensures TsvText(Aslcontext(FourLabels, Some(Root))) == Lines(["volume_type", "control", "label", "m0scan"])
  {
    FourLabelsTagged();
    FourLabelsKeep();
    FourLabelsRecords();
    FourLabelsAllowed();
    assert ["volume_type"] + Records(FourTagged) == ["volume_type", "control", "label", "m0scan"];
    TsvOfValidLabels(Aslcontext(FourLabels, Some(Root)));
  }

  /** Two labels for a three-volume image: the count mismatch is reported. */
  lemma TooFewLabels()
    ensures Validation(Aslcontext(["control", "label"], Some(Root)), AslFile, 3)
      == Fail(AslContextConfigurationError(AslFile, 3, 2))
  {
  }

  /** A count mismatch wins over an unknown label. */
  lemma CountCheckComesFirst()
    ensures Validation(Aslcontext(["bolus"], Some(Root)), AslFile, 2)
      == Fail(AslContextConfigurationError(AslFile, 2, 1))
  {
  }

  /** "bolus" is tagged BIDS but rejected by validation, as the first unknown label. */
  lemma UnknownLabel()
    ensures TaggedLabels(["control", "bolus", "m0"])[1].isBids
    ensures Validation(Aslcontext(["control", "bolus", "m0"], Some(Root)), AslFile, 3)
      == Fail(InvalidAslcontextLabelError("bolus"))
  {
    assert !IsAllowed("bolus");
    assert FirstUnknownLabel(["control", "bolus", "m0"]) == Some(1) by {
      assert ["control", "bolus", "m0"][1..] == ["bolus", "m0"];
    }
  }

  /** When every label is "discard" there are no records, so no column: the TSV is a
      single empty line. */
  lemma AllDiscarded()
    ensures TsvText(Aslcontext(["discard", "discard"], None)) == "\r\n"
  {
    var tagged := TaggedLabels(["discard", "discard"]);
    assert tagged == [TaggedLabel(false, "discard"), TaggedLabel(false, "discard")];
    assert tagged[..1] == [TaggedLabel(false, "discard")];
    assert Records(tagged) == [];
  }

  /** A description without "aslContext" is reported with its index. */
  lemma MissingLabels()
    ensures FromAcquisition(Acquisition(Description(map[], "_asl", 7), Root, Root))
      == Err(MissingAslcontextError(7))
  {
  }

  /** The stem of "sub-01.v2" drops only the last suffix. */
  lemma SubjectStem()
    ensures Stem("sub-01.v2") == "sub-01"
  {
    var name := "sub-01.v2";
    assert name[..8] == "sub-01.v" && name[..8][..7] == "sub-01.";
    assert LastDot(name[..8][..7]) == 6;
    assert LastDot(name) == 6;
  }

  /** The sidecars of `/out/perf/sub-01.v2` are named after its stem `sub-01`;
      without a file root naming fails. */
  lemma SidecarNames()
    ensures TsvFile(Aslcontext([], Some(Path(true, ["out", "perf", "sub-01.v2"]))))
      == Ok(Path(true, ["out", "perf", "sub-01_aslcontext.tsv"]))
    ensures JsonFile(Aslcontext([], None)).Err?
  {
    SubjectStem();
    var root := Path(true, ["out", "perf", "sub-01.v2"]);
    assert Stem(Name(root)) + TsvSuffix == "sub-01_aslcontext.tsv";
    assert Parent(root) == Path(true, ["out", "perf"]);
    assert ["out", "perf"] + ["sub-01_aslcontext.tsv"] == ["out", "perf", "sub-01_aslcontext.tsv"];
  }
}
