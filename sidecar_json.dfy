/** The `*_aslcontext.json` sidecar: a fixed description of the `volume_type` column. */
module SidecarJson {
  import opened Labels
  import opened AslContext

  /** A JSON document made of strings and objects (members in insertion order). */
  datatype Json = JString(str: string) | JObject(members: seq<(string, Json)>)

  /** The keys of an object's members, in order. */
  function Keys(members: seq<(string, Json)>): (r: seq<string>)
    ensures |r| == |members|
    ensures forall i :: 0 <= i < |r| ==> r[i] == members[i].0
  {
    seq(|members|, i requires 0 <= i < |members| => members[i].0)
  }

  /** The volume types the document describes, in the order it lists them. */
  const LevelNames: seq<string> := ["control", "label", "m0scan", "deltam", "cbf"]

  /** The description of each entry of LevelNames, at the same position. */
  const LevelDescriptions: seq<string> := [
    "The control image is acquired in the exact same way as the label image, except that the magnetization of the blood flowing into the imaging region has not been inverted.",
    "The label image is acquired in the exact same way as the control image, except that the blood magnetization flowing into the imaging region has been inverted.",
    "The M0 image is a calibration image, used to estimate the equilibrium magnetization of blood.",
    "The deltaM image is a perfusion-weighted image, obtained by the subtraction of control - label.",
    "The cerebral blood flow (CBF) image is produced by dividing the deltaM by the M0, quantified into mL/100g/min (See also doi:10.1002/mrm.25197)."
  ]

  const ColumnDescription: string := "Labels identifying the volume type of each volume in the corresponding *_asl.nii[.gz] file. Volume types are based on DICOM Tag (0018,9257) ASL Context."

  const TermUrl: string := "https://bids-specification.readthedocs.io/en/v1.6.0/04-modality-specific-files/01-magnetic-resonance-imaging-data.html#_aslcontexttsv"

  /** The "Levels" object: one member per volume type. */
  function Levels(): (r: Json)
    ensures r.JObject? && Keys(r.members) == LevelNames
  {
    JObject(seq(|LevelNames|, i requires 0 <= i < |LevelNames| => (LevelNames[i], JString(LevelDescriptions[i]))))
  }

  /** `generate_aslcontext_sidecar_content`: the description of the `volume_type` column,
      its long name, its levels and the URL of the term. */
  function SidecarContent(): (r: Json)
    ensures r.JObject? && Keys(r.members) == ["volume_type"]
    ensures r.members[0].1.JObject?
    ensures Keys(r.members[0].1.members) == ["LongName", "Description", "Levels", "TermURL"]
    ensures r.members[0].1.members[2].1 == Levels()
  {
    JObject([("volume_type", JObject([
      ("LongName", JString("Volume type")),
      ("Description", JString(ColumnDescription)),
      ("Levels", Levels()),
      ("TermURL", JString(TermUrl))
    ]))])
  }

  /** The levels describe exactly the BIDS volume types, each once. */
  lemma LevelsAreBidsLabels()
    ensures |LevelNames| == |BidsLabels|
    ensures forall l :: l in LevelNames <==> l in BidsLabels
    ensures forall i, j :: 0 <= i < j < |LevelNames| ==> LevelNames[i] != LevelNames[j]
  {
  }

  /** `Aslcontext.json`: the sidecar document. */
  function JsonDocument(ctx: Aslcontext): (r: Json)
    ensures r.JObject? && Keys(r.members) == ["volume_type"]
  {
    SidecarContent()
  }

  /** Every context writes the same document: neither its labels nor its file root
      matter, and the volume types it describes are the BIDS ones. */
  lemma JsonIndependentOfContext(a: Aslcontext, b: Aslcontext)
    ensures JsonDocument(a) == JsonDocument(b)
    ensures Keys(JsonDocument(a).members[0].1.members[2].1.members) == LevelNames
  {
  }
}
