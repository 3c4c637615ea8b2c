# d2b-asl: the aslContext step, modelled in Dafny

d2b-asl is a d2b plugin. After d2b has moved the converted acquisitions into a BIDS
dataset, the plugin finds the Arterial Spin Labeling acquisitions (modality label `_asl`)
and reads each one's `aslContext`: one label per volume of the ASL image, taken from the
acquisition's description. It then does the following:

- It checks the labels against the image. The label count must equal the volume count
  (`dim[4]` of the NIfTI header). Every label must be a BIDS volume type (`cbf`, `control`,
  `deltam`, `label`, `m0scan`) or the plugin's own `discard`.
- It writes the `*_aslcontext.tsv` sidecar, which has one `volume_type` row per label that
  is not `discard`.
- If asked, it writes a fixed `*_aslcontext.json` sidecar describing the `volume_type` column.
- It removes the `discard` volumes from the image in place and logs which volumes it removes.

The model follows the single source module `src/d2b_asl.py`, one Dafny module per concern:

- `Labels`: the two label lists, `TaggedLabel` and `tagged_labels`. It also holds the
  positions of the kept (BIDS) and discarded volumes, and proves that these positions are
  the only ascending enumeration of the matching entries.
- `AslContext`: the context, which is a value because its fields are set once. It covers:
  - `from_acquisition`
  - the `tsv_file`/`json_file` names
  - validation, as a function and as the early-exit loop `Validate`, proved equal
  - the discard decision
  - the TSV text, as a function and as the buffer-filling method `Tsv`/`WriteRecords`, proved equal
  - the discard log message
- `Csv`: the rows Python's `csv.DictWriter` writes in its default dialect, for rows with
  no field or with one field.
- `Paths`: pure POSIX paths as component lists, with `parent`, `name` and `stem`.
- `Acquisitions`: the acquisition fields the step reads, and the `_asl` filter.
- `VolumeEditor`: `discard_volumes`, as a class whose image is replaced in place.
- `SidecarJson`: the sidecar document as a JSON value.
- `Scenarios`: worked cases on concrete labels and paths.

The image's volume count, the volume data and the file system are parameters of the
model. The model does not read files.

## Model

| member | source | states |
|---|---|---|
| Labels.IsAllowed | src/d2b_asl.py:135 | A label passes `validate`'s test when it is in `BIDS_LABELS` or `ALLOWED_NON_BIDS_LABELS` (definition) |
| Labels.AllowedLabels | src/d2b_asl.py:25-26 | The two lists: the accepted labels are exactly cbf, control, deltam, label, m0scan and discard, and the BIDS ones are all of them but discard |
| Labels.TaggedLabels | src/d2b_asl.py:138-142 | Same length and order as the labels; each entry keeps its label; `isBids` is false exactly for "discard", so an unknown label is tagged BIDS |
| Labels.IndicesWith | src/d2b_asl.py:185 | The matching positions (`keep_vols`, or the discarded ones): in range, matching, strictly ascending, and none missing |
| Labels.IndicesWithUnique | src/d2b_asl.py:185 | Any ascending list of matching in-range positions that misses none is exactly `IndicesWith`, so the keep list is fully determined by those properties |
| Labels.KeptAndDiscardedPartition | src/d2b_asl.py:185 | Every position is either kept or discarded, never both, and the two counts add up to the label count |
| Labels.DiscardedCount | src/d2b_asl.py:138-145 | The number of discarded positions is the number of "discard" labels; the kept count is the rest |
| Labels.KeepAllIsIdentity | src/d2b_asl.py:185-188 | When as many positions are kept as there are labels, the keep list is `0, 1, …, n-1` (the early-return case of `discard_volumes`) |
| Labels.KeepEverythingIsIdentity | src/d2b_asl.py:185 | When every entry is tagged BIDS, the keep list is `0, 1, …, n-1` |
| Paths.Name | src/d2b_asl.py:120 | `Path.name` is the last component, or "" for a path without components |
| Paths.Parent | src/d2b_asl.py:120 | `Path.parent` keeps absoluteness and drops exactly the last component; a path without components is its own parent |
| Paths.LastDot | src/d2b_asl.py:120 | `rfind('.')`: -1 exactly when there is no dot, otherwise the position of the last dot |
| Paths.Stem | src/d2b_asl.py:120 | `Path.stem` is a prefix of the name; it differs from the name exactly when the last dot is neither first nor last, and then it ends right before that dot |
| Paths.PathText | src/d2b_asl.py:237 | `str(path)` starts with `/` for an absolute path and is never empty for a well-formed path; `PathTextRoundTrip` pins the text itself |
| Paths.Components | src/d2b_asl.py:237 | Parsing drops empty and `.` pieces, so it never adds any |
| Paths.ParsePath | src/d2b_asl.py:237 | `PurePosixPath(text)`: absolute exactly when the text starts with `/`, then the non-empty, non-`.` pieces between separators |
| Paths.PathTextRoundTrip | src/d2b_asl.py:237 | For a well-formed path the text is `/` or `.` when there are no components; otherwise it splits on `/` into exactly the components (after one empty piece when absolute), which with `SplitJoin` fixes it as the components joined by single `/`. Parsing the text gives the path back (`PurePosixPath(str(p)) == p`) |
| Text.Join | src/d2b_asl.py:235 | `",".join`: empty for no parts, the part itself for one part, and always starts with the first part |
| Text.JoinAppend | src/d2b_asl.py:235 | Joining one more part appends the separator and then that part |
| Text.Split | src/d2b_asl.py:235 | `str.split` on one character: at least one piece, none holding the separator |
| Text.SplitJoin | src/d2b_asl.py:235 | Splitting a non-empty join of separator-free parts gives back exactly those parts |
| Text.DecimalText | src/d2b_asl.py:233-234 | The decimal text of an index is non-empty and all digits. Its digits denote the index (`DigitsValue`). There is no leading zero, and it is one digit exactly below 10 |
| Csv.Field | src/d2b_asl.py:151-154 | A field is written unchanged unless it holds a comma, quote, CR or LF; then it is quoted |
| Csv.SingleFieldRow | src/d2b_asl.py:153-154 | `writerow` of a one-field record: the field as minimal quoting writes it (`""` when empty), then `\r\n` (definition) |
| Csv.RowsText | src/d2b_asl.py:153-154 | One `writerow` per value, in order (definition; `PlainRows` gives its value for plain values) |
| Csv.PlainRows | src/d2b_asl.py:151-154 | Rows whose single value needs no quoting are those values as `\r\n`-terminated lines |
| Acquisitions.IsAsl | src/d2b_asl.py:96-98 | An acquisition is ASL exactly when its description's modality label is `_asl` (definition, no contract) |
| Acquisitions.FindAslAcquisitions | src/d2b_asl.py:92-98 | The result is no longer than the input, and every selected acquisition is `_asl` and comes from the input |
| Acquisitions.FindAslCounts | src/d2b_asl.py:92-93 | Each `_asl` acquisition is kept as often as it occurs; every other acquisition is dropped |
| Acquisitions.FindAslDistributes | src/d2b_asl.py:92-93 | Selection over a concatenation is the concatenation of the selections, so input order is preserved |
| Acquisitions.FindAslIdempotent | src/d2b_asl.py:92-93 | Selecting twice gives the same result as selecting once |
| AslContext.FromAcquisition | src/d2b_asl.py:106-113 | Succeeds exactly when the description has "aslContext". The context holds those labels and the root without modality. Otherwise the error is `MissingAslcontextError` carrying the description index |
| AslContext.SidecarFile | src/d2b_asl.py:115-127 | Fails with the given `TypeError` exactly when there is no file root; otherwise the sidecar is in the root's parent directory and named stem + suffix |
| AslContext.SidecarNameIsComponent | src/d2b_asl.py:119-120 | The stem of a component followed by the suffix is again a single path component |
| AslContext.TsvFile | src/d2b_asl.py:115-120 | `tsv_file`: the `TypeError` with the source's message exactly when `file_root` is None; otherwise `parent / (stem + "_aslcontext.tsv")`, well-formed when the root is |
| AslContext.JsonFile | src/d2b_asl.py:122-127 | `json_file`: the same with its own message and `_aslcontext.json` |
| AslContext.SidecarFilesDifferOnlyInExtension | src/d2b_asl.py:115-127 | With a file root both names exist, share directory and stem, and differ only in extension |
| AslContext.FirstUnknownLabel | src/d2b_asl.py:134-136 | None exactly when every label is allowed; otherwise the position of the first label outside both lists |
| AslContext.Validation | src/d2b_asl.py:129-136 | A count mismatch, in either direction, is the `AslContextConfigurationError(file, nvols, nlabels)` outcome and wins over bad labels. Pass exactly when the counts match and every label is allowed. Otherwise the error names the first unknown label |
| AslContext.Validate | src/d2b_asl.py:129-136 | The early-exit loop decides exactly what `Validation` states |
| AslContext.ShouldDiscardVolumes | src/d2b_asl.py:144-145 | True exactly when some label is "discard"; false when every label is a BIDS label |
| AslContext.DiscardDecisionMatchesKeep | src/d2b_asl.py:186 | The discard decision is true exactly when `discard_volumes` would not bail out early |
| AslContext.Records | src/d2b_asl.py:149 | One record per kept position, in order; the k-th record is the label of the k-th kept volume |
| AslContext.FieldNames | src/d2b_asl.py:150 | The field list is empty exactly when there are no records |
| AslContext.HeaderRow | src/d2b_asl.py:150-152 | `writeheader` writes the line `volume_type` when there are records, and a bare `\r\n` when there are none |
| AslContext.TsvText | src/d2b_asl.py:147-156 | The text `tsv()` returns is the header row followed by one row per record (definition; its content is stated by `TsvOfValidLabels`, `TsvRowCount` and `TsvIgnoresDiscardedLabels`) |
| AslContext.Tsv | src/d2b_asl.py:147-156 | `tsv()` produces the header row followed by one row per record (`TsvText`) |
| AslContext.WriteRecords | src/d2b_asl.py:151-154 | The `writeheader` + `writerow` loop fills the buffer with the header and then the records' rows, in order |
| AslContext.BidsLabelIsPlain | src/d2b_asl.py:25 | No BIDS label is empty or needs quoting |
| AslContext.ValidRecordsArePlain | src/d2b_asl.py:147-154 | For validated labels every record is written unquoted |
| AslContext.VolumeTypeColumnIsPlain | src/d2b_asl.py:149 | The column name is written unquoted |
| AslContext.TsvOfValidLabels | src/d2b_asl.py:147-156 | For validated labels the TSV is the line `volume_type` followed by the non-"discard" labels in order, each line ended by `\r\n`. With no such label the TSV is a single empty line |
| AslContext.TsvRowCount | src/d2b_asl.py:149 | The number of data rows is the number of labels minus the number of "discard" labels |
| AslContext.TsvIgnoresDiscardedLabels | src/d2b_asl.py:147-156 | Dropping the "discard" labels from the context does not change the TSV |
| AslContext.DiscardedVolumes | src/d2b_asl.py:230-232 | The (index, label) pairs are in range and labelled "discard", by strictly ascending index, and none is missing |
| AslContext.Reason | src/d2b_asl.py:233-234 | `reason_tpl.format`: "volume at index [i] with label [lab]", the index in decimal (definition) |
| AslContext.WillDiscardPreamble | src/d2b_asl.py:236-238 | The fixed opening of the message, naming the acquisition's destination root, typo "acqusition" included (definition) |
| AslContext.Reasons | src/d2b_asl.py:233-234 | One reason per discarded volume, the k-th naming the k-th discarded (index, label) pair |
| AslContext.WillDiscardVolumesMessage | src/d2b_asl.py:229-239 | The message starts with the preamble naming the acquisition's destination root; the reasons follow, comma-joined |
| AslContext.ReasonHasNoComma | src/d2b_asl.py:233-234 | A reason for a label without a comma contains no comma, since the index is written in digits |
| AslContext.WillDiscardMessageListsReasons | src/d2b_asl.py:229-239 | When volumes are discarded, the text after the preamble splits on "," into exactly the reasons, so it names exactly the discarded volumes, in ascending index order |
| AslContext.WillDiscardMessageReasons | src/d2b_asl.py:229-239 | The message lists one reason per "discard" label after the preamble; the reason list is empty exactly when nothing is discarded |
| VolumeEditor.Select | src/d2b_asl.py:191 | `data[..., keep_vols]`: one volume per index, the k-th being the volume at the k-th index |
| VolumeEditor.NiftiFile.DiscardVolumes | src/d2b_asl.py:183-192 | The file is untouched exactly when every position is kept. Otherwise the image becomes the volumes at the kept positions, in order, with the old affine and header. An out-of-range position (the array's IndexError) leaves the image as it was |
| VolumeEditor.KeptVolumesMatchTsvRows | src/d2b_asl.py:183-192 | With as many volumes as labels every kept position is in range, and the k-th kept volume corresponds to the k-th TSV record |
| VolumeEditor.KeptLabelsAreRecords | src/d2b_asl.py:185 | The labels at the kept positions are exactly the TSV records |
| VolumeEditor.NothingDiscardedKeepsAll | src/d2b_asl.py:186-188 | When nothing is discarded, selecting the kept positions gives back all volumes, so skipping the rewrite loses nothing |
| VolumeEditor.DiscardShrinksByDiscardCount | src/d2b_asl.py:185-191 | The rewritten image has as many volumes as there are labels other than "discard" |
| SidecarJson.Levels | src/d2b_asl.py:200-206 | The levels object lists control, label, m0scan, deltam and cbf, in that order |
| SidecarJson.SidecarContent | src/d2b_asl.py:195-209 | The document has the single key `volume_type` with LongName, Description, Levels and TermURL, in that order |
| SidecarJson.LevelsAreBidsLabels | src/d2b_asl.py:200-206 | The levels are exactly the BIDS labels, each once |
| SidecarJson.JsonDocument | src/d2b_asl.py:158-162 | `json()` is a single-key object whose key is `volume_type` |
| SidecarJson.JsonIndependentOfContext | src/d2b_asl.py:158-162 | `json()` gives the same document for every context |
| Scenarios.AllBidsLabels | src/d2b_asl.py:129-156 | Three BIDS labels for three volumes: the context is valid, nothing is discarded, and the TSV is the header plus the three labels |
| Scenarios.OneDiscardLabelIsValid | src/d2b_asl.py:129-145 | `control, label, discard, m0scan` for four volumes: the context is valid and volumes are to be discarded |
| Scenarios.OneDiscardLabelVolumes | src/d2b_asl.py:183-192 | For those labels volumes 0, 1 and 3 are kept and the message names volume 2 |
| Scenarios.OneDiscardLabelTsv | src/d2b_asl.py:147-156 | For those labels the TSV lists control, label and m0scan |
| Scenarios.TooFewLabels | src/d2b_asl.py:132-133 | Two labels for three volumes give the count error (3, 2) |
| Scenarios.CountCheckComesFirst | src/d2b_asl.py:132-136 | A count mismatch is reported even when a label is also unknown |
| Scenarios.UnknownLabel | src/d2b_asl.py:134-142 | "bolus" is tagged BIDS but rejected by validation as the first unknown label |
| Scenarios.AllDiscarded | src/d2b_asl.py:147-156 | When every label is "discard" the TSV is a single empty line |
| Scenarios.MissingLabels | src/d2b_asl.py:106-113 | A description without "aslContext" gives the error with its index |
| Scenarios.SubjectStem | src/d2b_asl.py:120 | The stem of `sub-01.v2` is `sub-01` |
| Scenarios.SidecarNames | src/d2b_asl.py:115-127 | The TSV sidecar of `/out/perf/sub-01.v2` is `/out/perf/sub-01_aslcontext.tsv`; without a file root naming fails |

## Left out

- Reading the image (`nib.load`, `header["dim"][4]`, `get_data`) and saving it (`nib.save`) are not modelled (src/d2b_asl.py:130, 189-192). The volume count is the `nvols` parameter of `Validation`/`Validate`. The image is a sequence of abstract volumes with an opaque affine and header. nibabel's update of the header's dimensions on save is not modelled.
- VolumeEditor.NiftiFile.DiscardVolumes: it models a kept position past the last volume as an outcome that leaves the image unchanged. In the source this is the exception raised by the array indexing. Once validation has passed, this outcome cannot occur (`KeptVolumesMatchTsvRows`).
- `write_tsv`, `write_json`, `write_bids_tsv` and `write_bids_json` are left out (src/d2b_asl.py:164-180). They are file-system writes of the `tsv()`/`json()` text to the named sidecar under the dataset directory.
- `find_asl_file` and d2b's `first_nii` are not modelled (src/d2b_asl.py:212-219). They search the file system, and `first_nii` is not part of this model.
- The plugin hooks `prepare_run_parser`, `pre_run_logs` and `post_move` are not modelled (src/d2b_asl.py:29-63). They are argument parsing, logging and glue for the host pipeline.
- `generate_context_files` is not modelled as a whole (src/d2b_asl.py:66-89). It is a sequence of I/O steps over the selected acquisitions, and each of its steps is modelled separately.
- `_msg_asl_found` is left out (src/d2b_asl.py:222-226). It is a log message with no logic.
- The text of the exceptions' messages is not modelled (src/d2b_asl.py:248-276). The errors carry the same fields, and the `TypeError` messages are modelled verbatim.
- SidecarJson.SidecarContent: the text `json.dump(..., indent=2)` produces from the document is not modelled. The document is modelled as a JSON value with its keys in insertion order.
- Csv.Field: minimal quoting covers only the rows this step writes, which have no field or one field. Multi-field rows and other dialects are not modelled. A single empty field is written as `""`, as Python's csv module does.
- AslContext.Reason: a single reason is not parsed back into its index and label. The reasons are shown to be recovered from the message by splitting on "," (`WillDiscardMessageListsReasons`). Each reason's index is written by `DecimalText`, whose digits are proved to denote the index.
- Paths.ParsePath: pathlib's special treatment of a leading `//` is not modelled. The parse is only used to show that `PathText` loses nothing.
- Turning a `str` file root into a `Path` is not modelled. Paths are already split into components, and `Path.stem` is applied to the final component.
- `description.data` holds only label lists in this model (`map<string, seq<string>>`). A non-list value under "aslContext" is not modelled.
- `Acquisition` and `Description` come from d2b and are not part of this model. Only the fields used here are modelled: `data`, `modality_label`, `index`, `dst_root` and `dst_root_no_modality`.
