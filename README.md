# PyXlinkViewer session logic in Dafny

PyXlinkViewer is a PyMOL plugin. It reads experimentally observed cross-links and mono-links
from a jwalk-style text file and checks them against a loaded protein structure. A
cross-link is *satisfied* when its distance is at most a user threshold and *violated*
otherwise. The plugin draws each link as a cylinder, and each mono-link as a sphere, filtered
and coloured by check boxes. This project models the plugin's session logic and proves
properties of it. The parts modelled are:

- the two link records and their equality (`ObsXlink`, `ObsMono`);
- the jwalk line reader (`JwalkReader`), with the `rstrip`/`split` it relies on (`Text`);
- the viewer object (`XlinkViewer.Viewer`): setters, file parsing, distance bookkeeping, the
  sixteen-branch display cascade, deleting and redrawing;
- the counting and table-row logic of the dialog (`XlinkDialog`);
- the colour rule and object name of the stand-alone `draw_xlink` command (`CustomXlink`).

The molecular viewer is an oracle, `Pymol.Host`. It has a function from selection strings to
atom counts, a function from two selection strings to a distance, the current camera view,
and a log of the objects loaded and deleted. `display` and `update` are specified by the
exact log they append.

Some choices in the model:

- Reading a file takes the file's lines as a parameter.
- Python's `float` is a partial function `string -> Option<real>` passed in. `None` stands
  for a raised exception.
- The distance formatting `'{0:3.1f}'` is a function `real -> string` passed in.
- Colours are `Rgb` triples, because the plugin passes three-element lists everywhere.
- In `display`, the colour variable is an `Option<Rgb>`. `None` stands for the empty
  string.

Modelled as written:

- **Stale colour in `display`.** The cascade in `display` keeps its colour variable from one
  cross-link to the next, and the draw test after it runs whatever the cascade did. If no
  branch fired, the previous link's colour would be used. In `XlinkViewer.Viewer.DrawXlinks`
  the no-branch arm keeps the old colour too. The loop's proof relies on `XlinkViewer.Cascade`
  never returning that outcome, and `XlinkViewer.ExactlyOneBranch` shows that exactly one
  branch always fires, so the stale value is never used.
- **White fallback in `draw_xlink.py`.** An RGB literal whose values parse but are not a
  valid triple gives white, although the comment next to it says blue.
- **Partial reads.** The reader appends records to its own lists as it goes. A failed read
  therefore leaves the records of the lines before the bad line in the reader object, while
  returning `None`.
- **Stale distances.** `calculate_distances` only overwrites a distance when both residues
  are found. A link that was measured before and whose residue has since gone missing keeps
  its old distance. `XlinkViewer.Measure` states this. `XlinkViewer.AbsentLinksNeverDrawn`
  covers the freshly read case, where the distance is still 0.0.

## Model

| member | source | states |
|---|---|---|
| Text.RStrip | source_code/BJwalk_file_reader/BJwalk_file_reader.py:58 | the result is a prefix of the line, does not end in white space, and only white space was removed |
| Text.RStripAppendSpace | source_code/BJwalk_file_reader/BJwalk_file_reader.py:58 | appending white space to a line does not change the stripped line |
| Text.RStripEmptyIff | source_code/BJwalk_file_reader/BJwalk_file_reader.py:58-60 | a line strips to nothing exactly when it is all white space, so those lines are the ones skipped |
| Text.Split | source_code/BJwalk_file_reader/BJwalk_file_reader.py:61 | there is one more field than there are separators, no field contains the separator, and joining the fields gives the line back |
| Text.SplitOfJoin | source_code/BJwalk_file_reader/BJwalk_file_reader.py:61 | splitting fields that were joined with a separator they do not contain gives the same fields back |
| ObsXlink.Fresh | source_code/Obs_xlink/Obs_xlink.py:28-49 | the constructor's defaults: every string empty, distance 0.0, both residues taken to be present (definition) |
| ObsXlink.Eq | source_code/Obs_xlink/Obs_xlink.py:52-59 | the overloaded equality: the two residue ids and the two chains, pairwise and in order (definition) |
| ObsXlink.EqIsEquivalence | source_code/Obs_xlink/Obs_xlink.py:52-59 | cross-link equality is reflexive, symmetric and transitive |
| ObsXlink.EqIgnoresOtherFields | source_code/Obs_xlink/Obs_xlink.py:56 | equality ignores the distance, object name, presence flags and residue names |
| ObsXlink.EqOrientationSensitive | source_code/Obs_xlink/Obs_xlink.py:56 | a link equals its reversal exactly when both ends name the same residue of the same chain |
| ObsMono.Fresh | source_code/Obs_mono/Obs_mono.py:28-36 | the constructor's defaults: every string empty (definition) |
| ObsMono.Eq | source_code/Obs_mono/Obs_mono.py:39-46 | the overloaded equality: residue id and chain (definition) |
| ObsMono.EqIsEquivalence | source_code/Obs_mono/Obs_mono.py:39-46 | mono-link equality is reflexive, symmetric and transitive |
| ObsMono.EqIgnoresOtherFields | source_code/Obs_mono/Obs_mono.py:43 | equality ignores the object name, `res` and `resname` |
| JwalkReader.ParsedMono | source_code/BJwalk_file_reader/BJwalk_file_reader.py:66-70 | a fresh mono-link with the first two fields and the name `chain_resid` (definition) |
| JwalkReader.ParsedXlink | source_code/BJwalk_file_reader/BJwalk_file_reader.py:72-79 | a fresh cross-link with the first four fields and the name `chain1_resid1-chain2_resid2` (definition) |
| JwalkReader.Classify | source_code/BJwalk_file_reader/BJwalk_file_reader.py:58-81 | what one line is: blank after `rstrip()`, a mono-link (3 fields), a cross-link (5 fields) or malformed (definition) |
| JwalkReader.Scan | source_code/BJwalk_file_reader/BJwalk_file_reader.py:55-85 | the loop over the lines in order: records appended, and nothing more after a malformed line (definition) |
| JwalkReader.Parse | source_code/BJwalk_file_reader/BJwalk_file_reader.py:55-85 | what a read of a fresh reader returns: both lists, or `None` when a line is malformed (definition) |
| JwalkReader.Reader.constructor | source_code/BJwalk_file_reader/BJwalk_file_reader.py:43-49 | keeps the file name; both lists start empty |
| JwalkReader.Reader.Read | source_code/BJwalk_file_reader/BJwalk_file_reader.py:51-85 | appends each non-blank line's record to its list; returns both lists, or `None` if a line is malformed |
| JwalkReader.ScanAppend | source_code/BJwalk_file_reader/BJwalk_file_reader.py:55-85 | reading a concatenation reads the parts in turn and stops at the first failure, so records keep file order |
| JwalkReader.ScanStopsAtMalformed | source_code/BJwalk_file_reader/BJwalk_file_reader.py:80-81 | the first malformed line ends the read with the records before it, whatever follows |
| JwalkReader.ParseFailsIffMalformed | source_code/BJwalk_file_reader/BJwalk_file_reader.py:64-81 | a read fails exactly when some line is malformed |
| JwalkReader.MalformedIff | source_code/BJwalk_file_reader/BJwalk_file_reader.py:60-81 | a line is malformed exactly when it is not blank and has neither 2 nor 4 separators |
| JwalkReader.ParseCountsNonBlankLines | source_code/BJwalk_file_reader/BJwalk_file_reader.py:55-85 | on success, cross-links plus mono-links equal the number of non-blank lines |
| JwalkReader.BlankLineIgnored | source_code/BJwalk_file_reader/BJwalk_file_reader.py:58-60 | inserting a white-space-only line anywhere does not change the result |
| JwalkReader.MonoLine | source_code/BJwalk_file_reader/BJwalk_file_reader.py:58-70 | `resid\|chain\|last` plus trailing white space, for any third field `last` without `\|` that does not end in white space, gives one mono-link with the first two fields kept verbatim and object name `chain_resid`; the third field is ignored |
| JwalkReader.XlinkLine | source_code/BJwalk_file_reader/BJwalk_file_reader.py:58-79 | `resid1\|chain1\|resid2\|chain2\|last` plus trailing white space, for any fifth field `last` without `\|` that does not end in white space, gives one cross-link from the first four fields, named `chain1_resid1-chain2_resid2`; the fifth field is ignored |
| JwalkReader.ExtraFieldFails | source_code/BJwalk_file_reader/BJwalk_file_reader.py:60-81 | a non-blank line with any number of fields other than 3 or 5 makes the whole read fail, wherever it stands: one field (no `\|` at all, such as the comma-delimited `10,A,20,B,`), two, four, six or more |
| JwalkReader.MalformedLineFails | source_code/BJwalk_file_reader/BJwalk_file_reader.py:80-81 | one malformed line anywhere in the file makes the read return `None` |
| JwalkReader.ParsedRecordsAreFresh | source_code/Obs_xlink/Obs_xlink.py:28-49 | every record read keeps its constructor defaults: distance 0.0, both presence flags true, other strings empty |
| JwalkReader.ParseKeepsDuplicates | source_code/BJwalk_file_reader/BJwalk_file_reader.py:64-79 | there is no deduplication: a file repeated twice gives every record twice |
| JwalkReader.ParseOfWritten | source_code/BJwalk_file_reader/BJwalk_file_reader.py:55-85 | writing records in the file format and reading them back gives the same records (round trip) |
| JwalkReader.TwoLineFile | source_code/BJwalk_file_reader/BJwalk_file_reader.py:55-85 | a cross-link line followed by a mono-link line gives one record of each kind |
| XlinkViewer.Shown | source_code/BXlink_viewer/BXlink_viewer.py:313-370 | a link passes the check boxes: satisfied links shown when distance <= threshold, violated ones otherwise, and its orientation (inter- or intra-chain) shown (definition) |
| XlinkViewer.Guard | source_code/BXlink_viewer/BXlink_viewer.py:313-370 | the sixteen branch conditions of the cascade, one per combination of the four toggles, in source order (definition) |
| XlinkViewer.Drawn | source_code/BXlink_viewer/BXlink_viewer.py:309-373 | a link is drawn: non-zero distance and it passes the check boxes (definition) |
| XlinkViewer.XlinkCylinder | source_code/BXlink_viewer/BXlink_viewer.py:196-233 | the cylinder `draw_xlink` loads: the link's name, the two atom selections, the radius, and the satisfied or violated colour at both ends (definition) |
| XlinkViewer.MonoSphere | source_code/BXlink_viewer/BXlink_viewer.py:238-254 | the sphere `draw_mono` loads: the mono-link's name, its atom selection, the mono-link colour and size (definition) |
| XlinkViewer.XlinkEvents | source_code/BXlink_viewer/BXlink_viewer.py:307-373 | the cylinders of the drawn links, in list order (definition) |
| XlinkViewer.Spheres | source_code/BXlink_viewer/BXlink_viewer.py:379-380 | one sphere per mono-link, in list order (definition) |
| XlinkViewer.MonoEvents | source_code/BXlink_viewer/BXlink_viewer.py:377-380 | the spheres when mono-links are shown, none otherwise (definition) |
| XlinkViewer.DisplayEvents | source_code/BXlink_viewer/BXlink_viewer.py:296-383 | one run of `display`: cylinders, spheres, then the entry view restored (definition) |
| XlinkViewer.XlinkDeletes | source_code/BXlink_viewer/BXlink_viewer.py:405-406 | one deletion per cross-link name, in list order (definition) |
| XlinkViewer.MonoDeletes | source_code/BXlink_viewer/BXlink_viewer.py:408-409 | one deletion per mono-link name, in list order (definition) |
| XlinkViewer.DeleteEvents | source_code/BXlink_viewer/BXlink_viewer.py:400-409 | one run of `delete_objects` (definition) |
| XlinkViewer.Cascade | source_code/BXlink_viewer/BXlink_viewer.py:313-370 | the sixteen-branch cascade always fires a branch; it colours a link exactly when the link passes the check boxes, with the satisfied colour exactly when distance <= threshold |
| XlinkViewer.ExactlyOneBranch | source_code/BXlink_viewer/BXlink_viewer.py:313-370 | exactly one of the sixteen branch conditions holds for any link and check boxes |
| XlinkViewer.Measure | source_code/BXlink_viewer/BXlink_viewer.py:266-291 | a presence flag drops to false when its selection matches no atom, and never goes back to true; the distance is replaced only when both selections match; nothing else changes |
| XlinkViewer.MeasureAll | source_code/BXlink_viewer/BXlink_viewer.py:266-291 | the list keeps its length and order; every link stays equal (`__eq__`) to the one it replaces and keeps its object name, and no presence flag goes from false to true |
| XlinkViewer.MeasureKeepsDeletes | source_code/BXlink_viewer/BXlink_viewer.py:266-291 | measuring never changes what `delete_objects` deletes: the cross-link deletions after `calculate_distances` are those before it |
| XlinkViewer.MeasureFresh | source_code/BXlink_viewer/BXlink_viewer.py:274-291 | for a freshly read link, a flag is false exactly when its selection matches no atom, and the distance is the host's exactly when both match (0.0 otherwise) |
| XlinkViewer.Viewer.constructor | source_code/BXlink_viewer/BXlink_viewer.py:38-78 | the viewer's defaults: empty lists, threshold 0.0, radius 0.5, atom type `ca`, blue, red and yellow colours, four toggles on, mono-links off, counts 0 |
| XlinkViewer.Viewer.SetXlinkFile | source_code/BXlink_viewer/BXlink_viewer.py:85-86 | sets the file name and nothing else |
| XlinkViewer.Viewer.SetXlinkFileType | source_code/BXlink_viewer/BXlink_viewer.py:88-89 | sets the file type and nothing else |
| XlinkViewer.Viewer.SetObj | source_code/BXlink_viewer/BXlink_viewer.py:91-92 | sets the object and nothing else |
| XlinkViewer.Viewer.SetShowSatisfied | source_code/BXlink_viewer/BXlink_viewer.py:95-96 | sets its toggle and nothing else |
| XlinkViewer.Viewer.SetShowViolated | source_code/BXlink_viewer/BXlink_viewer.py:98-99 | sets its toggle and nothing else |
| XlinkViewer.Viewer.SetShowInter | source_code/BXlink_viewer/BXlink_viewer.py:101-102 | sets its toggle and nothing else |
| XlinkViewer.Viewer.SetShowIntra | source_code/BXlink_viewer/BXlink_viewer.py:104-105 | sets its toggle and nothing else |
| XlinkViewer.Viewer.SetShowMono | source_code/BXlink_viewer/BXlink_viewer.py:107-108 | sets its toggle and nothing else |
| XlinkViewer.Viewer.SetSatisfiedColour | source_code/BXlink_viewer/BXlink_viewer.py:111-112 | sets its colour and nothing else |
| XlinkViewer.Viewer.SetViolatedColour | source_code/BXlink_viewer/BXlink_viewer.py:114-115 | sets its colour and nothing else |
| XlinkViewer.Viewer.SetMonoColour | source_code/BXlink_viewer/BXlink_viewer.py:117-118 | sets its colour and nothing else |
| XlinkViewer.Viewer.SetThreshold | source_code/BXlink_viewer/BXlink_viewer.py:121-122 | sets the threshold and nothing else |
| XlinkViewer.Viewer.SetRadius | source_code/BXlink_viewer/BXlink_viewer.py:124-125 | sets the radius and nothing else |
| XlinkViewer.Viewer.SetMonoSize | source_code/BXlink_viewer/BXlink_viewer.py:127-128 | sets the sphere size and nothing else |
| XlinkViewer.Viewer.SetNumSat | source_code/BXlink_viewer/BXlink_viewer.py:132-133 | sets the satisfied count and nothing else |
| XlinkViewer.Viewer.SetNumViol | source_code/BXlink_viewer/BXlink_viewer.py:135-136 | stores into a new attribute named after the method and leaves the violated count alone; once that attribute exists, a second call raises |
| XlinkViewer.Viewer.SetNumViolIntended | source_code/BXlink_viewer/BXlink_viewer.py:135-136 | the intended setter: sets the violated count and nothing else |
| XlinkViewer.NumViolSetterLosesCount | source_code/BXlink_viewer/BXlink_viewer.py:135-136 | on a fresh viewer, `set_num_viol(5)` leaves the violated count at 0 |
| XlinkViewer.NumViolSetterIntendedKeepsCount | source_code/BXlink_viewer/BXlink_viewer.py:135-136 | with the intended setter, the violated count becomes 5 |
| XlinkViewer.Viewer.ParseXlinkFile | source_code/BXlink_viewer/BXlink_viewer.py:141-149 | for type `jwalk`, both lists are replaced by what the reader returns, or left alone (failure) when the reader returns `None`; any other type changes nothing |
| XlinkViewer.Viewer.CalculateDistances | source_code/BXlink_viewer/BXlink_viewer.py:260-291 | every link is replaced by its measurement, in place and in order |
| XlinkViewer.Viewer.DrawXlink | source_code/BXlink_viewer/BXlink_viewer.py:196-233 | loads one cylinder under the link's name, between the chosen atom of each residue, in the satisfied or violated colour at both ends |
| XlinkViewer.Viewer.DrawMono | source_code/BXlink_viewer/BXlink_viewer.py:238-254 | loads one sphere under the mono-link's name, in the mono-link colour and size |
| XlinkViewer.Viewer.Display | source_code/BXlink_viewer/BXlink_viewer.py:296-383 | appends the cylinders of the drawn cross-links, then the mono-link spheres if shown, then restores the view found on entry |
| XlinkViewer.Viewer.DrawXlinks | source_code/BXlink_viewer/BXlink_viewer.py:305-373 | the cross-link loop: skips links with distance 0 and draws exactly the links the cascade colours, in list order |
| XlinkViewer.Viewer.DrawMonos | source_code/BXlink_viewer/BXlink_viewer.py:377-380 | the mono-link loop: one sphere per mono-link, in list order |
| XlinkViewer.Viewer.DeleteObjects | source_code/BXlink_viewer/BXlink_viewer.py:400-409 | deletes every cross-link object, then every mono-link object; changes neither list |
| XlinkViewer.Viewer.Update | source_code/BXlink_viewer/BXlink_viewer.py:388-396 | all deletions first, then a full display |
| XlinkViewer.XlinkEventsAppend | source_code/BXlink_viewer/BXlink_viewer.py:307 | drawing a concatenation draws the parts in turn, so cylinders keep list order |
| XlinkViewer.XlinkEventsOfOne | source_code/BXlink_viewer/BXlink_viewer.py:309-373 | a link gives one cylinder when its distance is non-zero and it passes the check boxes, and none otherwise; ties with the threshold are satisfied |
| XlinkViewer.NumDrawn | source_code/BXlink_viewer/BXlink_viewer.py:307-373 | (definition) the number of cross-links `display` draws: those with non-zero distance that pass the check boxes |
| XlinkViewer.XlinkEventsAreDrawnLinks | source_code/BXlink_viewer/BXlink_viewer.py:307-373 | one cylinder per drawn link: there are as many cylinders as links with non-zero distance that pass the check boxes (`NumDrawn`), no more than there are links, and every cylinder is the cylinder of such a link in its satisfied or violated colour, so a link with distance 0 is never drawn |
| XlinkViewer.SpheresInOrder | source_code/BXlink_viewer/BXlink_viewer.py:379-380 | one sphere per mono-link, in list order |
| XlinkViewer.DisplayLayout | source_code/BXlink_viewer/BXlink_viewer.py:303-383 | the cylinders come first, then one sphere per mono-link exactly when mono-links are shown (whatever the other toggles), and the last event restores the entry view |
| XlinkViewer.DeletesInOrder | source_code/BXlink_viewer/BXlink_viewer.py:400-409 | one deletion per cross-link, then one per mono-link, in list order |
| XlinkViewer.XlinkDeletesInOrder | source_code/BXlink_viewer/BXlink_viewer.py:405-406 | one deletion per cross-link, in list order |
| XlinkViewer.MonoDeletesInOrder | source_code/BXlink_viewer/BXlink_viewer.py:408-409 | one deletion per mono-link, in list order |
| XlinkViewer.UpdateDeletesWhatItRedraws | source_code/BXlink_viewer/BXlink_viewer.py:388-396 | every object that `update` draws was deleted earlier in the same update |
| XlinkViewer.AbsentLinksNeverDrawn | source_code/BXlink_viewer/BXlink_viewer.py:274-309 | after a file is read and measured, a link with a missing residue still has distance 0.0 and is never drawn, whatever the check boxes |
| XlinkDialog.Present | source_code/__init__.py:335-339 | both residues were found in the structure (definition) |
| XlinkDialog.NumSat | source_code/__init__.py:335-336 | the number of present links with distance <= threshold (definition) |
| XlinkDialog.NumViol | source_code/__init__.py:338-339 | the number of present links with distance > threshold (definition) |
| XlinkDialog.ChangeNumSatViol | source_code/__init__.py:329-339 | counts the present links with distance <= threshold (satisfied) and the present links with distance > threshold (violated) |
| XlinkDialog.CountsPartitionPresent | source_code/__init__.py:335-339 | satisfied plus violated equals the number of links with both residues present |
| XlinkDialog.CountsMonotone | source_code/__init__.py:335-339 | raising the threshold never lowers the satisfied count and never raises the violated count |
| XlinkDialog.CountsAppend | source_code/__init__.py:332-339 | the counts add up over a concatenation of link lists |
| XlinkDialog.PopulateXlinkTable | source_code/__init__.py:143-171 | the append/pop loop gives exactly the rows of the links that pass the check boxes, in order, followed by the mono-link rows |
| XlinkDialog.XlinkRow | source_code/__init__.py:147-148 | the five cells of a cross-link's row, the distance formatted (definition) |
| XlinkDialog.MonoRow | source_code/__init__.py:170 | the cells `chain, resid, -, -, -` of a mono-link's row (definition) |
| XlinkDialog.XlinkRows | source_code/__init__.py:145-164 | the rows of the links that pass the check boxes, in list order (definition) |
| XlinkDialog.MonoRows | source_code/__init__.py:168-171 | the mono-link rows when mono-links are shown (definition) |
| XlinkDialog.XlinkRowsOfOne | source_code/__init__.py:150-164 | each cross-link gives at most one row, and exactly one when it passes the check boxes, so a pop only removes the row just appended |
| XlinkDialog.XlinkRowsAppend | source_code/__init__.py:145 | the rows of a concatenation are the rows of the parts in turn, so rows keep list order |
| XlinkDialog.XlinkRowsAreShownLinks | source_code/__init__.py:145-164 | the cross-link rows are exactly those of the links that pass the check boxes |
| XlinkDialog.MonoRowsInOrder | source_code/__init__.py:168-171 | one `[chain, resid, -, -, -]` row per mono-link, in order, exactly when mono-links are shown |
| XlinkDialog.TableListsAbsentLinks | source_code/__init__.py:151-164 | a link with a missing residue (distance 0.0) is listed as satisfied whenever the threshold is not negative and its orientation and satisfied links are shown, although it is never drawn |
| CustomXlink.ColourNamesAreWords | draw_xlink.py:33-51 | no colour name starts with `[`, so an RGB literal is never read as a name |
| CustomXlink.NamedColoursInUnitCube | draw_xlink.py:33-51 | every named colour lies in the unit cube |
| CustomXlink.Inner | draw_xlink.py:83 | the slice `[1:-1]` (definition) |
| CustomXlink.InnerOfBracketed | draw_xlink.py:83 | the slice `[1:-1]` of `[` + text + `]` is the text, so a literal's brackets are all it removes |
| CustomXlink.ParseAll | draw_xlink.py:83 | the parse succeeds exactly when every piece parses, and the values are the pieces' values in order |
| CustomXlink.CustomColour | draw_xlink.py:77-94 | a known name gives its colour; otherwise a valid triple gives its values, a parsed but invalid one gives white, and a parse failure gives blue; the result always lies in the unit cube |
| CustomXlink.NamedColourIgnoresParser | draw_xlink.py:78-80 | a known name gives its colour whatever `float` does |
| CustomXlink.RgbLiteralRoundTrip | draw_xlink.py:82-86 | a colour of the unit cube written as `[r,g,b]` and read back gives the same colour |
| CustomXlink.InvalidTripleIsWhite | draw_xlink.py:87-90 | values that parse but are not three values in [0,1] give white |
| CustomXlink.UnparsableIsBlue | draw_xlink.py:91-94 | a piece that `float` rejects gives blue |
| CustomXlink.CustomObjName | draw_xlink.py:98 | the name is the first residue's chain and id, `_`, the second residue's, then `_custom` |
| CustomXlink.CustomCylinder | draw_xlink.py:62-99 | whatever the colour string, the cylinder has the same colour at both ends and that colour lies in the unit cube |
| Pymol.Selection | source_code/BXlink_viewer/BXlink_viewer.py:203-204 | the selection string `obj O and chain C and resi R and name A` (definition) |
| Pymol.Host.constructor | source_code/BXlink_viewer/BXlink_viewer.py:274-291 | the oracle's atom counts and distances are fixed for the session; the log starts empty |
| Pymol.Host.LoadCgo | source_code/BXlink_viewer/BXlink_viewer.py:233 | `load_cgo` appends one drawn object to the log |
| Pymol.Host.Delete | source_code/BXlink_viewer/BXlink_viewer.py:406 | `delete` appends one deletion to the log |
| Pymol.Host.GetView | source_code/BXlink_viewer/BXlink_viewer.py:303 | `get_view` returns the current view |
| Pymol.Host.SetView | source_code/BXlink_viewer/BXlink_viewer.py:383 | `set_view` sets the view and logs it |

## Left out

- File I/O: a read is given the file's lines. The binary-mode `open` is not modelled, nor the
  bytes-versus-str `split('|')` that would raise under Python 3.
- The exception raised when `parse_xlink_file` unpacks a `None` read is modelled as a
  failure result (`ok` false) that leaves both lists unchanged.
- `get_dist`: its floating-point sums over atom coordinates, its `sqrt` and its catch-all
  that returns 0.0 are left out. The distance is the host's `distance` for the two
  selections. NaN and infinities are not modelled.
- Host calls: `count_atoms`, `get_model`, `load_cgo`, `delete`, `get_view` and `set_view` are
  the `Pymol.Host` oracle.
  - Coordinates are not extracted.
  - The `model.atom[0]` crash when a residue is missing at draw time is not modelled.
  - The CGO lists are events that name their selections instead of coordinates.
- The warning messages printed by `calculate_distances` and `draw_xlink`, the `output`
  debug methods, and `output_obs_links`.
- `test_monos_in_obj` is called but not defined in `BXlink_viewer.py`. It is not part of this
  model.
- The Qt dialog: widgets, signals, file dialogs, the text written into the count boxes, and
  the table cells. Only the count values and the row lists are modelled. CSV export is
  left out too, since it is file I/O over formatted floats.
- Colours are triples. The truthiness test `if colour:` in `display` is a test of whether a
  colour was chosen. The case of a colour list set to the empty list is not modelled.
- The distance formatting `'{0:3.1f}'` and Python's `float` are opaque function parameters.
  Number formatting itself is not modelled.
- Aliasing of link objects is not modelled. The Python lists hold references that
  `calculate_distances` mutates; here links are values replaced in the list.
- The `radius` argument of `draw_xlink.py` is taken as a real. Its `float(radius)` conversion
  is not modelled.

## Findings

| source | as written | input that shows it | evidently intended | confidence | as-written member | corrected member |
|---|---|---|---|---|---|---|
| source_code/BXlink_viewer/BXlink_viewer.py:135-136 | `set_num_viol` assigns `num` to an attribute named `set_num_viol`, not to `mum_viol`; the method is then shadowed and a second call raises | a fresh viewer, then `set_num_viol(5)`: the violated count stays 0 | set the violated count to `num` | high; not executed | XlinkViewer.NumViolSetterLosesCount | XlinkViewer.NumViolSetterIntendedKeepsCount |
