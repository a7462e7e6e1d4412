# BlueLabel, modelled in Dafny

BlueLabel sorts the files of a folder by label. A labelling project
(`LabelerSetting`) names an input folder, optional extension filters, and an
automation mode. It also says whether files go into one subfolder per label
or are renamed from a template (`%label%`, `%id%`, `%name%`) and whether they
are copied or moved. The application then works in four steps:

1. `Tools.Automation` loads the files (`LabelerSetting.GetFiles`).
2. Depending on the mode, it either hands the files to the manual labelling
   screen (`PreviewMain`) or labels them itself:
   - by extension;
   - by file category;
   - by file size, image size or duration.

   Each automatically labelled file gets its destination from
   `LabelFile.TargetFile`. Any failure sends the user to the error screen.
3. On the manual screen the user toggles label buttons on each file and moves
   between files. Finishing computes every destination.
4. The confirmation screen (`ConfirmScreen`) lets the user edit destinations,
   then copies or moves every file and collects one error line per failure.

The application settings (`Settings`) hold:

- the theme;
- the accent colour;
- blur;
- a "last opened" list.

They are read from and written to an XML document. Both sides resolve the
same file, and the list is sorted most recent first. `Tools` also provides
the 32-bit add/subtract guards behind the accent colour shades, and `ToXML`
escaping.

## Files

The project has these modules:

- `wrappers.dfy`: `Option`.
- `strings.dfy`: the .NET string operations the code relies on:
  - `ToLowerInvariant`;
  - `IsNullOrWhiteSpace`;
  - ordinal `Replace`;
  - integer formatting;
  - `int`/`uint.TryParse`.
- `paths.dfy`: `Path.GetFileName`, `GetFileNameWithoutExtension` and
  `Combine`, with Unix semantics.
- `label_system.dfy`: `Label`, `LabelFile`, `LabelerSetting`, the
  file-type table and the target-path rules.
- `tools.dfy`: the arithmetic and colour helpers, XML escaping, and the
  `Automation` job.
- `preview_main.dfy`: the manual labelling screen.
- `confirm_screen.dfy`: the confirmation screen and the copy/move batch.
- `settings.dfy`: loading and saving the application settings.

The objects the source updates in place are Dafny classes with those fields:

- `Label`, `LabelFile`, `LabelerSetting`, `PreviewMain`, `ConfirmScreen` and
  `Settings`;
- the file list is an `array<LabelFile>`.

Each loop of the source is a method with invariants, proved against a
specification function (`TargetPath`, `ErrorsWhere`, `DedupByName`,
`RunBatch`, `ApplyNodes`, `LoadInto`, `SavedTree`, ...). The properties are
proved about those functions as lemmas.

## Model

| member | source | states |
|---|---|---|
| LabelSystem.Label.constructor | src/BlueLabel/LabelSystem.cs:26-29 | a label carries the name it was created with |
| LabelSystem.FileNameSplits | src/BlueLabel/LabelSystem.cs:181-182 | the name without extension followed by `FileExtension` is exactly the file name of the path |
| LabelSystem.ExtensionShape | src/BlueLabel/LabelSystem.cs:181-182 | `FileExtension` is empty or starts with the last '.' of the file name, so it holds no other '.' |
| LabelSystem.FileExtensionOf | src/BlueLabel/LabelSystem.cs:181-182 | defines `FileExtension`: the file name with its extension-less prefix removed |
| LabelSystem.MultiDotEntriesNeverMatch | src/BlueLabel/LabelSystem.cs:56-168 | the table entries ".tar.gz", ".axaml.cs" and ".xaml.cs" can never equal a lower-cased extension, so those cases are dead |
| LabelSystem.TypeIgnoresCase | src/BlueLabel/LabelSystem.cs:56 | two extensions equal after invariant lower-casing get the same type |
| LabelSystem.ClassifyFails | src/BlueLabel/LabelSystem.cs:56-168 | the category lookup returns `Unsupported` iff no category lists the extension |
| LabelSystem.Classify | src/BlueLabel/LabelSystem.cs:56-168 | defines the category lookup: the first category whose list holds the extension, else `Unsupported` |
| LabelSystem.TypeOfExtension | src/BlueLabel/LabelSystem.cs:56-168 | defines `Type`: the lookup of the lower-cased extension in the six lists of the `switch` |
| LabelSystem.UnsupportedIffUnlisted | src/BlueLabel/LabelSystem.cs:56-168 | a file is `Unsupported` iff its lower-cased extension is in none of the five lists |
| LabelSystem.LabelFile.constructor | src/BlueLabel/LabelSystem.cs:385-391 | a new file has the given path and index, no labels, no target, and the type of its extension |
| LabelSystem.ConcatNames | src/BlueLabel/LabelSystem.cs:217-221 | the `foreach` concatenation is each label's name followed by the separator, in label order |
| LabelSystem.LabelFile.TargetFile | src/BlueLabel/LabelSystem.cs:212-243 | returns `TargetPath` of the file's labels, path and index; stores it in `FinalTargetFile` unless it throws (subfolder mode without labels), in which case the stored target is unchanged |
| LabelSystem.TargetFailsIffNoLabel | src/BlueLabel/LabelSystem.cs:214-216 | computing the target fails iff the mode is subfolder and the file has no label, with or without recursion |
| LabelSystem.SubfolderBaseIsOutputFolder | src/BlueLabel/LabelSystem.cs:223-224 | in subfolder mode the explicit `SortInInputFolder` choice always equals the `OutputFolder` getter's value |
| LabelSystem.SubfolderFirstLabelOnly | src/BlueLabel/LabelSystem.cs:214-216 | without recursion only the first label decides the target |
| LabelSystem.SubfolderLayout | src/BlueLabel/LabelSystem.cs:214-226 | without recursion, for a non-empty output folder not ending in '/', the target keeps the original file name, sits in a folder named after the first label, and that folder is inside the output folder |
| LabelSystem.SubfolderLayoutAtRoot | src/BlueLabel/LabelSystem.cs:214-226 | without recursion, for an empty output folder (the default setting) or one ending in '/' (the root), the target is the folder followed directly by "label/name", a relative path when the folder is empty |
| LabelSystem.TargetPath | src/BlueLabel/LabelSystem.cs:212-243 | defines the target: subfolder mode needs `Labels[0]` (none for an empty list) and joins all names with `Path.PathSeparator` when recursive; rename mode renames into the output folder |
| LabelSystem.JoinEachPlain | src/BlueLabel/LabelSystem.cs:217-221 | names without directory separators stay free of them when joined with the PATH-list separator |
| LabelSystem.RecursiveSubfolderIsOneSegment | src/BlueLabel/LabelSystem.cs:217-224 | with recursion all label names, each followed by ':', form a single directory segment, not nested folders |
| LabelSystem.RenameLayout | src/BlueLabel/LabelSystem.cs:228-242 | in rename mode the target is the renamed file directly inside the `OutputFolder` getter's value, which is the input folder when sorting in place |
| LabelSystem.RenamedFileName | src/BlueLabel/LabelSystem.cs:228-242 | defines the renamed file: the template's three placeholders replaced, then the extension |
| LabelSystem.TemplateWithoutPlaceholders | src/BlueLabel/LabelSystem.cs:233-239 | a template without placeholders renames every file to the template plus its extension |
| LabelSystem.LabelerSetting.constructor | src/BlueLabel/LabelSystem.cs:261-344 | every property starts at its initialiser value |
| LabelSystem.LabelerSetting.SetOutputFolder | src/BlueLabel/LabelSystem.cs:304-308 | setting the output folder turns sorting in place off, and the getter then returns the new folder |
| LabelSystem.FilterPathsConcat | src/BlueLabel/LabelSystem.cs:365-373 | enumerating by a concatenated filter list gives the results of the parts one after the other, and fails if either part fails |
| LabelSystem.FilterPaths | src/BlueLabel/LabelSystem.cs:365-373 | defines enumeration: the paths each filter finds, concatenated in filter order, or none when any enumeration throws |
| LabelSystem.DuplicateFilterRepeatsPaths | src/BlueLabel/LabelSystem.cs:365-373 | a filter listed twice yields its files twice: paths are not de-duplicated |
| LabelSystem.LabelerSetting.GetFiles | src/BlueLabel/LabelSystem.cs:379-394 | fails iff enumeration throws; otherwise one fresh, distinct file per enumerated path, in order, with ID = position, no labels and no target |
| Tools.Wrap32 | src/BlueLabel/Tools.cs:64-67 | unchecked `int` arithmetic: the result is a 32-bit value congruent to the true one, and equal to it when it fits |
| Tools.AddIfNeeded | src/BlueLabel/Tools.cs:64-67 | defines `AddIfNeeded` with the wrapped 32-bit sum |
| Tools.SubtractIfNeeded | src/BlueLabel/Tools.cs:58-62 | defines `SubtractIfNeeded` with the wrapped 32-bit difference |
| Tools.ToByte | src/BlueLabel/Tools.cs:32-37 | the `(byte)` cast keeps values already in 0..255 |
| Tools.AddIfNeededNeverExceeds | src/BlueLabel/Tools.cs:64-67 | `AddIfNeeded` returns the number unchanged or a value no larger than the limit |
| Tools.AddIfNeededExact | src/BlueLabel/Tools.cs:64-67 | without overflow it adds exactly when the sum stays within the limit |
| Tools.DefaultLimitWraps | src/BlueLabel/Tools.cs:64 | with the default limit `int.MaxValue` an overflowing sum wraps around to a value below the number instead of being refused |
| Tools.SubtractIfNeededDefault | src/BlueLabel/Tools.cs:58-62 | with limit 0 and non-negative operands the difference is taken only when `number > subtract`, and the result stays in 0..number |
| Tools.ShiftChannelExact | src/BlueLabel/Tools.cs:35-37 | a channel is darkened by exactly `value` when larger than it, lightened by exactly `value` when that stays within a byte, and otherwise kept |
| Tools.ShiftBrightness | src/BlueLabel/Tools.cs:27-38 | defines the shade: each channel, and alpha when asked, lightened or darkened by the `(byte)` casts of the two helpers |
| Tools.AccentShadesMoveOneWay | src/BlueLabel/Tools.cs:16-38 | the shades at 20 and 40 keep alpha; a bright colour never gets brighter and a dark one never gets darker, channel by channel |
| Tools.ToXMLAppend | src/BlueLabel/Tools.cs:69-73 | `ToXML` distributes over concatenation |
| Tools.ToXMLChar | src/BlueLabel/Tools.cs:69-73 | on one character the five passes produce exactly that character's entity (or the character itself) |
| Tools.ToXML | src/BlueLabel/Tools.cs:69-73 | defines `ToXML` as the five ordinal `Replace` passes in source order |
| Tools.ToXMLIsEscapeEach | src/BlueLabel/Tools.cs:69-73 | the five chained `Replace` passes equal escaping each character once: inserted ampersands are never escaped again |
| Tools.ToXMLNoMarkup | src/BlueLabel/Tools.cs:69-73 | the output holds no `"`, `'`, `<` or `>` |
| Tools.ToXMLPlainUnchanged | src/BlueLabel/Tools.cs:69-73 | text without the five special characters is returned unchanged |
| Tools.EscapeEachLength | src/BlueLabel/Tools.cs:69-73 | escaping never shortens text, and keeps the length iff no special character occurs |
| Tools.Conclude | src/BlueLabel/Tools.cs:159-178 | the confirmation screen follows iff there is no error; otherwise the error screen shows every error |
| Tools.TruncDiv | src/BlueLabel/Tools.cs:154 | C# `int` division: the floor quotient for a non-negative dividend, truncated toward zero for a negative one |
| Tools.Percent | src/BlueLabel/Tools.cs:154 | `i * 100 / n` in `int` arithmetic: always a 32-bit value, and the exact quotient whenever `i * 100` fits in an `int` |
| Tools.AdvanceProgress | src/BlueLabel/Tools.cs:154 | one update of the bar after the i-th file extends the values shown so far by that file's entry |
| Tools.ProgressEntries | src/BlueLabel/Tools.cs:154 | after the j-th file the bar shows `j * 100 / n` in `int` arithmetic, which is the exact quotient for j up to 21,474,836 |
| Tools.PercentagesBounded | src/BlueLabel/Tools.cs:154 | for at most 21,474,837 files the bar starts at 0, never goes back, and stays below 100 |
| Tools.ProgressWrapsNegative | src/BlueLabel/Tools.cs:154 | with 21,474,838 files the product wraps on the last file and the bar shows -99 |
| Tools.ErrorsWhereEmpty | src/BlueLabel/Tools.cs:147-152 | the error list is empty iff no file fails |
| Tools.ErrorsWhere | src/BlueLabel/Tools.cs:147-152 | defines the error list: one entry per failing file, in file order |
| Tools.ErrorsWhereNext | src/BlueLabel/Tools.cs:147-152 | one more file appends its error exactly when it fails |
| Tools.LabelAndTarget | src/BlueLabel/Tools.cs:335 | the file gets exactly the given labels, and its stored target is `TargetPath` for them (none if that throws) |
| Tools.FindAllNamed | src/BlueLabel/Tools.cs:132-134 | `FindAll` by name returns exactly the pool's labels carrying that name |
| Tools.FindAllNamedSingle | src/BlueLabel/Tools.cs:132-136 | in a pool with distinct names, a present name finds exactly one label |
| Tools.FindAllNamedNone | src/BlueLabel/Tools.cs:132-143 | a name no label carries finds nothing |
| Tools.FindAllNamedGrow | src/BlueLabel/Tools.cs:141 | adding a label changes what a name finds only by that label |
| Tools.ExtensionLabelIsFound | src/BlueLabel/Tools.cs:132-142 | a labelled file carries exactly what `FindAll` finds for its extension name, so files with one extension share one label object |
| Tools.LabelOneByExtension | src/BlueLabel/Tools.cs:132-145 | reuses the pool label named after the extension, or appends a new one; the pool keeps distinct names and only grows |
| Tools.GiveExtensionLabel | src/BlueLabel/Tools.cs:136-145 | the file carries the one pool label and its target for that label |
| Tools.ExtensionLabelledGrow | src/BlueLabel/Tools.cs:141 | a file labelled from a pool stays labelled from any larger pool |
| Tools.ExtensionStep | src/BlueLabel/Tools.cs:127-152 | a file without extension adds one error and is left alone; any other file is labelled |
| Tools.ExtensionAt | src/BlueLabel/Tools.cs:127-152 | one loop step: the i-th file is handled as above, the files before it stay labelled from the grown pool, and no other file changes |
| Tools.LabelByExtension | src/BlueLabel/Tools.cs:121-157 | every file with an extension gets one shared label named after it plus its target; files without one are exactly the errors, in order; progress as above |
| Tools.NewCategoryLabels | src/BlueLabel/Tools.cs:182-187 | the six labels carry the six localized names |
| Tools.LabelByCategory | src/BlueLabel/Tools.cs:180-228 | every file gets the one shared label of its type and its target for it; there are no errors |
| Tools.CategoryAt | src/BlueLabel/Tools.cs:191-216 | one loop step: the i-th file gets its type's label and target, and no other file changes |
| Tools.AtLeastMonotone | src/BlueLabel/Tools.cs:292-295 | the threshold is inclusive and monotone: a larger measurement never gets the smaller label |
| Tools.NewThresholdLabels | src/BlueLabel/Tools.cs:258-260 | the three labels carry the localized names |
| Tools.LabelOneByThreshold | src/BlueLabel/Tools.cs:263-341 | a throwing probe adds nothing and stores no target; otherwise the verdict's label (if any) and its target are stored; failure iff the probe throws or no label exists in subfolder mode |
| Tools.ThresholdStep | src/BlueLabel/Tools.cs:270-333 | defines the measuring step: an unknown label, a verdict from the file length or bitmap size, a throwing probe, or nothing yet for media left to a callback |
| Tools.LabelByThreshold | src/BlueLabel/Tools.cs:254-346 | every file ends in the state its probe decides; the errors are exactly the failing files, in order |
| Tools.ThresholdAt | src/BlueLabel/Tools.cs:263-341 | one loop step: the i-th file reaches the state its probe decides, failure as above, and no other file changes |
| Tools.DurationMediaFailsInSubfolders | src/BlueLabel/Tools.cs:272-290 | in duration mode with subfolders, exactly the audio and video files are reported: the model takes their label's callback, which is not awaited, to run after `TargetFile`, which then throws for want of a label |
| Tools.ThresholdLabelsOnce | src/BlueLabel/Tools.cs:270-335 | a file labelled at once gets exactly one label and never fails |
| Tools.LabelAll | src/BlueLabel/Tools.cs:117-346 | the branch chosen by the mode yields its errors, and every file ends as that branch leaves it (`BranchLabelled`): by extension, one shared pool label with distinct names; by category, its type's label; by measurement, its verdict's label; each with its stored target |
| Tools.LabelLoaded | src/BlueLabel/Tools.cs:117-372 | the labelling, the `NoFilesLoaded` check and the concluding screen for files already loaded |
| Tools.Automation | src/BlueLabel/Tools.cs:75-372 | see below |
| ConfirmScreen.ErrorFor | src/BlueLabel/Views/ConfirmScreen.axaml.cs:126-129 | the error line names the file's original path and is the copy message iff the operation is copy |
| ConfirmScreen.TransferEffect | src/BlueLabel/Views/ConfirmScreen.axaml.cs:112-122 | a successful copy or move puts the source's bytes at the destination; a copy keeps the source; a move to another path removes it; every other file is untouched |
| ConfirmScreen.Transfer | src/BlueLabel/Views/ConfirmScreen.axaml.cs:112-122 | defines one copy or move with overwrite; it fails on an empty or unwritable destination, a missing source, or a copy of a file onto itself |
| ConfirmScreen.Attempt | src/BlueLabel/Views/ConfirmScreen.axaml.cs:107-130 | defines one file's attempt: the transfer to its destination, or else the unchanged disk and one error naming the file |
| ConfirmScreen.RunBatch | src/BlueLabel/Views/ConfirmScreen.axaml.cs:104-134 | defines the batch: the attempts in file order, each on the disk the earlier ones left |
| ConfirmScreen.RunBatchPrefix | src/BlueLabel/Views/ConfirmScreen.axaml.cs:105-134 | one more file is one more attempt on the disk the earlier files left |
| ConfirmScreen.RunBatchErrors | src/BlueLabel/Views/ConfirmScreen.axaml.cs:105-130 | at most one error per file, each naming one of the files with the operation's message |
| ConfirmScreen.RunBatchFrame | src/BlueLabel/Views/ConfirmScreen.axaml.cs:105-122 | a path no file reads or writes is left exactly as it was |
| ConfirmScreen.CopyBatchKeepsFiles | src/BlueLabel/Views/ConfirmScreen.axaml.cs:115-117 | copying never removes a file from disk |
| ConfirmScreen.Conclude | src/BlueLabel/Views/ConfirmScreen.axaml.cs:136-155 | the error screen iff any error, with every error; otherwise close when auto-close is checked, else finished |
| ConfirmScreen.ShownProgressReaches100 | src/BlueLabel/Views/ConfirmScreen.axaml.cs:133-155 | for at most 21,474,837 files the bar stays below 100 per file, and it shows 100 iff everything succeeded and the application stays open |
| ConfirmScreen.ConfirmScreen.constructor | src/BlueLabel/Views/ConfirmScreen.axaml.cs:15-16 | no setting and no files |
| ConfirmScreen.ConfirmScreen.WithListAndSettings | src/BlueLabel/Views/ConfirmScreen.axaml.cs:81-86 | remembers the setting and the files |
| ConfirmScreen.ConfirmScreen.EditTarget | src/BlueLabel/Views/ConfirmScreen.axaml.cs:49 | the text box's text becomes the destination as it is |
| ConfirmScreen.ConfirmScreen.PickTarget | src/BlueLabel/Views/ConfirmScreen.axaml.cs:56-76 | nothing happens without a folder-capable provider or a setting; otherwise a missing destination is computed and stored, and a picked file replaces it, unless computing threw |
| ConfirmScreen.ConfirmScreen.ContinueOne | src/BlueLabel/Views/ConfirmScreen.axaml.cs:107-130 | one file: the stored destination, or a computed one that is then stored; the disk and errors are one `Attempt` |
| ConfirmScreen.ConfirmScreen.ContinueAt | src/BlueLabel/Views/ConfirmScreen.axaml.cs:105-130 | the same for the i-th file, with every other file's work and settled state kept |
| ConfirmScreen.ConfirmScreen.TransferAll | src/BlueLabel/Views/ConfirmScreen.axaml.cs:104-134 | the loop's disk and errors are `RunBatch` over the files' work as it stood at the start; every destination ends up stored |
| ConfirmScreen.ConfirmScreen.Continue | src/BlueLabel/Views/ConfirmScreen.axaml.cs:93-157 | nothing without a setting or files; otherwise the batch as above, the outcome `Conclude(errors, autoClose)`, and the progress bar as shown |
| PreviewMain.FindAllNamedEmpty | src/BlueLabel/Views/PreviewMain.axaml.cs:55 | `FindAll(...).Count <= 0` holds iff no palette label carries the name |
| PreviewMain.DedupNamesDistinct | src/BlueLabel/Views/PreviewMain.axaml.cs:51-56 | the palette holds each name once |
| PreviewMain.DedupSubset | src/BlueLabel/Views/PreviewMain.axaml.cs:51-56 | the palette holds only labels of the files |
| PreviewMain.DedupCovers | src/BlueLabel/Views/PreviewMain.axaml.cs:51-56 | every name on any file has a label in the palette |
| PreviewMain.DedupKeepsFirst | src/BlueLabel/Views/PreviewMain.axaml.cs:51-56 | of the labels sharing a name, the palette keeps the first in file-then-label order |
| PreviewMain.DedupByName | src/BlueLabel/Views/PreviewMain.axaml.cs:51-56 | defines the palette: each label kept unless an earlier kept label has its name |
| PreviewMain.AddToPalette | src/BlueLabel/Views/PreviewMain.axaml.cs:54-56 | the inner loop extends the palette exactly as `DedupByName` of the longer input |
| PreviewMain.BuildPalette | src/BlueLabel/Views/PreviewMain.axaml.cs:51-56 | the nested loops build `DedupByName` of all the files' labels |
| PreviewMain.Unchecked | src/BlueLabel/Views/PreviewMain.axaml.cs:58-63 | one unchecked button per palette label, in order |
| PreviewMain.Mark | src/BlueLabel/Views/PreviewMain.axaml.cs:156-159 | every button is checked exactly when it carries the label |
| PreviewMain.ShownLastLabelWins | src/BlueLabel/Views/PreviewMain.axaml.cs:154-161 | a file with several labels shows only its last label checked |
| PreviewMain.Shown | src/BlueLabel/Views/PreviewMain.axaml.cs:154-161 | defines the buttons after the marking loop: the last label's `Mark`, since each mark overrides the one before; unchanged with no labels |
| PreviewMain.MarkAgain | src/BlueLabel/Views/PreviewMain.axaml.cs:156-159 | marking after another mark is marking once |
| PreviewMain.RemoveFirstContents | src/BlueLabel/Views/PreviewMain.axaml.cs:85 | `List.Remove` drops exactly one occurrence when present and keeps the rest |
| PreviewMain.ToggledLabels | src/BlueLabel/Views/PreviewMain.axaml.cs:79-87 | on a list without duplicates, toggling keeps it duplicate-free, the label is present iff its button is checked, and other labels are untouched |
| PreviewMain.Toggled | src/BlueLabel/Views/PreviewMain.axaml.cs:79-87 | defines the click's list update: add if newly checked and absent, remove the first occurrence if unchecked and present |
| PreviewMain.UncheckOthers | src/BlueLabel/Views/PreviewMain.axaml.cs:92-95 | the clicked button keeps its state and every other button is unchecked |
| PreviewMain.FirstFailure | src/BlueLabel/Views/PreviewMain.axaml.cs:203 | the index of the first file whose target cannot be computed, or the number of files |
| PreviewMain.RenameNeverFails | src/BlueLabel/Views/PreviewMain.axaml.cs:203 | in rename mode finishing always reaches the end |
| PreviewMain.AllSomeReachEnd | src/BlueLabel/Views/PreviewMain.axaml.cs:203 | without a failing target the loop runs to the end |
| PreviewMain.SubfolderStopsAtUnlabelled | src/BlueLabel/Views/PreviewMain.axaml.cs:203 | in subfolder mode finishing stops at or before the first unlabelled file |
| PreviewMain.PreviewMain.constructor | src/BlueLabel/Views/PreviewMain.axaml.cs:13-15 | position 0, no setting, no files, no buttons, every control enabled |
| PreviewMain.PreviewMain.WithListAndSettings | src/BlueLabel/Views/PreviewMain.axaml.cs:28-33 | remembers the setting and the files; nothing else changes |
| PreviewMain.PreviewMain.CheckOnly | src/BlueLabel/Views/PreviewMain.axaml.cs:157-159 | the inner loop marks exactly the buttons carrying the label |
| PreviewMain.PreviewMain.ShowItem | src/BlueLabel/Views/PreviewMain.axaml.cs:100-167 | throws iff the file's length cannot be read (a file gone since loading), leaving buttons and navigation unchanged; otherwise the buttons show the file's labels (last label wins), the panel ends enabled, and previous, next and finish follow the position |
| PreviewMain.PreviewMain.ShowCurrent | src/BlueLabel/Views/PreviewMain.axaml.cs:26 | `ShowItem(CurrentItem)`: throws iff the position is off the files or the file is gone, changing nothing; otherwise the screen is `Valid` and shows the file's labels |
| PreviewMain.PreviewMain.OnLoaded | src/BlueLabel/Views/PreviewMain.axaml.cs:35-66 | no setting: nothing changes; no files: navigation and adding disabled; otherwise the deduplicated palette is appended unchecked and the current file is shown, leaving the screen `Valid`, unless showing it throws |
| PreviewMain.PreviewMain.ShowPalette | src/BlueLabel/Views/PreviewMain.axaml.cs:51-65 | the palette buttons are added; the current file is shown unless the position is off the files or the file is gone, which throws |
| PreviewMain.PreviewMain.AddLabel | src/BlueLabel/Views/PreviewMain.axaml.cs:68-74 | a missing or blank name changes nothing; otherwise one fresh unchecked button with that name is appended, even if the name already exists |
| PreviewMain.PreviewMain.LabelButtonClick | src/BlueLabel/Views/PreviewMain.axaml.cs:76-98 | the button flips; with the panel enabled the shown file's labels are toggled; in subfolder mode without recursion every other button is unchecked while the file keeps its other labels |
| PreviewMain.PreviewMain.SetLabel | src/BlueLabel/Views/PreviewMain.axaml.cs:79-87 | the label list after a click is `Toggled` |
| PreviewMain.PreviewMain.UncheckAllBut | src/BlueLabel/Views/PreviewMain.axaml.cs:92-97 | the loop unchecks every other button |
| PreviewMain.PreviewMain.Previous | src/BlueLabel/Views/PreviewMain.axaml.cs:186-191 | when enabled, moves back one file and then shows it; throws iff that position is off the files or its file is gone, keeping the old buttons and navigation at the moved position; keeps the screen `Valid` when nothing throws |
| PreviewMain.PreviewMain.Next | src/BlueLabel/Views/PreviewMain.axaml.cs:193-198 | when enabled, moves forward one file and then shows it; throws iff that position is off the files or its file is gone, keeping the old buttons and navigation at the moved position; keeps the screen `Valid` when nothing throws |
| PreviewMain.PreviewMain.TargetAt | src/BlueLabel/Views/PreviewMain.axaml.cs:203 | `TargetFile` on one file of the array; every other file's stored target is kept |
| PreviewMain.PreviewMain.TargetAll | src/BlueLabel/Views/PreviewMain.axaml.cs:202-204 | targets are computed in order up to the first failure (`FirstFailure`); exactly the files before it get their target stored; success iff none fails |
| PreviewMain.PreviewMain.FinishLabeling | src/BlueLabel/Views/PreviewMain.axaml.cs:200-205 | nothing without a setting; otherwise as `TargetAll`, and the confirmation screen opens iff every target was computed |
| AppSettings.SettingsItem.FileName | src/BlueLabel/Settings.cs:226 | the file name without extension: a prefix of the path's file name, free of directory separators |
| AppSettings.Resolve | src/BlueLabel/Settings.cs:58-61 | the given file if named, non-blank and existing; otherwise the default settings path |
| AppSettings.FirstDate | src/BlueLabel/Settings.cs:96-98 | the first non-blank "date" attribute, which is never blank |
| AppSettings.DateTextIsFirstNonBlank | src/BlueLabel/Settings.cs:94-98 | the attribute loop yields the first non-blank "date" attribute, or a blank text when there is none |
| AppSettings.ItemOf | src/BlueLabel/Settings.cs:90-102 | a slot is filled iff the node is an "item" element with a non-blank existing path and a parsable date, and then with exactly that path and date |
| AppSettings.ItemsOf | src/BlueLabel/Settings.cs:87-103 | one slot per child node, in order, each `ItemOf` that child |
| AppSettings.ApplyNode | src/BlueLabel/Settings.cs:73-106 | each key changes only its own setting: theme and color when the text parses as int/uint, blur to whether the text is "true", items to the slots; other keys change nothing |
| AppSettings.FirstNamed | src/BlueLabel/Settings.cs:69-73 | the node found is one of the nodes and carries the key |
| AppSettings.KeysFirstNamed | src/BlueLabel/Settings.cs:68-72 | a key is in `applied` iff some earlier node has that name |
| AppSettings.FirstNodeWins | src/BlueLabel/Settings.cs:68-107 | only the first node of each name counts: each setting is what its first node makes of it, and is unchanged without one |
| AppSettings.ApplyNodes | src/BlueLabel/Settings.cs:68-107 | defines the child-node loop: `ApplyNode` on each node whose name was not applied before |
| AppSettings.InsertSorted | src/BlueLabel/Settings.cs:109 | insertion keeps the list most recent first |
| AppSettings.InsertMultiset | src/BlueLabel/Settings.cs:109 | insertion adds exactly the item |
| AppSettings.InsertWithDate | src/BlueLabel/Settings.cs:109 | insertion places the item before every item of its own date |
| AppSettings.SortProperties | src/BlueLabel/Settings.cs:109 | `OrderByDescending` is most recent first, a permutation, and stable for equal dates |
| AppSettings.SortKeepsSorted | src/BlueLabel/Settings.cs:129 | sorting an already sorted list changes nothing |
| AppSettings.SortIdempotent | src/BlueLabel/Settings.cs:129 | sorting twice is sorting once, as `Save` re-sorts what `Load` sorted |
| AppSettings.SortSlots | src/BlueLabel/Settings.cs:109 | fails iff some slot is null (the key selector throws); otherwise all present, descending, a permutation and stable |
| AppSettings.LoadWithoutFile | src/BlueLabel/Settings.cs:58-61 | when neither the given nor the default file exists nothing changes |
| AppSettings.LoadUnparsable | src/BlueLabel/Settings.cs:62-65 | an existing file whose document the parser rejects (empty, declaration-only or malformed, such as a file a failed `Save` truncated) makes loading fail with nothing changed |
| AppSettings.LoadSortsItems | src/BlueLabel/Settings.cs:66-110 | with a document, loading succeeds iff every slot is filled; on success the list is sorted and a permutation of the slots read; on failure the other settings are already applied |
| AppSettings.LoadInto | src/BlueLabel/Settings.cs:56-111 | defines `Load` on values: the resolved file, the early return without it, the failing parse, the node loop and the final sort |
| AppSettings.SavedLayout | src/BlueLabel/Settings.cs:131-145 | the saved lines are the declaration, `<root>`, Theme, Color and Blur, an Items block only for a non-empty list (one escaped line per entry), and `</root>` |
| AppSettings.SaveLoadRoundTrip | src/BlueLabel/Settings.cs:56-147 | loading the tree `Save` writes restores every setting, provided the saved paths still exist, need no escaping and their dates round-trip |
| AppSettings.SavedRead | src/BlueLabel/Settings.cs:69-107 | the nodes of the saved tree read back as the saved values, before the final sort |
| AppSettings.ReadTheme | src/BlueLabel/Settings.cs:75-78 | the written `(int)Theme` text reads back as the theme |
| AppSettings.ReadColor | src/BlueLabel/Settings.cs:79-82 | the written `ToUInt32()` text reads back as the colour |
| AppSettings.ReadBlur | src/BlueLabel/Settings.cs:83-85 | the written blur flag reads back |
| AppSettings.ReadItems | src/BlueLabel/Settings.cs:86-105 | the written Items element reads back as the entries, in order |
| AppSettings.BlurRoundTrip | src/BlueLabel/Settings.cs:83-85 | "true" reads as true and "false" as false |
| AppSettings.ItemsRoundTrip | src/BlueLabel/Settings.cs:86-103 | each written `<Item>` element reads back as its entry |
| AppSettings.ItemRoundTrip | src/BlueLabel/Settings.cs:90-102 | one written entry reads back, given a plain, existing path and a date that round-trips |
| AppSettings.EscapedPathChanges | src/BlueLabel/Settings.cs:140 | a path holding `&`, `"`, `'`, `<` or `>` does not read back as itself |
| AppSettings.Settings.constructor | src/BlueLabel/Settings.cs:29-49 | default theme, accent colour 0xFFBD0082, no entries, blur on |
| AppSettings.Settings.Load | src/BlueLabel/Settings.cs:56-111 | the new settings and the success flag are `LoadInto` of the old settings |
| AppSettings.Settings.ApplyNodeTo | src/BlueLabel/Settings.cs:73-106 | the `switch` updates the settings as `ApplyNode` |
| AppSettings.Settings.LoadItems | src/BlueLabel/Settings.cs:87-103 | the slot array is filled as `ItemsOf` |
| AppSettings.Settings.ReadDate | src/BlueLabel/Settings.cs:94-98 | the attribute loop computes `DateText` |
| AppSettings.Settings.Save | src/BlueLabel/Settings.cs:118-147 | writes to the resolved file; fails iff a slot is null (file left empty, list unsorted); otherwise the list is sorted and the lines are those of the saved tree |
| AppSettings.Settings.WriteItems | src/BlueLabel/Settings.cs:139-140 | one `<Item>` line per entry, in order |
| Strings.ParseInt32 | src/BlueLabel/Settings.cs:76 | `int.TryParse` succeeds only with a 32-bit value |
| Strings.ParseUInt32 | src/BlueLabel/Settings.cs:80 | `uint.TryParse` succeeds only with an unsigned 32-bit value |
| Strings.IntRoundTrip | src/BlueLabel/Settings.cs:133 | the decimal text written for a 32-bit integer parses back to it |
| Strings.UIntRoundTrip | src/BlueLabel/Settings.cs:134 | the decimal text written for an unsigned 32-bit value parses back to it |

The `Tools.Automation` row states, in full:

- if enumeration throws, the only error is `GettingFiles` and the error
  screen follows;
- otherwise the files are the fresh ones for the enumerated paths;
- in manual mode they are passed unlabelled to the preview screen;
- in the other modes the screen is `Conclude` of the branch's errors, plus
  `NoFilesLoaded` for an empty project, and every file ends labelled and
  targeted as the selected branch leaves it (`BranchLabelled`, as for
  `Tools.LabelAll`), with the labels that branch created.

Notes on where the code differs from what its documentation suggests. The
model follows the code in each case.

- **Label identity.** `Label` does not override equality. `Contains` and
  `Remove` in `LabelButtonClick` compare label objects, so two labels with one
  name are different labels there. Only the palette and the extension pool
  compare by name.
- **Rename folder when sorting in place.** In rename mode the destination
  folder is the `OutputFolder` getter's value, so it is the input folder
  whenever sorting in place is set (`LabelSystem.RenameLayout`).
- **Recursive subfolders.** "Recursive subfolders" produces a single folder
  named `a:b:`, joined with `Path.PathSeparator`, not nested folders
  (`LabelSystem.RecursiveSubfolderIsOneSegment`).
- **Duration mode.** The label of an audio or video file is added by a
  callback posted to the UI thread and never awaited, although the comment
  beside it says awaiting was intended. Whether it runs before the worker
  reaches `TargetFile` is a race. The model takes the callback to run after
  `TargetFile`, so in subfolder mode every such file is reported as an error
  (`Tools.DurationMediaFailsInSubfolders`).
- **Save target.** `Save` with a named file that does not exist writes to the
  default path, not to the named file (`AppSettings.Resolve`).
- **Escaped paths.** A saved path containing `&`, `"`, `'`, `<` or `>` is
  escaped on save but read back as raw inner XML. It does not round-trip
  (`AppSettings.EscapedPathChanges`).
- **Empty "last opened" list.** An empty list writes no Items element, so
  loading it keeps whatever list was there before.
- **Null slots.** A slot left null while loading (a missing file, an
  unparsable date) makes the final sort throw. This happens after the other
  settings were already applied. `Save` with a null slot throws after the
  file was truncated, and loading that empty file then fails
  (`AppSettings.LoadUnparsable`).

## Left out

Environment and I/O:

- **File system, Brotli streams and the XML parser.** These are an `Env`
  oracle in the settings model. It supplies:
  - which paths exist;
  - the root element of a file's document, or none where `XmlDocument.Load`
    throws on it (an empty, declaration-only, byte-order-mark-only or
    malformed document); `Load` then fails with nothing changed;
  - the "G" date pattern as parse/format functions.

  A parsed document always has a root element, so the source's return on a
  null `DocumentElement` is never taken and is not modelled; nor is a null
  child node. `DateTime` is an integer tick count and
  `ToUniversalTime` is part of the format oracle.
- **Directory enumeration, `FileInfo.Length` and bitmap decoding.** These
  are oracles (`Probes`) that return `None` where they throw.
- **Copy and move.** They act on a map from path to bytes. Whether a
  destination's directory can be created and written is an oracle (`Disk`).
- **Paths.** They follow Unix `Path` semantics ('/' only). Windows drive and
  UNC paths are not modelled.
- **`string.ToLowerInvariant`.** It lower-cases ASCII letters only.
  Non-ASCII case mapping is not modelled.

Concurrency and UI:

- **Media-library callbacks.** The duration and video-size probes are
  posted to the UI thread without being awaited and add their label later.
  The model assumes they run after the worker has called `TargetFile` for
  that file: it records that nothing is added at the time (`NothingYet`),
  but not the later label, and not the interleavings where the callback
  wins the race.
- **Threading and UI effects.** Not modelled:
  - `Thread.Sleep`;
  - the dispatcher;
  - status titles and "working on" texts;
  - localized message texts (errors are tagged values);
  - preview controls and the file-information text (including
    `SimplifyFileSize`, which formats floating-point sizes).
- **Navigation before loading.** The navigation buttons start enabled before
  `OnLoaded`. `Previous`/`Next` keep the screen `Valid` only when showing the
  new file does not throw; a click that throws (a file gone since loading,
  or a position off the files) is reported as `threw`, with the position
  already moved. What happens to the application after such an unhandled
  exception is not modelled.
- **The browse button's background task.** `PickTarget` takes the picker's
  answer as a parameter. That answer, `picked`, is the `AbsolutePath` of the
  chosen file's `file://` URI, which is percent-encoded (a name with a space
  is stored with "%20"), not the file-system path; the decoding the source
  omits is not modelled. A throwing `TargetFile` ends the task without
  changing the file. The exception is then rethrown by the `await` in the
  `async void` click handler, unhandled, on the UI thread; what that does to
  the application is not modelled.

Simplifications:

- Tools.PercentagesBounded: holds only for at most 21,474,837 files. The bar
  is `i * 100 / n` in `int` arithmetic (`Tools.Percent`). With more files,
  `i * 100` overflows near the end of the loop and the bar shows a negative
  value (`Tools.ProgressWrapsNegative`).
- ConfirmScreen.ShownProgressReaches100: the "below 100 per file" part holds
  only for at most 21,474,837 files, for the same overflow.
- AppSettings.SaveLoadRoundTrip: requires every saved date to survive the
  "G" pattern's format and parse. `Save` writes `ToUniversalTime()` with that
  pattern, which has whole-second resolution, while `LastOpened` normally
  comes from `DateTime.Now` with sub-second ticks. Real entries therefore do
  not meet the requirement: a save/load cycle truncates their dates to the
  second, and the lemma says nothing about such entries.

- **`IsBright`.** It is a floating-point square root of weighted squares,
  so it is a parameter of `ShiftBrightness`.
- **`OriginalFileName` cache.** `OriginalPath` never changes after the
  object initializer, so the memo is unobservable and not modelled. For the
  same reason `Type` is computed once in the constructor instead of on every
  read.

Not modelled at all:

- **`LabelerSetting.Load` and `LabelerSetting.Save`.** Both end in
  `NotImplementedException`.
- **`LabelerSetting.Labels`.** Nothing in the core reads this list.
