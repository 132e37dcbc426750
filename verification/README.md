# runcards core in Dafny

This project models two parts of the NNPDF `runcards` repository and proves properties of them.

The first part is the Python driver that builds a MadGraph5_aMC@NLO run from a runcard:
- `run_mc` renders the output and launch cards.
- It applies the runcard's patches and installs the analysis.
- It scans the launch card for `#user_defined_cut`, `#user_defined_tau_min` and `#enable_patch` directives.
- It injects the requested cuts into `cuts.f`.
- The driver also reads the metadata file, the `set lhaid` line, the `pineappl convolute` table and the `MADatNLO.HwU` histogram.
- The Python side also includes the command-line entry point `run.py`, the dataset classifier `info.py`, and the standalone script `run_implement_user_defined_cuts.py`.

The second part is the C++ core of the photon-enabled APPLgrid interpolation grid:
- the `igrid` helpers: sign and factorial tables, order reduction, the transform registry, the setup vector written to and read from file, node clamps, `optimise` and `shrink`;
- the PDF registry and CKM tables of `appl_pdf`;
- the sparse three-dimensional weight store `SparseMatrix3d`;
- the `applcheck` driver.

## Modules

Python-side modules:
- `Common`: `Option`, `Result` and sequence reversal.
- `Text`: the Python string and list operations the scripts rely on:
  - `str.replace`, modelled as split-and-join;
  - `splitlines`;
  - `list.insert`, which clamps a position past the end.
- `FloatSyntax`: the strings Python's `float()` accepts.
- `Paths`: `pathlib` name, suffix and `with_suffix`.
- `Render`: placeholder substitution in the cards.
- `Directives`: the three launch-card directive grammars.
- `Injector`: `find_marker_position` and `apply_user_cuts`.
- `Mg5Run`: `run_mc` as a trace of file writes, patch applications and MadGraph runs, ending in an outcome. A patch application records the diff, the `patch` command line with the folder it starts in, and the exit status.
- `Mg5Results`: metadata entries, the PDF id, the convolute table slice and the HwU results table.
- `StandaloneCuts`: the standalone injection script.
- `Runner`: the `run.py` entry point.
- `Info`: the `info.py` classifier.

C++-side modules:
- `IGrid`
- `ApplPdf`
- `SparseMatrix`
- `ApplCheck`

Everything the programs read from disk or from a subprocess is a parameter:
- file contents;
- directory listings;
- the existence of a file;
- a patch's exit status;
- a PDF's values.

Four of the scripts' behaviours are modelled as written because the code does them:
- **Patch exit status.** `run_mc` never looks at the exit status of `patch` (run/external/mg5.py:38-40, 109-111, 129-133). `Mg5Run.PatchStatusIgnored` proves the run's outcome is the same for every status.
- **Enable-patch scan.** The scan for `#enable_patch` lines matches the `#user_defined_tau_min` pattern (run/external/mg5.py:117). So the list it builds is the list of tau-min arguments, and `#enable_patch` lines are never acted upon. `Directives.EnablePatchList` is defined as the tau-min argument list, and `Directives.EnablePatchLineIgnored` and `Directives.EnablePatchLinesDoNotCount` prove that `#enable_patch` lines never contribute to it.
- **Quoted patch folder.** The runcard patches run `patch -p1` started in the MadGraph folder (run/external/mg5.py:37-40). The tau-min and enable patches instead run `f"patch -p1 -d '{mg5_dir}'".split()` (run/external/mg5.py:109-111, 129-133). No shell is involved, so the single quotes stay part of the folder name `-d` receives. `Mg5Run.QuotedPatchCommand` keeps this command, and `Mg5Run.QuotedPatchMissesMg5Dir` proves it names a folder other than the MadGraph folder. The Findings section gives the corrected command.
- **Marker error message.** `find_marker_position` raises a plain string literal with its braces left in (run/external/mg5.py:151-153). So the message names neither the marker nor the file, and it is the same for both markers. `Injector.FindMarker` fails with `MarkerNotFound`, an error that carries nothing about the search. Its message is the literal, `Injector.MarkerMessage`, which is the intended message with the placeholder names standing where the marker and the path were meant to go.

## Model

| member | source | states |
|---|---|---|
| Common.Reverse | run/external/mg5.py:177 | `reversed` yields the elements last to first, one for one |
| Common.ReverseAppend | run/external/mg5.py:177 | reversing a concatenation reverses each part and swaps their order |
| Text.ReplaceIsJoinSplit | run/external/mg5.py:27 | `str.replace` substitutes each leftmost, non-overlapping occurrence: it equals splitting at the pattern and joining with the replacement |
| Text.Replace | run/external/mg5.py:27 | computes `str.replace` for a non-empty pattern; it has no contract of its own. Text.ReplaceIsJoinSplit, Text.ReplaceAbsent and Text.ReplaceBySelf state what it does |
| Text.SplitJoinRoundTrip | run/external/mg5.py:27 | splitting at a pattern and joining with that pattern gives the text back |
| Text.ReplaceAbsent | run/external/mg5.py:61 | replacing a pattern that does not occur leaves the text unchanged |
| Text.ReplaceBySelf | run/external/mg5.py:49 | replacing a pattern by itself leaves the text unchanged |
| Text.SplitCount | runcardsrunner/run.py:53 | `split` at one character gives one more part than there are occurrences of the character |
| Text.SplitAtOnly | run/external/mg5.py:221 | a text holding the separator exactly once splits into the two sides |
| Text.SplitWithout | runcardsrunner/run.py:51-53 | a text without the separator splits into itself |
| Text.ContainsIffOccurs | run/external/mg5.py:146 | the `in` test holds exactly when the pattern occurs at some index |
| Text.FirstBreak | run/external/mg5.py:83 | the first line boundary: no boundary occurs before it |
| Text.SplitLines | run/external/mg5.py:83 | computes `str.splitlines`; it has no contract of its own. Text.SplitLinesHaveNoBreaks and Text.SplitLinesUnlines state what it does |
| Text.SplitLinesHaveNoBreaks | run/external/mg5.py:83 | no line returned by `splitlines` contains a line boundary |
| Text.SplitLinesUnlines | run/external/mg5.py:252 | `splitlines` recovers every list of boundary-free lines that was joined with newlines |
| Text.Insert | run/external/mg5.py:169 | `list.insert` puts the item at the position, or at the end when the position is past it: every earlier element keeps its index, every later one moves up by one, and removing the item gives the list back |
| Text.InsertEachLayout | run/external/mg5.py:177-192 | inserting items one by one at a fixed position leaves them in reverse order between the untouched prefix and suffix |
| Text.InsertEachPastEnd | run/external/mg5.py:163-169 | inserting items one by one at a position past the end appends them in order until the list reaches that position, and the rest then stack up at the end in reverse order |
| Text.InsertThenSplice | run/external/mg5.py:175 | a block spliced in at a position where a line was just inserted lands before that line |
| FloatSyntax.Strip | run/external/mg5.py:185 | the text `float()` parses has no leading or trailing whitespace |
| FloatSyntax.EmptyIsNotFloat | run/external/mg5.py:185-187 | `float("")` raises |
| FloatSyntax.SignedDecimalIsFloat | run/external/mg5.py:185 | every optionally signed decimal with digits before an optional fractional part is accepted by `float()` |
| FloatSyntax.SignedNumeralIsFloat | run/external/mg5.py:185 | a sign followed by a numeral that starts and ends with a digit is accepted by `float()` |
| FloatSyntax.DigitsAreFloat | run/external/mg5.py:185 | a plain run of digits, such as a cut value `25`, is accepted by `float()` |
| Paths.Suffix | run/external/mg5.py:37 | the suffix is a trailing part of the name that starts with a dot, has at least one more character, and is not the whole name |
| Paths.PatchSuffixIff | run/external/mg5.py:37 | a file counts as a patch exactly when its name ends in `.patch` and has something before it |
| Paths.AppendSuffix | run/external/mg5.py:124 | `with_suffix(suffix + ".patch")` appends `.patch` to the name |
| Paths.Name | runcardsrunner/run.py:48 | `Path.name` holds no slash and is never `.` |
| Paths.NameOfJoined | runcardsrunner/run.py:48 | the name of `dir/file` is `file` |
| Paths.Filter | runcardsrunner/run.py:48 | path parsing drops exactly the empty and `.` components and keeps every other one |
| Render.SubstituteInOrder | run/external/mg5.py:60-61 | the variable table is applied entry by entry, in its own order |
| Render.RenderOutputCard | run/external/mg5.py:27 | substitutes the dataset name for `@OUTPUT@`; it has no contract of its own. Render.RenderOutputCardPieces and Render.RenderUntouched state what it does |
| Render.SubstituteUntouched | run/external/mg5.py:60-61 | a card naming none of the table's placeholders is left verbatim |
| Render.RenderUntouched | run/external/mg5.py:27-61 | a card with no `@OUTPUT@` and no table placeholder renders to itself |
| Render.RenderOutputCardPieces | run/external/mg5.py:27 | `@OUTPUT@` rendering joins the pieces between placeholders with the dataset name, and re-joining with `@OUTPUT@` gives the template back |
| Directives.ParseCutLineSound | run/external/mg5.py:79-86 | every line the cut scan accepts has the directive's shape: prefix, a word name, whitespace, `=`, whitespace, a value |
| Directives.ParseCutLine | run/external/mg5.py:79-86 | the `re.fullmatch` of the cut pattern on one line; it has no contract of its own. Directives.ParseCutLineSound and Directives.ParseCutLineComplete state both directions of the match |
| Directives.ParseCutLineComplete | run/external/mg5.py:79-86 | every line of that shape is accepted, with the name and value captured |
| Directives.ScanCutsAppend | run/external/mg5.py:83-86 | scanning two blocks of lines gives the first block's cuts followed by the second's |
| Directives.ScanCuts | run/external/mg5.py:83-86 | collects at most one cut per launch-card line. Directives.ScanCutsAppend and Directives.ScanCutsFromLines state the order and origin of the cuts |
| Directives.ScanCutsFromLines | run/external/mg5.py:83-86 | each collected cut comes from some line and has a valid value |
| Directives.CutValueIsBoolOrFloat | run/external/mg5.py:80 | every captured value is `True`, `False` or accepted by `float()`, so the injector's `ValueError` cannot fire for scanned cuts |
| Directives.TauMinArg | run/external/mg5.py:92-95 | a tau-min line is the prefix followed by the captured argument |
| Directives.ScanTauMin | run/external/mg5.py:92-100 | the tau-min scan; it has no contract of its own. Directives.TauMinLastWins and Directives.TauMinFromSpec state its outcome |
| Directives.TauMinLastWins | run/external/mg5.py:94-100 | the scan fails at the first non-number argument; otherwise the last argument wins, and there is none without a directive |
| Directives.TauMinFromSpec | run/external/mg5.py:94-100 | the same result holds from any starting value |
| Directives.EnablePatchLinesDoNotCount | run/external/mg5.py:114-119 | adding or removing an `#enable_patch` line leaves the enable-patch list unchanged |
| Directives.EnablePatchLineIgnored | run/external/mg5.py:114-117 | an `#enable_patch` line never matches the tau-min pattern |
| Injector.FindMarker | run/external/mg5.py:142-155 | returns the first line containing the marker; fails exactly when no line contains it, with an error that names neither the marker nor the file |
| Injector.MarkerErrorIgnoresMarker | run/external/mg5.py:150-153 | two failed searches raise the same error, whatever markers and file contents they had |
| Injector.IntendedMarkerMessage | run/external/mg5.py:151-153 | the message the placeholders evidently mean: the fixed opening, then the marker itself |
| Injector.IntendedMarkerMessagesDiffer | run/external/mg5.py:163-171 | with the intended message, the two markers `apply_user_cuts` searches for fail with different messages, and neither message is the one as written |
| Injector.RenderCutValueInjective | run/external/mg5.py:179-189 | distinct values render to distinct Fortran literals |
| Injector.RenderedLastChar | run/external/mg5.py:179-189 | a rendered value ends in `.` exactly when it was a boolean (`.true.`/`.false.`), otherwise it carries the `d0` suffix |
| Injector.DirectiveValuesRender | run/external/mg5.py:179-189 | every value the cut scan can capture renders without error |
| Injector.InsertDeclarationsLayout | run/external/mg5.py:163-169 | the declarations of the requested cuts end up, in reverse listing order, at 8 lines past the function marker |
| Injector.DeclarationsInsertSelected | run/external/mg5.py:163-169 | the declaration loop inserts exactly the requested snippets, in directory order, each at the same position |
| Injector.InsertDeclarationsPastEnd | run/external/mg5.py:163-169 | when the insertion point 8 lines past the marker lies past the end of the file, the first declarations are appended in listing order until the file reaches it, and the rest follow in reverse order |
| Injector.NoDeclarationsWithoutCuts | run/external/mg5.py:166-169 | with no cuts, no declaration file is inserted |
| Injector.InsertBodiesLayout | run/external/mg5.py:171-192 | the cut bodies end up in scan order at the insertion point |
| Injector.InsertBodiesFailure | run/external/mg5.py:177-187 | a value that fails to render aborts the body pass with that value's error |
| Injector.BodyPassLayout | run/external/mg5.py:171-192 | the body pass puts an empty line at 3 lines past the marker and, after it, the bodies in scan order; all other lines keep their order |
| Injector.BodyPassFailure | run/external/mg5.py:177-187 | a failing value makes the body pass fail with that error |
| Injector.NoCutsAddsBlankLine | run/external/mg5.py:158-195 | with no cuts and both markers found, the only change to `cuts.f` is the empty line 3 lines below the body marker, appended at the end when the file is shorter |
| Injector.MissingMarkerFails | run/external/mg5.py:158-171 | a missing marker, in either pass, makes the whole injection fail, with the same error for both markers |
| Injector.ApplyUserCuts | run/external/mg5.py:158-195 | `apply_user_cuts` on the lines of `cuts.f`; it has no contract of its own. Injector.ApplyUserCutsLayout, Injector.NoCutsAddsBlankLine and Injector.MissingMarkerFails state its result |
| Injector.ApplyUserCutsLayout | run/external/mg5.py:156-195 | with both markers found and far enough apart, the file written is: the lines up to 8 past the function marker, the requested declarations in reverse listing order, the lines up to 3 past the body marker, an empty line, the cut bodies in scan order, and the remaining lines |
| Mg5Run.RuncardPatches | run/external/mg5.py:36-40 | exactly the runcard files with suffix `.patch` are applied, one action each, each fed to `patch -p1` started in the MadGraph folder; no other action is taken |
| Mg5Run.RuncardPatchesInOrder | run/external/mg5.py:36-40 | the patches are applied in the order the runcard files are listed: one action for a `.patch` file, none for any other file |
| Mg5Run.EnablePatches | run/external/mg5.py:121-133 | patches are applied in list order until the first missing patch file; the run fails on that file, and only then; every patch goes through the quoted `-d` command |
| Mg5Run.EnablePatchesApplied | run/external/mg5.py:121-133 | the i-th `patch` process is fed the contents of the i-th listed patch file, through the quoted `-d` command |
| Mg5Run.DirectoryOption | run/external/mg5.py:109-111 | finds an argument after `-d` exactly when the argument list has a `-d` followed by something, and returns the argument that follows one |
| Mg5Run.QuotedPatchMissesMg5Dir | run/external/mg5.py:109-111 | for a MadGraph folder path without whitespace, the split command is `patch`, `-p1`, `-d` and the path in single quotes; so `patch` works in a folder other than the one the runcard patches go to |
| Mg5Run.IntendedPatchInMg5Dir | run/external/mg5.py:109-111 | the corrected command `patch -p1 -d <mg5_dir>` works in the same folder as the runcard patches |
| Mg5Run.TauMinActions | run/external/mg5.py:102-111 | there are tau-min actions exactly when a tau minimum was given, and their patch goes through the quoted `-d` command |
| Mg5Run.Continue | run/external/mg5.py:88-139 | every patch applied after the launch card is written goes through the quoted `-d` command |
| Mg5Run.PatchAndLaunch | run/external/mg5.py:102-139 | every patch of the tau-min and enable steps goes through the quoted `-d` command |
| Mg5Run.PatchCommandsOfRun | run/external/mg5.py:36-133 | in a run's trace, every patch of the first steps runs `patch -p1` in the MadGraph folder, and every later patch runs the quoted `-d` command |
| Mg5Run.Erase | run/external/mg5.py:38-40 | forgetting the patch statuses keeps every action in place |
| Mg5Run.PatchStatusIgnored | run/external/mg5.py:36-133 | the outcome and the actions of a run do not depend on any patch's exit status |
| Mg5Run.PreludeFirst | run/external/mg5.py:21-76 | every run starts with the card, analysis and patch steps, whatever follows |
| Mg5Run.RunMc | run/external/mg5.py:21-139 | `run_mc` as a list of actions and an outcome; it has no contract of its own. Mg5Run.DoneIff, Mg5Run.PreludeFirst, Mg5Run.CutsFailureStopsEarly, Mg5Run.TauMinFailureAfterCuts and Mg5Run.MissingPatchAfterTauMin, Mg5Run.PatchCommandsOfRun state its result |
| Mg5Run.PreludeTargets | run/external/mg5.py:27-76 | those first steps write only the output card, output log, analysis source, analysis card and launch card, and run MadGraph only on the output card |
| Mg5Run.DoneIff | run/external/mg5.py:21-139 | a run completes exactly when the cuts inject, the tau-min scan succeeds, and every tau-min argument names an existing patch |
| Mg5Run.CutsFailureStopsEarly | run/external/mg5.py:89 | a failing injection ends the run with that error, before `cuts.f`, the tau-min patch or the launch step |
| Mg5Run.TauMinFailureAfterCuts | run/external/mg5.py:89-100 | a non-numeric tau minimum fails the run right after `cuts.f` is written |
| Mg5Run.MissingPatchAfterTauMin | run/external/mg5.py:102-128 | the only other failure is a missing patch file, and it comes after the tau-min patch is written |
| Mg5Run.EnablePatchFileName | run/external/mg5.py:123-124 | the patch looked up for an argument is the argument followed by `.patch` |
| Mg5Results.KeyValueOf | run/external/mg5.py:221 | a metadata line `key=value` with a single `=` unpacks into its key and value |
| Mg5Results.LineWithoutSeparator | run/external/mg5.py:221 | a metadata line without `=` raises |
| Mg5Results.EntryArgsShape | run/external/mg5.py:218-222 | each metadata line becomes `--entry`, its key and its quoted value, in line order |
| Mg5Results.FindLhaid | run/external/mg5.py:231 | the PDF id found is a non-empty run of digits that follows `set lhaid ` in the card |
| Mg5Results.FindLhaidFrom | run/external/mg5.py:231 | the search returns the digits after the first occurrence, and finds nothing exactly when no occurrence exists |
| Mg5Results.LhaidOfCard | run/external/mg5.py:231 | a card with a single `set lhaid N` line yields `N` |
| Mg5Results.TableBodyShape | run/external/mg5.py:246 | the `[2:-2]` slice drops the first two and last two lines, and is empty for fewer than four |
| Mg5Results.TableBodyOfFramed | run/external/mg5.py:246 | the slice recovers a body framed by two header and two footer lines |
| Mg5Results.TableRows | run/external/mg5.py:251-253 | exactly the lines starting with two spaces and a sign are kept, and nothing else |
| Mg5Results.TableRowsInOrder | run/external/mg5.py:251-253 | the kept lines appear in their output order: a table line keeps its place, and any other line is dropped |
| Mg5Results.FieldsOfJoin | run/external/mg5.py:254 | `str.split()` recovers the fields of a space-joined row |
| Mg5Results.FieldsAfterSpace | run/external/mg5.py:254 | `str.split()` takes a field followed by a space as its first field and splits the rest on its own |
| Mg5Results.FirstBadField | run/external/mg5.py:254 | the conversion fails exactly when some cell is not a float literal |
| Mg5Results.FirstMissingColumn | run/external/mg5.py:257-260 | a table narrower than seven columns misses one of the result, error, minimum and maximum columns |
| Mg5Results.TableOfRows | run/external/mg5.py:250-254 | reading the rows of a written table gives its cells back |
| Mg5Results.ResultsOfTable | run/external/mg5.py:249-262 | a well-formed histogram yields one row per table line, with columns 3, 4, 6 and 7 (counting from 1) as result, error, minimum and maximum |
| Mg5Results.Results | run/external/mg5.py:249-262 | `results` on the histogram text; it has no contract of its own. Mg5Results.ResultsOfTable, Mg5Results.FirstBadField and Mg5Results.FirstMissingColumn state its result and its failures |
| StandaloneCuts.Lookup | run_implement_user_defined_cuts.py:6-115 | exactly the six cuts `mmllmax`, `ptl1min`, `yll`, `ptzmin`, `ptzmax` and `yz` have code |
| StandaloneCuts.LookupCutName | run_implement_user_defined_cuts.py:6-115 | every cut's name finds that cut |
| StandaloneCuts.Triples | run_implement_user_defined_cuts.py:129 | the validation loop sees the complete triples of arguments, in order |
| StandaloneCuts.ColumnLengths | run_implement_user_defined_cuts.py:162 | the name column is one longer than the value column whenever the arguments are not a whole number of triples |
| StandaloneCuts.ShiftedPairs | run_implement_user_defined_cuts.py:162 | with an incomplete trailing triple, each value is paired with the next triple's name |
| StandaloneCuts.AlignedPairs | run_implement_user_defined_cuts.py:162 | with complete triples, the reversed zip pairs each name with its own value |
| StandaloneCuts.Validate | run_implement_user_defined_cuts.py:129-139 | validation passes exactly when every triple names a known cut with `=`. Otherwise, at the first bad triple, it exits 3 when the name is unknown and 4 when the operator is not `=` |
| StandaloneCuts.FirstInvalid | run_implement_user_defined_cuts.py:129-139 | the index of the first triple that fails validation: every triple before it is valid |
| StandaloneCuts.FindMarker | run_implement_user_defined_cuts.py:144-150 | the first line containing `USER-DEFINED CUTS` is found, and nothing is found exactly when no line contains it |
| StandaloneCuts.TooFewArguments | run_implement_user_defined_cuts.py:118-120 | fewer than five arguments exit 1 without touching the file |
| StandaloneCuts.Script | run_implement_user_defined_cuts.py:117-169 | the script from its arguments to its exit code and written file; it has no contract of its own. StandaloneCuts.TooFewArguments, StandaloneCuts.BadTripleBeforeFile, StandaloneCuts.MissingMarker, StandaloneCuts.ScriptLayout and StandaloneCuts.ScriptLayoutShortFile state each outcome |
| StandaloneCuts.BadTripleBeforeFile | run_implement_user_defined_cuts.py:129-142 | a bad triple exits before the file is read, whatever it holds: with 3 when the first bad name is unknown, and otherwise with 4 |
| StandaloneCuts.MissingMarker | run_implement_user_defined_cuts.py:152-155 | a file without the marker exits 5 and is not written |
| StandaloneCuts.ScriptLayout | run_implement_user_defined_cuts.py:157-169 | a valid call writes the file with an empty line 3 lines past the marker, followed by the cut bodies in argument order |
| StandaloneCuts.ScriptLayoutShortFile | run_implement_user_defined_cuts.py:157-169 | when the insertion point lies past the end of the file, the empty line is appended. The bodies then follow as `list.insert` places them: those inserted first (the last cuts given) are appended until the file reaches the insertion point, and the rest end the file in argument order |
| StandaloneCuts.RenderPairs | run_implement_user_defined_cuts.py:162-166 | rendering the reversed pairs gives the bodies in reverse argument order |
| StandaloneCuts.RenderAll | run_implement_user_defined_cuts.py:162-166 | either every pair renders, one body each, or the first failing pair's error is reported |
| StandaloneCuts.AgreeOnCompleteTriples | run_implement_user_defined_cuts.py:162 | with a whole number of triples, the script as written and the corrected pairing behave identically |
| StandaloneCuts.TrailingNameShiftsValues | run_implement_user_defined_cuts.py:162 | `ptl1min = 25 yz` pairs 25 with `yz` as written, and with `ptl1min` when corrected |
| StandaloneCuts.TrailingNameMisplacesCut | run_implement_user_defined_cuts.py:157-169 | for that call, the written file carries the `yz` body where the `ptl1min` body was asked for |
| Runner.ParseDatasetDashes | runcardsrunner/run.py:48-58 | a dataset name with two or more dashes is rejected; otherwise it carries a timestamp exactly when it has one dash |
| Runner.ParseDataset | runcardsrunner/run.py:48-58 | splits the dataset path into a name and an optional timestamp; it has no contract of its own. Runner.ParseDatasetDashes, Runner.ParseDatasetPlain and Runner.ParseDatasetTimestamp state its result |
| Runner.ParseDatasetPlain | runcardsrunner/run.py:48-51 | a path ending in a dash-free name gives that name and no timestamp |
| Runner.ParseDatasetTimestamp | runcardsrunner/run.py:48-53 | a path ending in `name-timestamp` gives the name and the timestamp |
| Runner.RunStages | runcardsrunner/run.py:62-122 | Yadism is chosen exactly for DIS datasets; the stages are, in full, the five installation stages, the runner's own run exactly when no timestamp was given, and the six table, annotation and post-processing stages: 12 stages without a timestamp, 11 with one |
| Runner.Run | runcardsrunner/run.py:35-122 | `run` as the runner kind chosen and the stages taken; it has no contract of its own. Runner.RunStages and Runner.BadNameStopsEarly state its result |
| Runner.BadNameStopsEarly | runcardsrunner/run.py:51-58 | a name with two or more dashes fails before anything is installed |
| Info.LabelPriority | runcardsrunner/info.py:23-33 | a dataset is DIS, else positivity, else FTDY, else hadronic, checked in that order |
| Info.Label | runcardsrunner/info.py:23-33 | `label`; it has no contract of its own. Info.LabelPriority and Info.ColorKindOneToOne state its result |
| Info.ColorKindOneToOne | runcardsrunner/info.py:23-33 | colour and runner class each determine the kind, and the kind determines both |
| IGrid.Pow1 | applgridphoton/src/appl_igrid.cxx:39 | the result is +1 or -1 |
| IGrid.Pow1Alternates | applgridphoton/src/appl_igrid.cxx:39 | the sign alternates with parity, also for negative inputs, and is +1 at 0 |
| IGrid.Fac | applgridphoton/src/appl_igrid.cxx:42-53 | returns i! for 0..33 and extends the cached table up to i without changing the entries it had; returns 0 and leaves the table alone outside that range |
| IGrid.ReducedOrder | applgridphoton/src/appl_igrid.cxx:142-163 | the reduced order fits the node count, never grows, and is unchanged unless it had to shrink to nodes - 1 |
| IGrid.AddTransform | applgridphoton/src/appl_igrid.cxx:636-641 | adds a fresh name with its pair and keeps every other entry; rejects a name already present |
| IGrid.AddAllFresh | applgridphoton/src/appl_igrid.cxx:624-633 | adding distinct fresh names in turn succeeds and registers each pair |
| IGrid.StandardRegistry | applgridphoton/src/appl_igrid.cxx:624-633 | the empty map is filled with exactly `f` and `f0` to `f4` and their pairs |
| IGrid.InitFmapOnce | applgridphoton/src/appl_igrid.cxx:624-641 | a filled map is not refilled, and adding a standard name again fails |
| IGrid.InitFmap | applgridphoton/src/appl_igrid.cxx:624-633 | a populated registry is left as it is; an empty one receives exactly the six standard names, each with its transform pair |
| IGrid.FindTransform | applgridphoton/src/appl_igrid.cxx:239-242 | a transform is found exactly when it is one of the six standard names, with its pair, and otherwise fails with "not found" |
| IGrid.Construct | applgridphoton/src/appl_igrid.cxx:94-170 | construction fails exactly for an unknown transform |
| IGrid.ConstructOrders | applgridphoton/src/appl_igrid.cxx:94-163 | the orders are reduced against Ny1, against Ny2 except for DIS grids, and against Ntau; a DIS grid has one node on the second axis |
| IGrid.Encode | applgridphoton/src/appl_igrid.cxx:480-503 | the setup vector has 20 slots and the three spare slots hold 0 |
| IGrid.Decode | applgridphoton/src/appl_igrid.cxx:250-276 | the reading constructor's decoding of the setup vector; it has no contract of its own. IGrid.SetupRoundTrip, IGrid.ShortSetupIsHadronic and IGrid.NegativeCountNotRestored state what it recovers |
| IGrid.SetupRoundTrip | applgridphoton/src/appl_igrid.cxx:480-503 | reading back a written setup gives the same setup when the counts are non-negative |
| IGrid.ShortSetupIsHadronic | applgridphoton/src/appl_igrid.cxx:276 | a 16-slot vector from an older file reads as a non-DIS grid and agrees on every other field |
| IGrid.NegativeCountNotRestored | applgridphoton/src/appl_igrid.cxx:254 | the `+0.5` truncation reads a stored -1 back as 0 |
| IGrid.GridRoundTrip | applgridphoton/src/appl_igrid.cxx:226-276 | writing a grid and reading it back gives the grid again |
| IGrid.ReadGrid | applgridphoton/src/appl_igrid.cxx:234-276 | reading fails exactly for an unknown transform, and otherwise decodes the setup vector |
| IGrid.Trunc | applgridphoton/src/appl_igrid.cxx:427 | the `(int)` cast truncates toward zero |
| IGrid.Fk | applgridphoton/src/appl_igrid.cxx:415-448 | the x-node index leaves room for the interpolation order when the order fits, and an in-range start is kept |
| IGrid.Fkappa | applgridphoton/src/appl_igrid.cxx:450-463 | the tau-node index is never negative, leaves room for the order when it fits, and keeps an in-range start |
| IGrid.ClampOrderMatters | applgridphoton/src/appl_igrid.cxx:415-463 | the two clamp orders agree whenever the order fits the nodes, and differ otherwise (x gives -1 where tau gives 0) |
| IGrid.FillNodesY2 | applgridphoton/src/appl_igrid.cxx:433-447 | the second-axis nodes `fill` interpolates over span the y order, and lie inside the axis whenever the order fits it |
| IGrid.DisFillNodesNegative | applgridphoton/src/appl_igrid.cxx:94-170 | on a constructed DIS grid with x order of at least 1, the second-axis nodes start at minus the order, below node 0, for every guess |
| IGrid.CorrectedFillNodesY2 | applgridphoton/src/appl_igrid.cxx:545-551 | a DIS grid uses a single second-axis node; a hadronic grid keeps the nodes `fk2` gives |
| IGrid.CorrectedFillNodesInRange | applgridphoton/src/appl_igrid.cxx:545-551 | on every constructed grid, DIS or hadronic, the corrected second-axis nodes lie inside the axis |
| IGrid.ConstructedClampsInRange | applgridphoton/src/appl_igrid.cxx:142-163 | after construction, the x clamp on Ny1 and the tau clamp give indices inside the grid |
| IGrid.ScanBounds | applgridphoton/src/appl_igrid.cxx:1123-1173 | the scan's window covers every filled process and comes from some process or from the start value |
| IGrid.ScanWindow | applgridphoton/src/appl_igrid.cxx:1100-1173 | on a grid whose processes lie inside it, the window is empty exactly when no process has weights, and otherwise lies within the nodes and covers every filled process |
| IGrid.WidenContains | applgridphoton/src/appl_igrid.cxx:1194-1205 | widening adds one node below, and one node or the order plus one above, inside the node range |
| IGrid.Widen | applgridphoton/src/appl_igrid.cxx:1194-1205 | widens a found window; it has no contract of its own. IGrid.WidenContains states its bounds |
| IGrid.Optimise | applgridphoton/src/appl_igrid.cxx:1100-1285 | after optimisation the grid is flagged optimised and has the requested node counts, and every process's weights are discarded: each of the Nproc processes holds a new, empty matrix on those node counts |
| IGrid.OptimiseWindows | applgridphoton/src/appl_igrid.cxx:1100-1285 | the limits are moved exactly when every axis has weights, and the new limits cover every filled node |
| IGrid.Shrink | applgridphoton/src/appl_igrid.cxx:1050-1071 | slot i receives process keep[i] the first time it is named; exactly the processes not kept are deleted |
| ApplPdf.AddToPdfMap | applgridphoton/src/appl_pdf.cxx:48 | registers a fresh name and keeps every other entry; rejects a name already registered |
| ApplPdf.ConstructThenGet | applgridphoton/src/appl_pdf.cxx:46-68 | a named instance can be fetched after construction; an unnamed one is not registered |
| ApplPdf.Construct | applgridphoton/src/appl_pdf.cxx:46-50 | a non-empty name is registered with the instance and fails exactly when it is already present; an empty name leaves the registry unchanged |
| ApplPdf.ConstructDestruct | applgridphoton/src/appl_pdf.cxx:46-55 | destroying a freshly constructed instance restores the registry |
| ApplPdf.Destruct | applgridphoton/src/appl_pdf.cxx:51-55 | destruction removes only the instance's name |
| ApplPdf.GetPdf | applgridphoton/src/appl_pdf.cxx:59-68 | lookup finds exactly the registered names, and returns nothing (a null pointer) otherwise |
| ApplPdf.DecideSubProcess | applgridphoton/src/appl_pdf.cxx:103 | the default reports no subprocess (a negative index) |
| ApplPdf.ComputeRowSums | applgridphoton/src/appl_pdf.cxx:218-224 | each row sum is the sum of that row's entries |
| ApplPdf.SetCkm2 | applgridphoton/src/appl_pdf.cxx:218-224 | stores the squared table and its row sums, and leaves the charge and CKM matrix alone |
| ApplPdf.SlotMapping | applgridphoton/src/appl_pdf.cxx:189-200 | for W+ the up-type quarks go to the quark slots and the down-type to the antiquark slots, and the reverse for W-; every slot lies in the 14-slot table |
| ApplPdf.QuarkOfSlot | applgridphoton/src/appl_pdf.cxx:189-200 | the slot mapping can be inverted: each up-type and down-type slot belongs to exactly one generation |
| ApplPdf.Ckm2WritesEntries | applgridphoton/src/appl_pdf.cxx:182-208 | after n loop steps, the table holds the reference entry at the first n pairs written and 0 elsewhere |
| ApplPdf.Ckm2OfEntries | applgridphoton/src/appl_pdf.cxx:182-208 | the squared table is symmetric, holds V² of each quark pair, and is 0 away from those pairs |
| ApplPdf.SetCkm | applgridphoton/src/appl_pdf.cxx:172-213 | the CKM matrix is stored; with no charge set, the squared table is left unchanged; otherwise the table becomes the 14 by 14 table of squared CKM entries for that charge, entry by entry, with each row sum stored |
| ApplPdf.MakeCkm | applgridphoton/src/appl_pdf.cxx:122-168 | sets the charge to +1 for W+ and -1 for W-; the table it installs is the squared-CKM table of the Cabibbo matrix for that charge, with each row sum stored |
| ApplPdf.MakeCkmIsCabibbo | applgridphoton/src/appl_pdf.cxx:122-208 | the hard-coded table is what `setckm` computes from the Cabibbo matrix (0.975, 0.222); it is symmetric and non-zero exactly at the eight listed entries |
| SparseMatrix.Fill | applgridphoton/appl_grid/SparseMatrix3d.h:65-74 | an out-of-range bin leaves the matrix unchanged; otherwise only that cell gains the weight |
| SparseMatrix.FillCommutes | applgridphoton/appl_grid/SparseMatrix3d.h:65-74 | filling two different bins in either order gives the same matrix |
| SparseMatrix.FastIndexInRange | applgridphoton/appl_grid/SparseMatrix3d.h:62-63 | the fast index of an in-range bin lies inside the Nx·Ny·Nz table |
| SparseMatrix.FastIndexInjective | applgridphoton/appl_grid/SparseMatrix3d.h:62-63 | different in-range bins have different fast indices |
| SparseMatrix.FastIndexDecode | applgridphoton/appl_grid/SparseMatrix3d.h:62-63 | the bin can be recovered from its fast index |
| SparseMatrix.CompareAxesEquivalence | applgridphoton/appl_grid/SparseMatrix3d.h:77-109 | axis comparison is an equivalence, and filling never changes the axes |
| SparseMatrix.EmptyFast | applgridphoton/appl_grid/SparseMatrix3d.h:56-59 | releasing the fast index keeps the axes and the weight of every bin |
| SparseMatrix.FillWithoutFastIndex | applgridphoton/appl_grid/SparseMatrix3d.h:62-75 | filling does not depend on whether the fast index exists: filling then releasing it equals releasing it then filling |
| SparseMatrix.Trim | applgridphoton/appl_grid/SparseMatrix3d.h:50 | with a compaction that only changes storage, trimming keeps the axes and every weight and leaves no fast index |
| SparseMatrix.TrimIgnoresFastIndex | applgridphoton/appl_grid/SparseMatrix3d.h:50 | the result of trimming does not depend on whether a fast index existed |
| SparseMatrix.FillAfterTrim | applgridphoton/appl_grid/SparseMatrix3d.h:50-75 | with such a compaction, filling after trimming gives the weights and axes of trimming after filling |
| ApplCheck.PdgBijection | applcheck/applcheck.cpp:13-51 | the 14 flavour slots and the PDG ids -6..6 (without 0), 21 and 22 correspond one to one |
| ApplCheck.PdgInjective | applcheck/applcheck.cpp:48-51 | no two slots share a PDG id |
| ApplCheck.FlavourMap | applcheck/applcheck.cpp:91 | every flavour is enabled except the photon, which is enabled exactly when the PDF set has one |
| ApplCheck.EvolvePdf | applcheck/applcheck.cpp:53-66 | each enabled slot gets the PDF value of its PDG id, and each disabled slot gets 0 |
| ApplCheck.Check | applcheck/applcheck.cpp:78-82 | the program prints its usage and exits 1 exactly when the argument count is not 3 |
| ApplCheck.OrderLinesCentral | applcheck/applcheck.cpp:98-114 | one line per bin is printed for each order without scale logarithms. The block of each such order comes after the blocks of the earlier ones, and its j-th line is the j-th bin of that order. Every other order prints nothing |
| ApplCheck.OrderLines | applcheck/applcheck.cpp:98-114 | the per-order loop; it has no contract of its own. ApplCheck.OrderLinesCentral, ApplCheck.OrderLinesThrows and ApplCheck.MissingOrderThrows state the lines it prints and when it throws |
| ApplCheck.MissingOrderThrows | applcheck/applcheck.cpp:100 | fewer cross-section rows than orders throws `out_of_range`, even when the missing order would print nothing |
| ApplCheck.OrderLinesThrows | applcheck/applcheck.cpp:98-114 | the per-order loop throws exactly when some order has no cross-section row, or is central and has fewer cross sections than bins |
| ApplCheck.ShortCentralOrderThrows | applcheck/applcheck.cpp:104-111 | a central order with fewer cross sections than bins throws `out_of_range` |
| ApplCheck.ShortScaleOrderSkipped | applcheck/applcheck.cpp:104-107 | an order with a scale logarithm is skipped before any of its cross sections is read, so it may have fewer than one per bin |
| ApplCheck.CheckThrows | applcheck/applcheck.cpp:98-127 | with three arguments, the program throws `out_of_range` exactly when the per-order loop throws or the all-orders result has fewer cross sections than bins |
| ApplCheck.AllBinsThrows | applcheck/applcheck.cpp:120-127 | a per-order report that succeeds is still followed by a throw when the all-orders result has fewer cross sections than bins |
| ApplCheck.CheckReport | applcheck/applcheck.cpp:78-130 | a well-formed run prints the per-order lines, one line per bin, and the sum of cross section times bin width |

## Left out

- File, subprocess and network I/O: MadGraph runs, `patch`, `pineappl`, `brz`, `pygit2`, LHAPDF, ROOT files. Their inputs and results are parameters of the model.
- `merge`, `annotate_versions` and `postrun` in run/external/mg5.py: only the data they compute is modelled (metadata entries, PDF id, table slice). The `pineappl` invocations, the moves and the lz4 compression are left out as I/O.
- Regular-expression classes `\w` and `\d`, and the digits `float()` reads, are modelled with their ASCII members. Python also matches Unicode letters and digits. Whitespace (`\s`, `str.strip()`, `str.split()`, `float()`) is Python's full set, one definition (`Text.IsSpace`).
- `float()` is modelled as a recognizer of the literals it accepts. Its value, and the `str(float)` formatting the standalone script and the tau-min patch use, is a caller-supplied function, because the formatting of a double is not modelled.
- Text.Insert: `list.insert` also accepts negative positions. The scripts only use non-negative ones.
- Injector.CutBody: `.format(value)` (run/external/mg5.py:191) is modelled as a template with one `{}` slot (`Injector.CodeTemplate`). Escaped braces `{{` and `}}`, numbered or named fields, and templates with several slots are not covered.
- Injector.BodyPassLayout: requires the marker plus 3 to lie inside the file. A shorter file makes `list.insert` append at the end; the model does the same, but this lemma does not state that case.
- Paths.AppendSuffix: states only the `with_suffix(suffix + ".patch")` form the script uses, not every `with_suffix` call.
- The variable loop in `run_mc` rebinds `name` (run/external/mg5.py:60). Nothing after the loop reads it, so the model does not track the rebinding.
- `runcardsrunner/external/yad.py` and the `is_dis`, `is_positivity` and `is_vrap` classifiers: they are parameters of `Runner.Run` and `Info.Label`.
- Printing, timing and colour output in run.py and applcheck.cpp.
- Double-precision arithmetic: `IGrid`, `ApplPdf` and `ApplCheck` compute with exact reals. The CKM literals 0.049284 and 0.950625 are taken as exact decimals, not their nearest doubles.
- The transform functions `fx`/`fy` and their variants, the node positions, `weightfun` and the interpolation itself (`fI`) in appl_igrid.cxx: they are floating-point formulas. Registry entries are opaque pairs.
- IGrid.Fk: takes the raw node index as input and does not model the `fy` transform or the division by the node spacing. `fill` and `fill_phasespace` call `fk2` for every grid, DIS grids included. The negative second-axis index this gives a DIS grid is listed under Findings.
- Mg5Run.QuotedPatchMissesMg5Dir: covers a MadGraph folder path without whitespace. A path with whitespace is cut into further arguments, and the lemma does not describe that split. Whether the named folder exists is not modelled.
- Mg5Run.RunMc: what a patch does to the MadGraph folder's files is not modelled. A patch action records the diff, the command and the exit status.
- Mg5Run.DoneIff: the MadGraph runs and the file reads in `run_mc` are assumed to succeed. `tools.run_subprocess` is not part of this model, and a failing MadGraph run is not an outcome of `Mg5Run.RunMc`.
- IGrid.Optimise: the new limits are kept as node windows. Their transform back to x and Q² through `fy` and `gettau` is floating-point and not modelled. For a grid with no process (`nproc <= 0`), the source reads `m_weight[0]` out of bounds: first for the sizes it prints (appl_igrid.cxx:1086, 1093), then through `Ny1()`, `Ny2()` and `Ntau()` (lines 697-710, called at 1100-1106). The model does not capture that fault. It returns an optimised grid with no weight matrices, which the source does not promise.
- IGrid.Shrink: a repeated index in `keep` hands over a null grid the second time. This is modelled (`HandedOver` returns `None`), not excluded.
- The ROOT-file layout around the setup vector, the weight matrices and the reweighting tables in appl_igrid.cxx.
- `addtopdfmap` is declared in appl_pdf.h, which is not part of this model. ApplPdf.AddToPdfMap assumes it rejects a name already registered.
- `openpdf` and `create_map` in appl_pdf.cxx: file search and a no-op factory.
- The contents comparison `operator==` of SparseMatrix3d is defined elsewhere. It is a parameter of `SparseMatrix.NotEqual`. The `axis` binning behind `fill` is represented by the bin index.
- SparseMatrix.Trim: the `tsparse3d` compaction behind `trim` is defined elsewhere and is a parameter. Trim's contract holds only for a compaction that changes how cells are stored and nothing else (`SparseMatrix.Compacts`).
- `SparseMatrix.FastIndexInRange` and its companions cover the fast index only. The pointer table it indexes is memory layout.
- SparseMatrix.Fill: `fill_fast` is assumed to reach cell (i, j, k). `setup_fast`, which builds the pointer table `fill_fast` goes through, is not modelled. FastIndexInRange, FastIndexInjective and FastIndexDecode show only that the offset is inside the table and one-to-one.

## Findings

| source | as written | input that shows it | evidently intended | confidence | as-written member | corrected member |
|---|---|---|---|---|---|---|
| run_implement_user_defined_cuts.py:162 | `zip(reversed(sys.argv[2::3]), reversed(sys.argv[4::3]))` pairs the columns from their ends. With an incomplete trailing triple, the name column is one longer, so each value is paired with the following triple's name. | `cuts.f ptl1min = 25 yz`: validation checks only `ptl1min = 25`, and then the `yz` body is written with value 25 | pair each name with the value of its own triple (`zip` first, then reverse) | not executed | StandaloneCuts.ShiftedPairs, StandaloneCuts.TrailingNameMisplacesCut | StandaloneCuts.ScriptLayout, StandaloneCuts.AgreeOnCompleteTriples |
| applgridphoton/src/appl_igrid.cxx:433-447 | `fk2` raises the guess to 0 and then lowers it so that `yorder + 1` nodes end at the last node. A DIS grid has one second-axis node, but its y order is reduced only against the first axis. `fill` (lines 545-551) and `fill_phasespace` (lines 613-617) call `fk2` for every grid. | a DIS grid built with Nx = 30 and x order 5: `fk2` returns -5, so `fill` writes second-axis nodes -5 to 0 and `fill_phasespace` writes node -5 | a DIS grid uses only its one second-axis node, 0, with no interpolation along that axis | not executed | IGrid.FillNodesY2, IGrid.DisFillNodesNegative | IGrid.CorrectedFillNodesY2, IGrid.CorrectedFillNodesInRange |
| run/external/mg5.py:109-111 | `f"patch -p1 -d '{mg5_dir}'".split()`, here and at lines 129-133, splits on whitespace without a shell, so the argument after `-d` keeps its single quotes. The runcard patches (lines 37-40) run in `mg5_dir` itself. | a launch card with `#user_defined_tau_min 1e-4` and a MadGraph folder `/w/mg5`: `patch` is started with the arguments `-p1`, `-d` and `'/w/mg5'`, quotes included, which names a folder other than `/w/mg5` | `patch -p1 -d <mg5_dir>`, or `cwd=mg5_dir` as for the runcard patches | not executed | Mg5Run.QuotedPatchMissesMg5Dir, Mg5Run.PatchCommandsOfRun | Mg5Run.IntendedPatchCommand, Mg5Run.IntendedPatchInMg5Dir |
| run/external/mg5.py:151-153 | the message has no `f` prefix, so `{insertion_marker}` and `{file_path}` are printed as they stand, and the two markers raise the same message | a `cuts.f` without `USER-DEFINED CUTS`: the error reads "could not find insertion marker `{insertion_marker}` in cut file `{file_path}`" | the message names the missing marker and the file | not executed | Injector.FindMarker, Injector.MarkerErrorIgnoresMarker | Injector.IntendedMarkerMessage, Injector.IntendedMarkerMessagesDiffer |
