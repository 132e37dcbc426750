/** `run_mc` (run/external/mg5.py): one Monte Carlo run, as the sequence of
    observable actions it takes (files written, mg5 invocations, patches
    fed to `patch -p1`) and how it ends. Everything the run reads from disk
    or from a subprocess arrives as a field of `RunInputs`. */
module Mg5Run {
  import opened Common
  import opened Text
  import opened Paths
  import opened Render
  import opened Directives
  import opened Injector
  import Mg5Results

  /** The files `run_mc` writes, named by their role. */
  datatype Target =
    | OutputCard       // <dest>/output.txt
    | OutputLog        // <dest>/output.log
    | AnalysisSource   // <mg5>/FixedOrderAnalysis/<name>.f
    | AnalysisCard     // <mg5>/Cards/FO_analyse_card.dat
    | LaunchCard       // <dest>/launch.txt
    | CutsFile         // <mg5>/SubProcesses/cuts.f
    | TauMinPatch      // <dest>/set_tau_min.patch
    | LaunchLog        // <dest>/launch.log

  /** A `patch` process: its argument vector, and the working directory
      `subprocess.run` starts it in (None: the caller's own). */
  datatype PatchCommand = PatchCommand(argv: seq<string>, cwd: Option<string>)

  datatype Action =
    | Write(target: Target, content: string)
    | RunMg5(card: Target)
    | ApplyPatch(patch: string, command: PatchCommand, status: int)   // patch text on stdin, exit status

  datatype RunError =
    | CutsFailed(injectError: InjectError)
    | TauMinFailed(directiveError: DirectiveError)
    | PatchMissing(id: string)

  datatype Outcome = Done | Failed(error: RunError)

  datatype Run = Run(trace: seq<Action>, outcome: Outcome)

  /** What the run reads: the runcard folder, the variable table, the
      package's cut snippets and patches, and the files mg5 generates. */
  datatype RunInputs = RunInputs(
    name: string,
    mg5Dir: string,                         // str(dest / name), the MadGraph output folder
    outputTemplate: string,                 // runcards/<name>/output.txt
    launchTemplate: string,                 // runcards/<name>/launch.txt
    analysis: string,                       // runcards/<name>/analysis.f
    runcardFiles: seq<(string, string)>,    // runcards/<name>/, directory order
    variables: VariableTable,
    outputLog: string,                      // what `mg5 output.txt` prints
    analysisCard: string,                   // FO_analyse_card.dat as mg5 created it
    cutsSource: seq<string>,                // cuts.f as mg5 created it, one line each
    cutVariables: seq<(string, string)>,    // cuts_variables/: stem and text
    cutCode: map<string, CodeTemplate>,     // cuts_code/<name>.f
    tauMinTemplate: string,                 // patches/set_tau_min.patch
    patches: map<string, string>,           // patches/: file name and text
    launchLog: string)                      // what `mg5 launch.txt` prints

  const AnalysisTemplateName: string := "analysis_HwU_template"
  const TauMinPlaceholder: string := "@TAU_MIN@"

  // ---------------------------------------------------------------------
  // The `patch` invocations

  /** `subprocess.run("patch -p1".split(), cwd=mg5_dir)`, for the runcard
      folder's patches. */
  function RuncardPatchCommand(mg5Dir: string): PatchCommand
  {
    PatchCommand(["patch", "-p1"], Some(mg5Dir))
  }

  /** `subprocess.run(f"patch -p1 -d '{mg5_dir}'".split())`, for the tau-min
      and enable patches: no shell is involved, so `str.split()` leaves the
      single quotes inside the argument that follows `-d`. */
  function QuotedPatchCommand(mg5Dir: string): PatchCommand
  {
    PatchCommand(Mg5Results.Fields("patch -p1 -d '" + mg5Dir + "'"), None)
  }

  /** The command the tau-min and enable patches evidently mean: `-d`
      followed by the folder itself. */
  function IntendedPatchCommand(mg5Dir: string): PatchCommand
  {
    PatchCommand(["patch", "-p1", "-d", mg5Dir], None)
  }

  /** The argument that follows the first `-d`, if any. */
  function DirectoryOption(argv: seq<string>): (r: Option<string>)
    ensures r.Some? <==> exists i :: 0 <= i < |argv| - 1 && argv[i] == "-d"
    ensures r.Some? ==> exists i :: 0 <= i < |argv| - 1 && argv[i] == "-d" && argv[i + 1] == r.value
    decreases |argv|
  {
    if |argv| < 2 then None
    else if argv[0] == "-d" then Some(argv[1])
    else
      var r := DirectoryOption(argv[1..]);
      assert forall i :: 1 <= i < |argv| - 1 ==> argv[i] == argv[1..][i - 1];
      r
  }

  /** The directory `patch` applies the diff in: `patch -d DIR` changes to
      DIR first; without `-d` it works where it was started. */
  function PatchDirectory(c: PatchCommand): Option<string>
  {
    if DirectoryOption(c.argv).Some? then DirectoryOption(c.argv) else c.cwd
  }

  /** As written, the tau-min and enable patches go to a directory whose
      name is the folder's path wrapped in single quotes, not to the folder
      the runcard patches go to. This holds for a path without whitespace;
      one with whitespace is cut into further arguments. */
  lemma QuotedPatchMissesMg5Dir(mg5Dir: string)
    requires forall k :: 0 <= k < |mg5Dir| ==> !IsSpace(mg5Dir[k])
    ensures QuotedPatchCommand(mg5Dir).argv == ["patch", "-p1", "-d", "'" + mg5Dir + "'"]
    ensures PatchDirectory(QuotedPatchCommand(mg5Dir)) == Some("'" + mg5Dir + "'")
    ensures PatchDirectory(RuncardPatchCommand(mg5Dir)) == Some(mg5Dir)
    ensures PatchDirectory(QuotedPatchCommand(mg5Dir)) != PatchDirectory(RuncardPatchCommand(mg5Dir))
  {
    var quoted := "'" + mg5Dir + "'";
    QuotedArgv(mg5Dir);
    var ws := ["patch", "-p1", "-d", quoted];
    assert DirectoryOption(ws[2..]) == Some(quoted);
    assert DirectoryOption(ws[1..]) == Some(quoted);
    assert |quoted| != |mg5Dir|;
  }

  /** `str.split()` of the quoted command line: the quotes stay attached. */
  lemma QuotedArgv(mg5Dir: string)
    requires forall k :: 0 <= k < |mg5Dir| ==> !IsSpace(mg5Dir[k])
    ensures Mg5Results.Fields("patch -p1 -d '" + mg5Dir + "'") == ["patch", "-p1", "-d", "'" + mg5Dir + "'"]
  {
    CommandWordsAreFields(mg5Dir);
    CommandLineJoin(mg5Dir);
    Mg5Results.FieldsOfJoin(["patch", "-p1", "-d", "'" + mg5Dir + "'"]);
  }

  lemma CommandWordsAreFields(mg5Dir: string)
    requires forall k :: 0 <= k < |mg5Dir| ==> !IsSpace(mg5Dir[k])
    ensures var ws := ["patch", "-p1", "-d", "'" + mg5Dir + "'"];
      forall i :: 0 <= i < |ws| ==> Mg5Results.IsField(ws[i])
  {
    var ws := ["patch", "-p1", "-d", "'" + mg5Dir + "'"];
    QuotedIsField(mg5Dir);
    PrintableIsField("patch");
    PrintableIsField("-p1");
    PrintableIsField("-d");
    forall i | 0 <= i < |ws| ensures Mg5Results.IsField(ws[i]) {
      if i == 0 { assert ws[i] == "patch"; }
      else if i == 1 { assert ws[i] == "-p1"; }
      else if i == 2 { assert ws[i] == "-d"; }
    }
  }

  lemma QuotedIsField(mg5Dir: string)
    requires forall k :: 0 <= k < |mg5Dir| ==> !IsSpace(mg5Dir[k])
    ensures Mg5Results.IsField("'" + mg5Dir + "'")
  {
    var quoted := "'" + mg5Dir + "'";
    forall k | 0 <= k < |quoted| ensures !IsSpace(quoted[k]) {
      if 0 < k < |quoted| - 1 { assert quoted[k] == mg5Dir[k - 1]; }
    }
  }

  /** Every character is visible ASCII (no whitespace). */
  predicate AllVisible(w: string)
    decreases |w|
  {
    w == [] || ('!' <= w[0] <= '~' && AllVisible(w[1..]))
  }

  /** The command line is the four words joined by single spaces. */
  lemma CommandLineJoin(mg5Dir: string)
    ensures Join(["patch", "-p1", "-d", "'" + mg5Dir + "'"], " ") == "patch -p1 -d '" + mg5Dir + "'"
  {
    var quoted := "'" + mg5Dir + "'";
    var ws := ["patch", "-p1", "-d", quoted];
    var prefix := "patch -p1 -d ";
    assert Join(ws[3..], " ") == quoted;
    assert Join(ws[2..], " ") == "-d" + " " + quoted;
    assert Join(ws[1..], " ") == "-p1" + " " + ("-d" + " " + quoted);
    assert "patch" + " " + ("-p1" + " " + ("-d" + " ")) == prefix;
    ConcatAssoc("patch" + " ", "-p1" + " ", "-d" + " ", quoted);
    assert "patch -p1 -d '" == prefix + "'";
    ConcatAssoc(prefix, "'", mg5Dir, "'");
  }

  lemma ConcatAssoc<T>(a: seq<T>, b: seq<T>, c: seq<T>, d: seq<T>)
    ensures a + (b + (c + d)) == (a + (b + c)) + d
    ensures ((a + b) + c) + d == a + ((b + c) + d)
  {
  }

  /** A non-empty word of visible ASCII characters is one `str.split()`
      field. */
  lemma {:induction false} PrintableIsField(w: string)
    requires |w| > 0 && AllVisible(w)
    ensures Mg5Results.IsField(w)
    decreases |w|
  {
    if |w| > 1 {
      PrintableIsField(w[1..]);
      assert forall k :: 1 <= k < |w| ==> w[k] == w[1..][k - 1];
    }
  }

  /** The corrected command sends every patch to the folder the runcard
      patches go to. */
  lemma IntendedPatchInMg5Dir(mg5Dir: string)
    ensures PatchDirectory(IntendedPatchCommand(mg5Dir)) == Some(mg5Dir)
    ensures PatchDirectory(IntendedPatchCommand(mg5Dir)) == PatchDirectory(RuncardPatchCommand(mg5Dir))
  {
    var argv := IntendedPatchCommand(mg5Dir).argv;
    assert DirectoryOption(argv[2..]) == Some(mg5Dir);
    assert DirectoryOption(argv[1..]) == Some(mg5Dir);
    assert DirectoryOption(["patch", "-p1"][1..]) == None;
  }

  // ---------------------------------------------------------------------
  // Pieces of the run

  /** The runcard folder's own patches, each fed to `patch -p1` inside the
      MadGraph folder with whatever exit status `patch` returns. */
  function RuncardPatches(files: seq<(string, string)>, mg5Dir: string, status: string -> int): (acts: seq<Action>)
    ensures |acts| <= |files|
    ensures forall i :: 0 <= i < |acts| ==> acts[i].ApplyPatch?
    ensures forall a :: a in acts <==>
      exists f :: f in files && IsPatchFileName(f.0) && a == ApplyPatch(f.1, RuncardPatchCommand(mg5Dir), status(f.1))
  {
    if files == [] then []
    else
      var rest := RuncardPatches(files[1..], mg5Dir, status);
      if IsPatchFileName(files[0].0) then [ApplyPatch(files[0].1, RuncardPatchCommand(mg5Dir), status(files[0].1))] + rest
      else rest
  }

  /** The patches go in directory-listing order, one per `.patch` file and
      none for any other file: the list of actions splits where the
      listing splits, and a single file gives its own patch or nothing. */
  lemma {:induction false} RuncardPatchesInOrder(a: seq<(string, string)>, b: seq<(string, string)>, mg5Dir: string,
                                                 status: string -> int)
    ensures RuncardPatches(a + b, mg5Dir, status) == RuncardPatches(a, mg5Dir, status) + RuncardPatches(b, mg5Dir, status)
    ensures |a| == 1 ==>
      RuncardPatches(a, mg5Dir, status)
        == if IsPatchFileName(a[0].0) then [ApplyPatch(a[0].1, RuncardPatchCommand(mg5Dir), status(a[0].1))] else []
    decreases |a|
  {
    if a == [] {
      assert a + b == b;
    } else {
      assert (a + b)[0] == a[0];
      assert (a + b)[1..] == a[1..] + b;
      RuncardPatchesInOrder(a[1..], b, mg5Dir, status);
    }
  }

  /** `p.suffix == ".patch"` */
  predicate IsPatchFileName(name: string) {
    Suffix(name) == PatchSuffix
  }

  /** The file `patches/<id>` looked up for an enable-patch argument:
      `id` followed by `.patch` (EnablePatchFileName shows this is what
      `with_suffix(suffix + ".patch")` computes). */
  function EnablePatchFile(id: string): string
  {
    id + PatchSuffix
  }

  /** The enable-patch loop: each listed patch is fed to `patch` in order,
      with the quoted `-d` command; the first missing file raises, after
      the earlier ones were fed. */
  function EnablePatches(ids: seq<string>, patches: map<string, string>, mg5Dir: string, status: string -> int)
    : (r: (seq<Action>, Option<string>))
    ensures r.1.None? <==> forall i :: 0 <= i < |ids| ==> EnablePatchFile(ids[i]) in patches
    ensures r.1.None? ==> |r.0| == |ids|
    ensures r.1.Some? ==>
      |r.0| < |ids| && ids[|r.0|] == r.1.value && EnablePatchFile(ids[|r.0|]) !in patches
    ensures forall i :: 0 <= i < |r.0| ==> EnablePatchFile(ids[i]) in patches
    ensures forall i :: 0 <= i < |r.0| ==> r.0[i].ApplyPatch?
    ensures PatchesUse(r.0, QuotedPatchCommand(mg5Dir))
    decreases |ids|
  {
    if ids == [] then ([], None)
    else
      var file := EnablePatchFile(ids[0]);
      if file !in patches then ([], Some(ids[0]))
      else
        var rest := EnablePatches(ids[1..], patches, mg5Dir, status);
        ([ApplyPatch(patches[file], QuotedPatchCommand(mg5Dir), status(patches[file]))] + rest.0, rest.1)
  }

  /** The i-th `patch` process is fed the contents of the i-th listed patch
      file, with the quoted `-d` command. */
  lemma {:induction false} EnablePatchesApplied(ids: seq<string>, patches: map<string, string>, mg5Dir: string,
                                                status: string -> int)
    ensures var r := EnablePatches(ids, patches, mg5Dir, status);
      forall i :: 0 <= i < |r.0| ==>
        r.0[i] == ApplyPatch(patches[EnablePatchFile(ids[i])], QuotedPatchCommand(mg5Dir),
                             status(patches[EnablePatchFile(ids[i])]))
    decreases |ids|
  {
    if ids != [] && EnablePatchFile(ids[0]) in patches {
      EnablePatchesApplied(ids[1..], patches, mg5Dir, status);
      var r := EnablePatches(ids, patches, mg5Dir, status);
      var rest := EnablePatches(ids[1..], patches, mg5Dir, status);
      assert forall i :: 0 < i < |r.0| ==> r.0[i] == rest.0[i - 1] && ids[i] == ids[1..][i - 1];
    }
  }

  /** The tau-min patch with the value's `repr` and the Fortran exponent. */
  function TauMinPatchText(template: string, value: string, repr: string -> string): string
  {
    Replace(template, TauMinPlaceholder, repr(value) + "d0")
  }

  /** The launch card after substitution. */
  function Launch(inp: RunInputs): string
  {
    RenderLaunchCard(inp.launchTemplate, inp.name, inp.variables)
  }

  /** Everything up to and including writing the launch card: this part
      runs unconditionally. */
  function Prelude(inp: RunInputs, status: string -> int): seq<Action>
  {
    [Write(OutputCard, RenderOutputCard(inp.outputTemplate, inp.name)),
     RunMg5(OutputCard),
     Write(OutputLog, inp.outputLog)]
    + RuncardPatches(inp.runcardFiles, inp.mg5Dir, status)
    + [Write(AnalysisSource, inp.analysis),
       Write(AnalysisCard, Replace(inp.analysisCard, AnalysisTemplateName, inp.name)),
       Write(LaunchCard, Launch(inp))]
  }

  /** `run_mc`. `repr` stands for `str(float)` and `status` for the exit
      status `patch` returns for a given patch text. */
  function RunMc(inp: RunInputs, repr: string -> string, status: string -> int): Run
  {
    var rest := Continue(inp, repr, status);
    Run(Prelude(inp, status) + rest.trace, rest.outcome)
  }

  /** What `run_mc` does after writing the launch card: inject the cuts,
      scan and apply the tau minimum, apply the enable patches, launch. */
  function Continue(inp: RunInputs, repr: string -> string, status: string -> int): (r: Run)
    ensures PatchesUse(r.trace, QuotedPatchCommand(inp.mg5Dir))
  {
    var lines := SplitLines(Launch(inp));
    match ApplyUserCuts(inp.cutsSource, ScanCuts(lines), inp.cutVariables, inp.cutCode)
    case Err(e) => Run([], Failed(CutsFailed(e)))
    case Ok(cuts) =>
      var withCuts := [Write(CutsFile, Join(cuts, ""))];
      match ScanTauMin(lines)
      case Err(e) => Run(withCuts, Failed(TauMinFailed(e)))
      case Ok(tauMin) =>
        var rest := PatchAndLaunch(inp, repr, status, EnablePatchList(lines), tauMin);
        Run(withCuts + rest.trace, rest.outcome)
  }

  /** The tau-min patch, the enable patches, then the launch unless a patch
      file is missing. */
  function PatchAndLaunch(inp: RunInputs, repr: string -> string, status: string -> int,
                          ids: seq<string>, tauMin: Option<string>): (r: Run)
    ensures PatchesUse(r.trace, QuotedPatchCommand(inp.mg5Dir))
  {
    var tau := TauMinActions(inp.tauMinTemplate, tauMin, inp.mg5Dir, repr, status);
    var (enabled, missing) := EnablePatches(ids, inp.patches, inp.mg5Dir, status);
    if missing.Some? then Run(tau + enabled, Failed(PatchMissing(missing.value)))
    else Run(tau + enabled + [RunMg5(LaunchCard), Write(LaunchLog, inp.launchLog)], Done)
  }

  /** With a tau minimum, its patch is written to the run folder and fed
      to `patch` with the quoted `-d` command. */
  function TauMinActions(template: string, tauMin: Option<string>, mg5Dir: string, repr: string -> string,
                         status: string -> int): (acts: seq<Action>)
    ensures tauMin.None? <==> acts == []
    ensures PatchesUse(acts, QuotedPatchCommand(mg5Dir))
  {
    match tauMin
    case None => []
    case Some(v) =>
      var text := TauMinPatchText(template, v, repr);
      [Write(TauMinPatch, text), ApplyPatch(text, QuotedPatchCommand(mg5Dir), status(text))]
  }

  // ---------------------------------------------------------------------
  // Properties

  /** A trace with every exit status blanked out. */
  function Erase(trace: seq<Action>): (r: seq<Action>)
    ensures |r| == |trace|
    ensures forall i :: 0 <= i < |trace| ==>
      r[i] == (if trace[i].ApplyPatch? then trace[i].(status := 0) else trace[i])
  {
    if trace == [] then [] else [if trace[0].ApplyPatch? then trace[0].(status := 0) else trace[0]] + Erase(trace[1..])
  }

  lemma EraseAppend(a: seq<Action>, b: seq<Action>)
    ensures Erase(a + b) == Erase(a) + Erase(b)
  {
  }

  lemma {:induction false} RuncardPatchesIgnoreStatus(files: seq<(string, string)>, mg5Dir: string,
                                                      s1: string -> int, s2: string -> int)
    ensures Erase(RuncardPatches(files, mg5Dir, s1)) == Erase(RuncardPatches(files, mg5Dir, s2))
    decreases |files|
  {
    if files != [] {
      RuncardPatchesIgnoreStatus(files[1..], mg5Dir, s1, s2);
    }
  }

  lemma {:induction false} EnablePatchesIgnoreStatus(ids: seq<string>, patches: map<string, string>, mg5Dir: string,
                                                     s1: string -> int, s2: string -> int)
    ensures Erase(EnablePatches(ids, patches, mg5Dir, s1).0) == Erase(EnablePatches(ids, patches, mg5Dir, s2).0)
    ensures EnablePatches(ids, patches, mg5Dir, s1).1 == EnablePatches(ids, patches, mg5Dir, s2).1
    decreases |ids|
  {
    if ids != [] {
      EnablePatchesIgnoreStatus(ids[1..], patches, mg5Dir, s1, s2);
    }
  }

  lemma {:induction false} TauMinActionsIgnoreStatus(template: string, tauMin: Option<string>, mg5Dir: string,
                                                     repr: string -> string, s1: string -> int, s2: string -> int)
    ensures Erase(TauMinActions(template, tauMin, mg5Dir, repr, s1)) == Erase(TauMinActions(template, tauMin, mg5Dir, repr, s2))
  {
  }

  lemma PreludeIgnoresStatus(inp: RunInputs, s1: string -> int, s2: string -> int)
    ensures Erase(Prelude(inp, s1)) == Erase(Prelude(inp, s2))
  {
    var head := [Write(OutputCard, RenderOutputCard(inp.outputTemplate, inp.name)),
                 RunMg5(OutputCard), Write(OutputLog, inp.outputLog)];
    var tail := [Write(AnalysisSource, inp.analysis),
                 Write(AnalysisCard, Replace(inp.analysisCard, AnalysisTemplateName, inp.name)),
                 Write(LaunchCard, Launch(inp))];
    RuncardPatchesIgnoreStatus(inp.runcardFiles, inp.mg5Dir, s1, s2);
    EraseAppend(head + RuncardPatches(inp.runcardFiles, inp.mg5Dir, s1), tail);
    EraseAppend(head + RuncardPatches(inp.runcardFiles, inp.mg5Dir, s2), tail);
    EraseAppend(head, RuncardPatches(inp.runcardFiles, inp.mg5Dir, s1));
    EraseAppend(head, RuncardPatches(inp.runcardFiles, inp.mg5Dir, s2));
  }

  lemma PatchAndLaunchIgnoresStatus(inp: RunInputs, repr: string -> string, s1: string -> int, s2: string -> int,
                                    ids: seq<string>, tauMin: Option<string>)
    ensures PatchAndLaunch(inp, repr, s1, ids, tauMin).outcome == PatchAndLaunch(inp, repr, s2, ids, tauMin).outcome
    ensures Erase(PatchAndLaunch(inp, repr, s1, ids, tauMin).trace) == Erase(PatchAndLaunch(inp, repr, s2, ids, tauMin).trace)
  {
    var t1 := TauMinActions(inp.tauMinTemplate, tauMin, inp.mg5Dir, repr, s1);
    var t2 := TauMinActions(inp.tauMinTemplate, tauMin, inp.mg5Dir, repr, s2);
    TauMinActionsIgnoreStatus(inp.tauMinTemplate, tauMin, inp.mg5Dir, repr, s1, s2);
    var e1 := EnablePatches(ids, inp.patches, inp.mg5Dir, s1);
    var e2 := EnablePatches(ids, inp.patches, inp.mg5Dir, s2);
    EnablePatchesIgnoreStatus(ids, inp.patches, inp.mg5Dir, s1, s2);
    EraseAppend(t1, e1.0);
    EraseAppend(t2, e2.0);
    var fin := [RunMg5(LaunchCard), Write(LaunchLog, inp.launchLog)];
    EraseAppend(t1 + e1.0, fin);
    EraseAppend(t2 + e2.0, fin);
  }

  lemma ContinueIgnoresStatus(inp: RunInputs, repr: string -> string, s1: string -> int, s2: string -> int)
    ensures Continue(inp, repr, s1).outcome == Continue(inp, repr, s2).outcome
    ensures Erase(Continue(inp, repr, s1).trace) == Erase(Continue(inp, repr, s2).trace)
  {
    var lines := SplitLines(Launch(inp));
    match ApplyUserCuts(inp.cutsSource, ScanCuts(lines), inp.cutVariables, inp.cutCode)
    case Err(_) =>
    case Ok(cuts) =>
      var w := [Write(CutsFile, Join(cuts, ""))];
      match ScanTauMin(lines)
      case Err(_) =>
      case Ok(tauMin) =>
        var ids := EnablePatchList(lines);
        PatchAndLaunchIgnoresStatus(inp, repr, s1, s2, ids, tauMin);
        EraseAppend(w, PatchAndLaunch(inp, repr, s1, ids, tauMin).trace);
        EraseAppend(w, PatchAndLaunch(inp, repr, s2, ids, tauMin).trace);
  }

  /** The exit status of `patch` is never consulted: two runs that differ
      only in what `patch` returns take the same actions and end the same
      way, even when a patch is rejected. */
  lemma PatchStatusIgnored(inp: RunInputs, repr: string -> string, s1: string -> int, s2: string -> int)
    ensures RunMc(inp, repr, s1).outcome == RunMc(inp, repr, s2).outcome
    ensures Erase(RunMc(inp, repr, s1).trace) == Erase(RunMc(inp, repr, s2).trace)
  {
    PreludeIgnoresStatus(inp, s1, s2);
    ContinueIgnoresStatus(inp, repr, s1, s2);
    EraseAppend(Prelude(inp, s1), Continue(inp, repr, s1).trace);
    EraseAppend(Prelude(inp, s2), Continue(inp, repr, s2).trace);
  }

  /** Whatever happens later, the run starts with the output step, the
      runcard's own patches, the analysis files and the launch card. */
  lemma PreludeFirst(inp: RunInputs, repr: string -> string, status: string -> int)
    ensures |Prelude(inp, status)| <= |RunMc(inp, repr, status).trace|
    ensures RunMc(inp, repr, status).trace[..|Prelude(inp, status)|] == Prelude(inp, status)
  {
  }

  /** Every patch in a stretch of the trace goes through command `c`. */
  predicate PatchesUse(t: seq<Action>, c: PatchCommand) {
    forall a :: a in t && a.ApplyPatch? ==> a.command == c
  }

  lemma PreludeCommands(inp: RunInputs, status: string -> int)
    ensures PatchesUse(Prelude(inp, status), RuncardPatchCommand(inp.mg5Dir))
  {
  }

  /** Which command each patch of a run goes through: the runcard patches,
      all inside the prelude, run `patch -p1` in the MadGraph folder; every
      later patch (tau-min and enable patches) runs the quoted `-d`
      command, which QuotedPatchMissesMg5Dir shows misses that folder. */
  lemma PatchCommandsOfRun(inp: RunInputs, repr: string -> string, status: string -> int)
    ensures var t := RunMc(inp, repr, status).trace;
      var n := |Prelude(inp, status)|;
      n <= |t|
      && PatchesUse(t[..n], RuncardPatchCommand(inp.mg5Dir))
      && PatchesUse(t[n..], QuotedPatchCommand(inp.mg5Dir))
  {
    var pre := Prelude(inp, status);
    var rest := Continue(inp, repr, status).trace;
    PreludeCommands(inp, status);
    assert (pre + rest)[..|pre|] == pre;
    assert (pre + rest)[|pre|..] == rest;
  }

  /** Replacing the suffix of `id` by that suffix followed by `.patch`
      names `<id>.patch`, whatever suffix `id` has. */
  lemma EnablePatchFileName(id: string)
    ensures WithSuffix(id, Suffix(id) + PatchSuffix) == EnablePatchFile(id)
  {
    AppendSuffix(id, PatchSuffix);
  }

  /** The run finishes exactly when the cuts go in, every tau-min value is
      a number, and every tau-min value names an existing `<value>.patch`
      (the enable-patch loop reads the tau-min lines). */
  lemma DoneIff(inp: RunInputs, repr: string -> string, status: string -> int)
    ensures RunMc(inp, repr, status).outcome == Done <==>
      var lines := SplitLines(Launch(inp));
      ApplyUserCuts(inp.cutsSource, ScanCuts(lines), inp.cutVariables, inp.cutCode).Ok?
      && ScanTauMin(lines).Ok?
      && forall a :: a in TauMinArgs(lines) ==> a + PatchSuffix in inp.patches
  {
    var lines := SplitLines(Launch(inp));
    var ids := EnablePatchList(lines);
  }

  /** A cut file that cannot be prepared stops the run before anything is
      written to it, before any tau-min patch, and before the launch. */
  lemma CutsFailureStopsEarly(inp: RunInputs, repr: string -> string, status: string -> int)
    requires ApplyUserCuts(inp.cutsSource, ScanCuts(SplitLines(Launch(inp))), inp.cutVariables, inp.cutCode).Err?
    ensures RunMc(inp, repr, status).outcome
      == Failed(CutsFailed(ApplyUserCuts(inp.cutsSource, ScanCuts(SplitLines(Launch(inp))), inp.cutVariables, inp.cutCode).error))
    ensures forall a :: a in RunMc(inp, repr, status).trace ==>
      !(a.Write? && a.target in {CutsFile, TauMinPatch, LaunchLog}) && a != RunMg5(LaunchCard)
  {
    PreludeTargets(inp, status);
  }

  /** The unconditional part writes only the output step's files, the
      analysis files and the launch card, and runs mg5 only on the output
      card. */
  lemma PreludeTargets(inp: RunInputs, status: string -> int)
    ensures forall a :: a in Prelude(inp, status) ==>
      (a.Write? ==> a.target in {OutputCard, OutputLog, AnalysisSource, AnalysisCard, LaunchCard})
      && (a.RunMg5? ==> a.card == OutputCard)
  {
    var head := [Write(OutputCard, RenderOutputCard(inp.outputTemplate, inp.name)),
                 RunMg5(OutputCard),
                 Write(OutputLog, inp.outputLog)];
    var acts := RuncardPatches(inp.runcardFiles, inp.mg5Dir, status);
    var tail := [Write(AnalysisSource, inp.analysis),
                 Write(AnalysisCard, Replace(inp.analysisCard, AnalysisTemplateName, inp.name)),
                 Write(LaunchCard, Launch(inp))];
    assert Prelude(inp, status) == head + acts + tail;
    forall a: Action | a in head + acts + tail
      ensures (a.Write? ==> a.target in {OutputCard, OutputLog, AnalysisSource, AnalysisCard, LaunchCard})
        && (a.RunMg5? ==> a.card == OutputCard)
    {
      if a in acts {
        var i :| 0 <= i < |acts| && acts[i] == a;
      }
    }
  }

  /** A tau-min value that is not a number fails the run after the cuts
      were written into `cuts.f`; the write is not undone. */
  lemma TauMinFailureAfterCuts(inp: RunInputs, repr: string -> string, status: string -> int)
    requires ApplyUserCuts(inp.cutsSource, ScanCuts(SplitLines(Launch(inp))), inp.cutVariables, inp.cutCode).Ok?
    requires ScanTauMin(SplitLines(Launch(inp))).Err?
    ensures RunMc(inp, repr, status).outcome == Failed(TauMinFailed(ScanTauMin(SplitLines(Launch(inp))).error))
    ensures var t := RunMc(inp, repr, status).trace;
      |t| > 0 && t[|t| - 1] == Write(CutsFile,
        Join(ApplyUserCuts(inp.cutsSource, ScanCuts(SplitLines(Launch(inp))), inp.cutVariables, inp.cutCode).value, ""))
  {
  }

  /** A missing enable patch fails the run after the tau-min patch, and the
      patches listed before it, were applied. */
  lemma MissingPatchAfterTauMin(inp: RunInputs, repr: string -> string, status: string -> int)
    requires ApplyUserCuts(inp.cutsSource, ScanCuts(SplitLines(Launch(inp))), inp.cutVariables, inp.cutCode).Ok?
    requires ScanTauMin(SplitLines(Launch(inp))).Ok?
    requires RunMc(inp, repr, status).outcome.Failed?
    ensures RunMc(inp, repr, status).outcome.error.PatchMissing?
    ensures var tau := ScanTauMin(SplitLines(Launch(inp))).value;
      tau.Some? && Write(TauMinPatch, TauMinPatchText(inp.tauMinTemplate, tau.value, repr))
        in RunMc(inp, repr, status).trace
  {
    var lines := SplitLines(Launch(inp));
    TauMinLastWins(lines);
  }
}
