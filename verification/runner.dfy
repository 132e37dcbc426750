/** The `run` command of the runcards runner (runcardsrunner/run.py): the
    dataset argument is reduced to its last path component and split into
    a name and an optional timestamp, a runner is chosen, and the stages
    run in a fixed order. The stages are recorded, not executed. */
module Runner {
  import opened Common
  import opened Text
  import opened Paths

  datatype RunnerKind = YadismRunner | Mg5Runner

  /** The ValueError for a name with more than one `-`. */
  datatype DatasetError = TooManyDashes(dataset: string)

  /** `name` or `name-timestamp`, after reduction to the last path
      component. The timestamp may be empty. */
  function ParseDataset(dataset: string): Result<(string, Option<string>), DatasetError>
  {
    var name := Name(dataset);
    if '-' !in name then Ok((name, None))
    else
      var parts := Split(name, "-");
      if |parts| == 2 then Ok((parts[0], Some(parts[1]))) else Err(TooManyDashes(name))
  }

  /** Parsing fails exactly when the last path component holds two or more
      dashes, and yields a timestamp exactly when it holds one. */
  lemma ParseDatasetDashes(dataset: string)
    ensures ParseDataset(dataset).Err? <==> CountChar(Name(dataset), '-') >= 2
    ensures ParseDataset(dataset).Ok? ==>
      (ParseDataset(dataset).value.1.Some? <==> CountChar(Name(dataset), '-') == 1)
  {
    var name := Name(dataset);
    SplitCount(name, '-');
    CountCharZero(name, '-');
  }

  /** A component without dashes is the name, with no timestamp. */
  lemma ParseDatasetPlain(dir: string, name: string)
    requires '/' !in name && '-' !in name && name != "" && name != "."
    ensures ParseDataset(dir + "/" + name) == Ok((name, None))
    ensures ParseDataset(name) == Ok((name, None))
  {
    NameOfJoined(dir, name);
    NameOfPlain(name);
  }

  /** `name-timestamp` gives both parts back, whatever directory it sits in;
      an empty timestamp is kept as empty. */
  lemma ParseDatasetTimestamp(dir: string, name: string, timestamp: string)
    requires '/' !in name && '/' !in timestamp && '-' !in name && '-' !in timestamp
    ensures ParseDataset(dir + "/" + name + "-" + timestamp) == Ok((name, Some(timestamp)))
  {
    var component := name + "-" + timestamp;
    NoSlashJoined(name, timestamp);
    assert component[|name|] == '-';
    NameOfJoined(dir, component);
    assert dir + "/" + name + "-" + timestamp == dir + "/" + component;
    SplitAtOnly(name, '-', timestamp);
  }

  lemma NoSlashJoined(name: string, timestamp: string)
    requires '/' !in name && '/' !in timestamp
    ensures '/' !in name + "-" + timestamp
  {
    var component := name + "-" + timestamp;
    forall k | 0 <= k < |component| ensures component[k] != '/' {
      if k < |name| { assert component[k] == name[k]; }
      else if k > |name| { assert component[k] == timestamp[k - |name| - 1]; }
    }
  }

  // ---------------------------------------------------------------------
  // Stages

  datatype Stage =
    | UpdateEnviron | InstallRunner(kind: RunnerKind) | InstallPineappl | PdfUpdate | PdfInstall(pdf: string)
    | RunRunner | GeneratePineappl | ParsePineapplTable | Results | PrintTable | AnnotateVersions | Postprocess

  /** `install_reqs`. */
  function InstallStages(kind: RunnerKind, pdf: string): seq<Stage>
  {
    [UpdateEnviron, InstallRunner(kind), InstallPineappl, PdfUpdate, PdfInstall(pdf)]
  }

  /** `run_dataset`: the runner runs only without a timestamp; the table
      arguments are evaluated left to right before it is printed. */
  function DatasetStages(timestamp: Option<string>): seq<Stage>
  {
    (if timestamp.None? then [RunRunner] else [])
      + [GeneratePineappl, ParsePineapplTable, Results, PrintTable, AnnotateVersions, Postprocess]
  }

  /** `run`: the runner for the parsed name and every stage, in order.
      `isDis` is the DIS classifier. */
  function Run(dataset: string, pdf: string, isDis: string -> bool): Result<(RunnerKind, seq<Stage>), DatasetError>
  {
    var (name, timestamp) :- ParseDataset(dataset);
    var kind := if isDis(name) then YadismRunner else Mg5Runner;
    Ok((kind, InstallStages(kind, pdf) + DatasetStages(timestamp)))
  }

  /** The stage sequence of a run, in full: the five installation stages,
      the runner's own run exactly when no timestamp was given, then the
      six post-processing stages in fixed order, and nothing else. */
  lemma RunStages(dataset: string, pdf: string, isDis: string -> bool)
    requires Run(dataset, pdf, isDis).Ok?
    ensures var (kind, stages) := Run(dataset, pdf, isDis).value;
      var timestamp := ParseDataset(dataset).value.1;
      (kind == YadismRunner <==> isDis(ParseDataset(dataset).value.0))
      && stages[..5] == [UpdateEnviron, InstallRunner(kind), InstallPineappl, PdfUpdate, PdfInstall(pdf)]
      && (RunRunner in stages <==> timestamp.None?)
      && |stages| == (if timestamp.None? then 12 else 11)
      && (timestamp.None? ==> stages[5] == RunRunner)
      && stages[|stages| - 6..] == [GeneratePineappl, ParsePineapplTable, Results, PrintTable, AnnotateVersions, Postprocess]
  {
    var (kind, stages) := Run(dataset, pdf, isDis).value;
    var timestamp := ParseDataset(dataset).value.1;
    var install := InstallStages(kind, pdf);
    var tail := [GeneratePineappl, ParsePineapplTable, Results, PrintTable, AnnotateVersions, Postprocess];
    var mid := if timestamp.None? then [RunRunner] else [];
    assert stages == install + mid + tail;
    StagesLayout(install, mid, tail);
  }

  /** Five stages in front and six behind stay in place whatever runs in
      between, and the runner runs only when it is in the middle part. */
  lemma StagesLayout(install: seq<Stage>, mid: seq<Stage>, tail: seq<Stage>)
    requires |install| == 5 && |tail| == 6 && RunRunner !in install && RunRunner !in tail
    ensures (install + mid + tail)[..5] == install
    ensures (install + mid + tail)[|install + mid + tail| - 6..] == tail
    ensures RunRunner in install + mid + tail <==> RunRunner in mid
  {
  }

  /** A malformed name is rejected before anything is installed. */
  lemma BadNameStopsEarly(dataset: string, pdf: string, isDis: string -> bool)
    requires CountChar(Name(dataset), '-') >= 2
    ensures Run(dataset, pdf, isDis) == Err(TooManyDashes(Name(dataset)))
  {
    ParseDatasetDashes(dataset);
  }
}
