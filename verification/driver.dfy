/** The run driver (`PubPeerCheck`): the selected files are processed one
    after another; the first file that cannot be opened, whose report
    cannot be created, or whose report cannot be written ends the run, and
    the completion message is shown only when every file went through.
    The file system is abstracted into one `FileEnv` per file name. */
module Driver {
  import opened Wrappers
  import Discovery
  import Naming
  import opened Buffer

  /** What the file system and the search service do for one input file:
      whether `os.Open`, `os.Create` and the final write succeed, and the
      scanned lines with their lookup outcomes. */
  datatype FileEnv = FileEnv(openOk: bool, createOk: bool, lines: seq<Line>, writeOk: bool)

  /** The step at which a file stopped the run. */
  datatype Stage = OpenStage | CreateStage | WriteStage

  /** A report file written in full. */
  datatype Report = Report(name: string, contents: string)

  /** `Completed` is the run that reaches the completion message. */
  datatype Halt = Completed | Aborted(index: nat, stage: Stage)

  /** The reports written in full, the report files created (a file whose
      write failed was still created; its contents are not modelled), and
      how the run ended. */
  datatype RunResult = RunResult(reports: seq<Report>, created: seq<string>, halt: Halt)

  /** The body of the loop for one file: open, create, buffer, write. */
  function ProcessFile(name: string, env: FileEnv): (r: Result<Report, Stage>)
    ensures r.Success? <==> env.openOk && env.createOk && env.writeOk
    ensures r.Success? ==> r.value == Report(Naming.ResultName(name), Contents(env.lines))
    ensures r == Failure(OpenStage) <==> !env.openOk
    ensures r == Failure(CreateStage) <==> env.openOk && !env.createOk
  {
    if !env.openOk then Failure(OpenStage)
    else if !env.createOk then Failure(CreateStage)
    else if !env.writeOk then Failure(WriteStage)
    else Success(Report(Naming.ResultName(name), Contents(env.lines)))
  }

  predicate CreatedBeforeFailing(h: Halt) {
    h.Aborted? && h.stage == WriteStage
  }

  /** What a run over `files` must look like: the written reports are those
      of a prefix of `files`, each in full; the run aborts at the first file
      that fails and at the step where it fails; it completes only when no
      file fails; and the report files created are those of the prefix plus
      the failing file when it failed at the write. */
  ghost predicate RunSpec(files: seq<string>, env: string -> FileEnv, r: RunResult) {
    && |r.reports| <= |files|
    && (forall i :: 0 <= i < |r.reports| ==> ProcessFile(files[i], env(files[i])) == Success(r.reports[i]))
    && (r.halt.Completed? ==> |r.reports| == |files|)
    && (r.halt.Aborted? ==>
          && r.halt.index == |r.reports| < |files|
          && ProcessFile(files[r.halt.index], env(files[r.halt.index])) == Failure(r.halt.stage))
    && |r.created| == |r.reports| + (if CreatedBeforeFailing(r.halt) then 1 else 0)
    && (forall i :: 0 <= i < |r.created| ==> r.created[i] == Naming.ResultName(files[i]))
  }

  function ShiftHalt(h: Halt): Halt {
    match h
    case Completed => Completed
    case Aborted(i, s) => Aborted(i + 1, s)
  }

  /** The run over `files`, one file after another. */
  function Run(files: seq<string>, env: string -> FileEnv): (r: RunResult)
    ensures RunSpec(files, env, r)
    decreases |files|
  {
    if |files| == 0 then RunResult([], [], Completed)
    else
      match ProcessFile(files[0], env(files[0]))
      case Failure(stage) =>
        RunResult([], if stage == WriteStage then [Naming.ResultName(files[0])] else [], Aborted(0, stage))
      case Success(report) =>
        var rest := Run(files[1..], env);
        RunResult([report] + rest.reports, [report.name] + rest.created, ShiftHalt(rest.halt))
  }

  /** The specification admits exactly one run. */
  lemma RunSpecDeterminesRun(files: seq<string>, env: string -> FileEnv, r1: RunResult, r2: RunResult)
    requires RunSpec(files, env, r1) && RunSpec(files, env, r2)
    ensures r1 == r2
  {
  }

  /** The completion message is reached exactly when every file succeeds. */
  lemma CompletionIff(files: seq<string>, env: string -> FileEnv)
    ensures Run(files, env).halt.Completed?
        <==> forall i :: 0 <= i < |files| ==> ProcessFile(files[i], env(files[i])).Success?
  {
    var r := Run(files, env);
    if r.halt.Aborted? {
      var k := r.halt.index;
      assert !ProcessFile(files[k], env(files[k])).Success?;
    }
  }

  /** Once a run aborts, files after the failing one are never touched:
      appending more files to the list changes nothing. */
  lemma {:induction false} AbortIgnoresLater(files: seq<string>, more: seq<string>, env: string -> FileEnv)
    requires Run(files, env).halt.Aborted?
    ensures Run(files + more, env) == Run(files, env)
    decreases |files|
  {
    assert (files + more)[0] == files[0];
    if ProcessFile(files[0], env(files[0])).Success? {
      assert (files + more)[1..] == files[1..] + more;
      AbortIgnoresLater(files[1..], more, env);
    }
  }

  /** One iteration of the file loop: open, create, fill the buffer from
      the scanned lines, write. The failing step, if any, is returned. */
  method ProcessOne(name: string, fe: FileEnv) returns (res: Result<Report, Stage>)
    ensures res == ProcessFile(name, fe)
  {
    if !fe.openOk {
      return Failure(OpenStage);
    }
    var resultName := Naming.ResultName(name);
    if !fe.createOk {
      return Failure(CreateStage);
    }
    var buf := FillBuffer(fe.lines);
    if !fe.writeOk {
      return Failure(WriteStage);
    }
    return Success(Report(resultName, buf));
  }

  /** The whole check: scan the listing, then process the selected files in
      order, stopping at the first file-system failure. */
  method PubPeerCheck(listing: Option<seq<string>>, env: string -> FileEnv) returns (r: RunResult)
    ensures RunSpec(Discovery.Discovered(listing), env, r)
  {
    var files := Discovery.GetDOIFiles(listing);
    var reports: seq<Report> := [];
    var created: seq<string> := [];
    var i := 0;
    while i < |files|
      invariant i <= |files|
      invariant |reports| == i && |created| == i
      invariant forall j :: 0 <= j < i ==> ProcessFile(files[j], env(files[j])) == Success(reports[j])
      invariant forall j :: 0 <= j < i ==> created[j] == Naming.ResultName(files[j])
    {
      var res := ProcessOne(files[i], env(files[i]));
      match res
      case Failure(stage) =>
        if stage == WriteStage {
          created := created + [Naming.ResultName(files[i])];
        }
        return RunResult(reports, created, Aborted(i, stage));
      case Success(report) =>
        reports := reports + [report];
        created := created + [report.name];
        i := i + 1;
    }
    return RunResult(reports, created, Completed);
  }

  /** Reports a run writes are never selected as inputs by a later scan of
      the same directory. */
  lemma RunOutputsNotReselected(entries: seq<string>, env: string -> FileEnv)
    ensures var r := Run(Discovery.SelectInputs(entries), env);
      Discovery.SelectInputs(entries + r.created) == Discovery.SelectInputs(entries)
  {
    var files := Discovery.SelectInputs(entries);
    var r := Run(files, env);
    assert r.created == Naming.OutputNames(files[..|r.created|]);
    Naming.ReportsNeverReselected(entries, files[..|r.created|]);
  }
}
