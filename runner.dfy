/**
 * runner.py: the stage sequencer. Each stage is a script whose exit code
 * is given; the first sync runs alone, the two backfills run side by side
 * and are waited on in list order, and `Oldtickets.py` runs last. The first
 * non-zero exit code ends the run.
 */
module Runner {
  import opened Wrappers

  /** What the runner observes, in order: a script run to completion, a
      script started in the background, a background script waited on. */
  datatype Event =
    | Ran(script: string, code: int)
    | Started(script: string)
    | Waited(script: string, code: int)

  /** The `SystemExit` that ends the run: the name it reports (the log name
      for a sequential stage, the script for a parallel one) and the code. */
  datatype Halt = Halt(name: string, code: int)

  datatype Outcome =
    | Completed
    | MissingDirectory
    | Halted(halt: Halt)

  /** An event that reports a non-zero exit code. */
  predicate Fails(e: Event)
  {
    !e.Started? && e.code != 0
  }

  /** The position of the first script, in list order, whose exit code is
      not zero. */
  function FirstFailure(scripts: seq<string>, code: string -> int): (r: Option<nat>)
    ensures r.Some? ==> r.value < |scripts| && code(scripts[r.value]) != 0
    ensures r.Some? ==> forall j :: 0 <= j < r.value ==> code(scripts[j]) == 0
    ensures r.None? <==> forall j :: 0 <= j < |scripts| ==> code(scripts[j]) == 0
  {
    if scripts == [] then None
    else if code(scripts[0]) != 0 then Some(0)
    else
      match FirstFailure(scripts[1..], code)
      case None => None
      case Some(i) => Some(i + 1)
  }

  /** `run_and_log`: run the script to completion; a non-zero exit code
      raises, naming the log and the code. */
  method RunAndLog(script: string, logName: string, code: string -> int) returns (event: Event, halt: Option<Halt>)
    ensures event == Ran(script, code(script))
    ensures halt.None? <==> code(script) == 0
    ensures halt.Some? ==> halt.value == Halt(logName, code(script)) && Fails(event)
  {
    var c := code(script);
    event := Ran(script, c);
    if c != 0 {
      halt := Some(Halt(logName, c));
    } else {
      halt := None;
    }
  }

  /** The scripts of the (script, log base) pairs. */
  function Scripts(pairs: seq<(string, string)>): (r: seq<string>)
    ensures |r| == |pairs| && forall i :: 0 <= i < |pairs| ==> r[i] == pairs[i].0
  {
    seq(|pairs|, i requires 0 <= i < |pairs| => pairs[i].0)
  }

  /** How many scripts are waited on: all of them, or those up to and
      including the first failure. */
  function WaitCount(scripts: seq<string>, code: string -> int): (n: nat)
    ensures n <= |scripts|
  {
    match FirstFailure(scripts, code)
    case None => |scripts|
    case Some(i) => i + 1
  }

  /** The abort of `run_parallel`, if any: the first failing script. */
  function ParallelHalt(scripts: seq<string>, code: string -> int): (h: Option<Halt>)
    ensures h.None? <==> forall j :: 0 <= j < |scripts| ==> code(scripts[j]) == 0
  {
    match FirstFailure(scripts, code)
    case None => None
    case Some(i) => Some(Halt(scripts[i], code(scripts[i])))
  }

  /** Exactly which scripts are waited on, and which one the abort names: all
      of them when every code is zero; otherwise those up to and including
      the first failing one, which the abort names with its non-zero code. */
  lemma WaitsAndHalt(scripts: seq<string>, code: string -> int)
    ensures FirstFailure(scripts, code).None? ==> WaitCount(scripts, code) == |scripts| && ParallelHalt(scripts, code).None?
    ensures FirstFailure(scripts, code).Some? ==> var i := FirstFailure(scripts, code).value;
      && WaitCount(scripts, code) == i + 1
      && ParallelHalt(scripts, code) == Some(Halt(scripts[i], code(scripts[i])))
      && code(scripts[i]) != 0
  {
  }

  /** `run_parallel`: start every script, then wait on them in list order;
      the first non-zero code raises, naming that script, and the scripts
      after it are never waited on. */
  method RunParallel(pairs: seq<(string, string)>, code: string -> int) returns (trace: seq<Event>, halt: Option<Halt>)
    ensures |trace| == |pairs| + WaitCount(Scripts(pairs), code)
    ensures forall i :: 0 <= i < |pairs| ==> trace[i] == Started(pairs[i].0)
    ensures forall i :: 0 <= i < WaitCount(Scripts(pairs), code) ==> trace[|pairs| + i] == Waited(pairs[i].0, code(pairs[i].0))
    ensures halt == ParallelHalt(Scripts(pairs), code)
  {
    var starts: seq<Event> := [];
    var procs: seq<string> := [];
    for i := 0 to |pairs|
      invariant |starts| == i && |procs| == i
      invariant forall j :: 0 <= j < i ==> starts[j] == Started(pairs[j].0) && procs[j] == pairs[j].0
    {
      starts := starts + [Started(pairs[i].0)];
      procs := procs + [pairs[i].0];
    }
    assert procs == Scripts(pairs);
    var waits: seq<Event> := [];
    var i := 0;
    while i < |procs|
      invariant 0 <= i <= |procs| && |waits| == i
      invariant forall j :: 0 <= j < i ==> waits[j] == Waited(procs[j], code(procs[j])) && code(procs[j]) == 0
    {
      var c := code(procs[i]);
      waits := waits + [Waited(procs[i], c)];
      if c != 0 {
        FirstFailureAt(procs, code, i);
        return starts + waits, Some(Halt(procs[i], c));
      }
      i := i + 1;
    }
    return starts + waits, None;
  }

  /** A non-zero code at `i` after zeros before it is the first failure. */
  lemma {:induction false} FirstFailureAt(scripts: seq<string>, code: string -> int, i: nat)
    requires i < |scripts| && code(scripts[i]) != 0
    requires forall j :: 0 <= j < i ==> code(scripts[j]) == 0
    ensures FirstFailure(scripts, code) == Some(i)
  {
    if i > 0 {
      FirstFailureAt(scripts[1..], code, i - 1);
    }
  }

  /** The four stage scripts, in the order they are run. */
  const Stages: seq<string> := ["Final-atlasforlast500.py", "ticketnumber.py", "1stmessagefetch.py", "Oldtickets.py"]

  /** The name the abort message gives each stage: the log name of a
      sequential stage, the script of a parallel one. */
  const Names: seq<string> := ["1_final-atlasforlast500", "ticketnumber.py", "1stmessagefetch.py", "4_oldtickets"]

  /** What the run observes when the base directory is there: the first
      sync; if it succeeds, both backfills started and the first of them
      waited on; if that succeeds, the second waited on; if that succeeds,
      the last sync. */
  function PipelineTrace(atlasExists: bool, code: string -> int): seq<Event>
  {
    if !atlasExists then []
    else
      [Ran(Stages[0], code(Stages[0]))]
      + if code(Stages[0]) != 0 then []
        else
          [Started(Stages[1]), Started(Stages[2]), Waited(Stages[1], code(Stages[1]))]
          + if code(Stages[1]) != 0 then []
            else
              [Waited(Stages[2], code(Stages[2]))]
              + if code(Stages[2]) != 0 then [] else [Ran(Stages[3], code(Stages[3]))]
  }

  /** `__main__`: the directory check, then the stages in order. `atlasExists`
      is whether the base directory exists when the check runs. The run ends
      at the first stage, in stage order, whose exit code is not zero, and
      completes exactly when every code is zero. */
  method RunPipeline(atlasExists: bool, code: string -> int) returns (trace: seq<Event>, outcome: Outcome)
    ensures trace == PipelineTrace(atlasExists, code)
    ensures !atlasExists ==> outcome == MissingDirectory
    ensures atlasExists ==> outcome == match FirstFailure(Stages, code)
      case None => Completed
      case Some(i) => Halted(Halt(Names[i], code(Stages[i])))
    ensures outcome == Completed <==> atlasExists && forall i :: 0 <= i < |Stages| ==> code(Stages[i]) == 0
  {
    if !atlasExists {
      return [], MissingDirectory;
    }
    StagesFailure(code);
    var first, h := RunAndLog(Stages[0], Names[0], code);
    trace := [first];
    if h.Some? {
      return trace, Halted(h.value);
    }
    var pairs := [(Stages[1], "2_ticketnumber"), (Stages[2], "3_1stmessagefetch")];
    var middle, h2 := RunParallel(pairs, code);
    PairRun(pairs, code, middle, h2);
    trace := trace + middle;
    if h2.Some? {
      return trace, Halted(h2.value);
    }
    var last, h3 := RunAndLog(Stages[3], Names[3], code);
    trace := trace + [last];
    if h3.Some? {
      return trace, Halted(h3.value);
    }
    outcome := Completed;
  }

  /** The pair of `__main__`, spelled out: both started, the first waited on,
      and the second waited on only when the first succeeded. */
  lemma PairRun(pairs: seq<(string, string)>, code: string -> int, trace: seq<Event>, halt: Option<Halt>)
    requires |pairs| == 2
    requires |trace| == |pairs| + WaitCount(Scripts(pairs), code)
    requires forall i :: 0 <= i < |pairs| ==> trace[i] == Started(pairs[i].0)
    requires forall i :: 0 <= i < WaitCount(Scripts(pairs), code) ==> trace[|pairs| + i] == Waited(pairs[i].0, code(pairs[i].0))
    requires halt == ParallelHalt(Scripts(pairs), code)
    ensures var a, b := pairs[0].0, pairs[1].0;
      trace == [Started(a), Started(b), Waited(a, code(a))] + if code(a) != 0 then [] else [Waited(b, code(b))]
    ensures var a, b := pairs[0].0, pairs[1].0;
      halt == if code(a) != 0 then Some(Halt(a, code(a))) else if code(b) != 0 then Some(Halt(b, code(b))) else None
  {
    PairFailure(pairs, code);
    assert trace[2] == Waited(pairs[0].0, code(pairs[0].0));
    if code(pairs[0].0) == 0 {
      assert trace[3] == Waited(pairs[1].0, code(pairs[1].0));
    }
  }

  /** Nothing runs without the directory; otherwise the first sync runs
      first, at most six events happen, and the last sync, when it runs, is
      the last event. */
  lemma TraceShape(atlasExists: bool, code: string -> int)
    ensures var t := PipelineTrace(atlasExists, code);
      && (t == [] <==> !atlasExists)
      && (atlasExists ==> t[0] == Ran(Stages[0], code(Stages[0])) && |t| <= 6)
      && (Ran(Stages[3], code(Stages[3])) in t ==> t[|t| - 1] == Ran(Stages[3], code(Stages[3])))
  {
  }

  /** The event that reports a non-zero code is the last one: no stage is
      started or waited on after a failure. */
  lemma FailureEndsRun(atlasExists: bool, code: string -> int)
    ensures var t := PipelineTrace(atlasExists, code);
      forall i :: 0 <= i < |t| && Fails(t[i]) ==> i == |t| - 1
  {
  }

  /** Both backfills are started before either is waited on. */
  lemma StartsBeforeWaits(atlasExists: bool, code: string -> int)
    ensures var t := PipelineTrace(atlasExists, code);
      forall i, j :: 0 <= i < j < |t| && t[i].Waited? ==> !t[j].Started?
  {
  }

  /** `Oldtickets.py` runs exactly when the three stages before it succeed. */
  lemma LastStageRunsIff(atlasExists: bool, code: string -> int)
    ensures Ran(Stages[3], code(Stages[3])) in PipelineTrace(atlasExists, code)
        <==> atlasExists && forall i :: 0 <= i < 3 ==> code(Stages[i]) == 0
  {
  }

  /** When `ticketnumber.py` fails, `1stmessagefetch.py` has been started but
      is never waited on. */
  lemma SecondBackfillNotAwaited(code: string -> int)
    requires code(Stages[0]) == 0 && code(Stages[1]) != 0
    ensures Started(Stages[2]) in PipelineTrace(true, code)
    ensures forall c :: Waited(Stages[2], c) !in PipelineTrace(true, code)
  {
  }

  /** The first failure among the four stages, spelled out. */
  lemma StagesFailure(code: string -> int)
    ensures FirstFailure(Stages, code)
         == if code(Stages[0]) != 0 then Some(0)
            else if code(Stages[1]) != 0 then Some(1)
            else if code(Stages[2]) != 0 then Some(2)
            else if code(Stages[3]) != 0 then Some(3)
            else None
  {
    var r := FirstFailure(Stages, code);
    if r.Some? {
      FirstFailureAt(Stages, code, r.value);
    }
  }

  /** The first failure of the middle pair. */
  lemma PairFailure(pairs: seq<(string, string)>, code: string -> int)
    requires |pairs| == 2
    ensures FirstFailure(Scripts(pairs), code)
         == if code(pairs[0].0) != 0 then Some(0)
            else if code(pairs[1].0) != 0 then Some(1)
            else None
  {
    var r := FirstFailure(Scripts(pairs), code);
    if r.Some? {
      FirstFailureAt(Scripts(pairs), code, r.value);
    }
  }
}
