/** What one call of `doBuild` does, as a function of its inputs: the
    message it builds from the event, the directory filter, coalescing
    while a batch wait is in progress, the target lookup, the
    per-running-instance policy inside the do-while loop, and the final run.
    The host is replaced by inputs: the names of the defined tasks, the
    running executions seen at each pass of the loop, and a path-kind
    oracle standing for `fs.statSync`. Effects are recorded as actions. */
module Triggering {
  import opened Wrappers
  import opened Definitions
  import opened FileWatchers

  datatype EventKind = Changed | Created | Deleted

  /** The `action` string a watcher callback passes to `doBuild`. */
  function Word(k: EventKind): string
  {
    match k
    case Changed => "changed"
    case Created => "created"
    case Deleted => "deleted"
  }

  datatype FsEvent = FsEvent(path: string, kind: EventKind)

  /** What `fs.statSync(path)` reports about an existing path. */
  datatype PathKind = File | Directory | Other

  /** A running task execution, as `vscode.tasks.taskExecutions` lists it. */
  datatype Execution = Execution(id: nat, taskName: string)

  /** One line of a message written to the terminal. */
  datatype Line =
    | Rule
    | FileWas(path: string, action: string)
    | DirectoryWas(path: string, action: string)
    | EntryWas(path: string, action: string)
    | FirstTime
    | WaitingForRunning
    | Terminating(target: string)
    | Restarting(target: string)
    | WaitingSeconds(seconds: int, target: string)
    | Running(target: string)
    | NotFound(target: string)

  /** The exact text of a line; every line ends with "\r\n". */
  function Text(l: Line): (r: string)
    ensures |r| >= 2 && r[|r| - 2..] == "\r\n"
  {
    match l
    case Rule => "---\r\n"
    case FileWas(p, a) => "File " + p + " was " + a + ".\r\n"
    case DirectoryWas(p, a) => "Directory " + p + " was " + a + ".\r\n"
    case EntryWas(p, a) => "File/Directory " + p + " was " + a + ".\r\n"
    case FirstTime => "Running task first time! ...\r\n"
    case WaitingForRunning => "Waiting for running task to finish before launching another instance ...\r\n"
    case Terminating(t) => "Terminating running task '" + t + "' ...\r\n"
    case Restarting(t) => "Restarting running task '" + t + "' ...\r\n"
    case WaitingSeconds(n, t) =>
      "Waiting " + Decimal(n) + " seconds for running task '" + t + "' to finish before launching another instance ...\r\n"
    case Running(t) => "Running task '" + t + "' ...\r\n"
    case NotFound(t) => "Task '" + t + "' not found!\r\n"
  }

  /** The text of a message: its lines in order. */
  function Rendered(lines: seq<Line>): string
  {
    RenderedBy(Text, lines)
  }

  function RenderedBy(text: Line -> string, lines: seq<Line>): string
  {
    if lines == [] then "" else RenderedBy(text, lines[..|lines| - 1]) + text(lines[|lines| - 1])
  }

  /** Appending lines to a message appends their text: `message += ...` on
      the string is `+` on the lines. */
  lemma RenderedAppend(a: seq<Line>, b: seq<Line>)
    ensures Rendered(a + b) == Rendered(a) + Rendered(b)
  {
    RenderedByAppend(Text, a, b);
  }

  lemma {:induction false} RenderedByAppend(text: Line -> string, a: seq<Line>, b: seq<Line>)
    ensures RenderedBy(text, a + b) == RenderedBy(text, a) + RenderedBy(text, b)
  {
    if b != [] {
      var init, last := b[..|b| - 1], b[|b| - 1];
      assert (a + b)[..|a + b| - 1] == a + init;
      assert (a + b)[|a + b| - 1] == last;
      calc {
        RenderedBy(text, a + b);
        RenderedBy(text, a + init) + text(last);
        { RenderedByAppend(text, a, init); }
        (RenderedBy(text, a) + RenderedBy(text, init)) + text(last);
        RenderedBy(text, a) + (RenderedBy(text, init) + text(last));
        RenderedBy(text, a) + RenderedBy(text, b);
      }
    } else {
      assert a + b == a;
    }
  }

  /** An effect on the host, in the order it happens. */
  datatype Action =
    | Write(lines: seq<Line>)
    | Terminate(execution: nat)
    | Execute(task: string)
    | WatcherCreated(watcher: FileSystemWatcher)
    | WatcherDisposed(watcher: FileSystemWatcher)

  function ExecutedBy(a: Action): seq<string>
  {
    if a.Execute? then [a.task] else []
  }

  function TerminatedBy(a: Action): seq<nat>
  {
    if a.Terminate? then [a.execution] else []
  }

  /** The names of the tasks a trace executes, in order. */
  function Executed(trace: seq<Action>): seq<string>
  {
    if trace == [] then [] else ExecutedBy(trace[0]) + Executed(trace[1..])
  }

  /** The executions a trace terminates, in order. */
  function Terminated(trace: seq<Action>): seq<nat>
  {
    if trace == [] then [] else TerminatedBy(trace[0]) + Terminated(trace[1..])
  }

  lemma PairCounts(x: Action, y: Action)
    ensures Executed([x]) == ExecutedBy(x) && Terminated([x]) == TerminatedBy(x)
    ensures Executed([x, y]) == ExecutedBy(x) + ExecutedBy(y)
    ensures Terminated([x, y]) == TerminatedBy(x) + TerminatedBy(y)
  {
    assert [x][1..] == [] && [y][1..] == [];
    assert [x, y] == [x] + [y];
    ExecutedAppend([x], [y]);
    TerminatedAppend([x], [y]);
  }

  lemma {:induction false} ExecutedAppend(a: seq<Action>, b: seq<Action>)
    ensures Executed(a + b) == Executed(a) + Executed(b)
  {
    if a != [] {
      calc {
        Executed(a + b);
        ExecutedBy(a[0]) + Executed((a + b)[1..]);
        { assert (a + b)[1..] == a[1..] + b; ExecutedAppend(a[1..], b); }
        ExecutedBy(a[0]) + (Executed(a[1..]) + Executed(b));
      }
    } else {
      assert a + b == b;
    }
  }

  lemma {:induction false} TerminatedAppend(a: seq<Action>, b: seq<Action>)
    ensures Terminated(a + b) == Terminated(a) + Terminated(b)
  {
    if a != [] {
      calc {
        Terminated(a + b);
        TerminatedBy(a[0]) + Terminated((a + b)[1..]);
        { assert (a + b)[1..] == a[1..] + b; TerminatedAppend(a[1..], b); }
        TerminatedBy(a[0]) + (Terminated(a[1..]) + Terminated(b));
      }
    } else {
      assert a + b == b;
    }
  }

  /** The value of `runningTaskBehavior`, as the loop tests it. */
  datatype Policy = TerminatePolicy | RestartPolicy | BatchPolicy | NoPolicy

  function PolicyOf(d: Definition): Policy
  {
    var b := Lookup(d, "runningTaskBehavior");
    if b == Some(Str("terminate")) then TerminatePolicy
    else if b == Some(Str("restart")) then RestartPolicy
    else if b == Some(Str("batch")) then BatchPolicy
    else NoPolicy
  }

  /** `targetTask` of a merged, well-typed definition (the fallback is never
      used there). */
  function TargetOf(d: Definition): string
  {
    match Lookup(d, "targetTask")
    case Some(Str(s)) => s
    case _ => ""
  }

  /** `runningTaskBehaviorBatchThrottleSeconds` of a merged, well-typed
      definition. */
  function ThrottleOf(d: Definition): int
  {
    match Lookup(d, "runningTaskBehaviorBatchThrottleSeconds")
    case Some(Num(n)) => n
    case _ => 0
  }

  /** The ids of the executions of `target`, in order. */
  function MatchingIds(target: string, execs: seq<Execution>): (r: seq<nat>)
    ensures |r| <= |execs|
    ensures forall id :: id in r ==> exists i :: 0 <= i < |execs| && execs[i].taskName == target && execs[i].id == id
    ensures forall i :: 0 <= i < |execs| && execs[i].taskName == target ==> execs[i].id in r
  {
    if execs == [] then []
    else
      var last := execs[|execs| - 1];
      MatchingIds(target, execs[..|execs| - 1]) + (if last.taskName == target then [last.id] else [])
  }

  /** The event part of the message, or `Abort` when a directory event is
      dropped because only files are watched. */
  datatype Announcement = Abort | Announce(lines: seq<Line>)

  function Describe(onlyFiles: bool, event: Option<FsEvent>, kindOf: string -> PathKind): (a: Announcement)
    ensures a.Abort? <==>
      onlyFiles && event.Some? && event.value.kind != Deleted && kindOf(event.value.path) == Directory
    ensures event.None? ==> a == Announce([FirstTime])
    ensures a.Announce? ==> |a.lines| <= 1
    ensures event.Some? && a.Announce? && a.lines != [] ==>
      && (a.lines[0].FileWas? || a.lines[0].DirectoryWas? || a.lines[0].EntryWas?)
      && a.lines[0].path == event.value.path && a.lines[0].action == Word(event.value.kind)
    ensures event.Some? && a == Announce([]) ==>
      event.value.kind != Deleted && kindOf(event.value.path) == Other
    ensures event.Some? && event.value.kind != Deleted && kindOf(event.value.path) == Other ==> a == Announce([])
    ensures event.Some? && event.value.kind == Deleted ==> a == Announce([EntryWas(event.value.path, "deleted")])
    ensures event.Some? && event.value.kind != Deleted && kindOf(event.value.path) == File ==>
      a == Announce([FileWas(event.value.path, Word(event.value.kind))])
    ensures event.Some? && event.value.kind != Deleted && kindOf(event.value.path) == Directory && !onlyFiles ==>
      a == Announce([DirectoryWas(event.value.path, Word(event.value.kind))])
  {
    match event
    case None => Announce([FirstTime])
    case Some(e) =>
      if e.kind == Deleted then Announce([EntryWas(e.path, Word(e.kind))])
      else match kindOf(e.path)
        case File => Announce([FileWas(e.path, Word(e.kind))])
        case Directory => if onlyFiles then Abort else Announce([DirectoryWas(e.path, Word(e.kind))])
        case Other => Announce([])
  }

  /** One `forEach` over the running executions: what it writes and
      terminates, whether it asks to wait (batch), and whether it cancels
      the run (terminate). */
  datatype SweepResult = SweepResult(actions: seq<Action>, wait: bool, cancel: bool)

  function Sweep(p: Policy, target: string, execs: seq<Execution>): (r: SweepResult)
    ensures r.wait ==> p == BatchPolicy
    ensures r.cancel ==> p == TerminatePolicy
    ensures p == BatchPolicy || p == NoPolicy ==> r.actions == []
  {
    if execs == [] then SweepResult([], false, false)
    else
      var s := Sweep(p, target, execs[..|execs| - 1]);
      var e := execs[|execs| - 1];
      if e.taskName != target then s
      else match p
        case TerminatePolicy => SweepResult(s.actions + [Write([Terminating(target)]), Terminate(e.id)], s.wait, true)
        case RestartPolicy => SweepResult(s.actions + [Write([Restarting(target)]), Terminate(e.id)], s.wait, s.cancel)
        case BatchPolicy => SweepResult(s.actions, true, s.cancel)
        case NoPolicy => s
  }

  /** The do-while loop over successive snapshots of the running executions.
      `exited` is false when the snapshots run out while the flow is still
      waiting: it is then suspended in its sleep. */
  datatype LoopResult = LoopResult(actions: seq<Action>, exited: bool, cancelled: bool)

  function PolicyLoop(p: Policy, target: string, throttle: int, snaps: seq<seq<Execution>>, cancelled: bool): (r: LoopResult)
    ensures !r.exited && snaps != [] ==> p == BatchPolicy
    decreases |snaps|
  {
    if snaps == [] then LoopResult([], false, cancelled)
    else
      var s := Sweep(p, target, snaps[0]);
      SweepEffects(p, target, snaps[0]);
      if s.wait then
        var rest := PolicyLoop(p, target, throttle, snaps[1..], cancelled || s.cancel);
        LoopResult(s.actions + [Write([WaitingSeconds(throttle, target)])] + rest.actions, rest.exited, rest.cancelled)
      else LoopResult(s.actions, true, cancelled || s.cancel)
  }

  /** One pass of the loop, from the `i`-th snapshot on. */
  lemma PolicyLoopUnfold(p: Policy, target: string, throttle: int, snaps: seq<seq<Execution>>, i: nat, cancelled: bool)
    requires i < |snaps|
    ensures var s := Sweep(p, target, snaps[i]);
      var r := PolicyLoop(p, target, throttle, snaps[i..], cancelled);
      var rest := PolicyLoop(p, target, throttle, snaps[i + 1..], cancelled || s.cancel);
      if s.wait then r == LoopResult(s.actions + [Write([WaitingSeconds(throttle, target)])] + rest.actions, rest.exited, rest.cancelled)
      else r == LoopResult(s.actions, true, cancelled || s.cancel)
  {
    assert snaps[i..][0] == snaps[i];
    assert snaps[i..][1..] == snaps[i + 1..];
  }

  /** The effects of one `doBuild` call and the `waitForRunningTask` it
      leaves. */
  datatype Outcome = Outcome(actions: seq<Action>, waiting: bool)

  /** The loop, then at most one run of the target. */
  function Settlement(d: Definition, snaps: seq<seq<Execution>>): (o: Outcome)
    ensures o.waiting ==> snaps == [] || PolicyOf(d) == BatchPolicy
  {
    var target := TargetOf(d);
    var r := PolicyLoop(PolicyOf(d), target, ThrottleOf(d), snaps, false);
    if !r.exited then Outcome(r.actions, true)
    else if r.cancelled then Outcome(r.actions, false)
    else Outcome(r.actions + [Write([Running(target)]), Execute(target)], false)
  }

  /** One call of `doBuild` on a terminal whose merged definition is `d` and
      whose `waitForRunningTask` is `waiting`. `running` is what the first
      pass of the loop sees, `later` what each pass after a sleep sees. */
  function Flow(d: Definition, waiting: bool, event: Option<FsEvent>, kindOf: string -> PathKind,
                taskNames: seq<string>, running: seq<Execution>, later: seq<seq<Execution>>): (o: Outcome)
    ensures o.waiting ==> waiting || PolicyOf(d) == BatchPolicy
  {
    match Describe(Truthy(Lookup(d, "onlyFiles")), event, kindOf)
    case Abort => Outcome([], waiting)
    case Announce(lines) =>
      if waiting then Outcome([Write([Rule] + lines + [WaitingForRunning])], true)
      else if TargetOf(d) !in taskNames then Outcome([Write([Rule] + lines), Write([NotFound(TargetOf(d))])], false)
      else
        var s := Settlement(d, [running] + later);
        Outcome([Write([Rule] + lines)] + s.actions, s.waiting)
  }

  /** What one pass over the running executions does under each policy:
      terminate and restart terminate every execution of the target, in
      order, after a message each; only terminate cancels the run; only
      batch waits, and only when an execution of the target is running. */
  lemma SweepEffects(p: Policy, target: string, execs: seq<Execution>)
    ensures var s := Sweep(p, target, execs);
      var ids := MatchingIds(target, execs);
      && Executed(s.actions) == []
      && Terminated(s.actions) == (if p == TerminatePolicy || p == RestartPolicy then ids else [])
      && s.wait == (p == BatchPolicy && ids != [])
      && s.cancel == (p == TerminatePolicy && ids != [])
      && (p == BatchPolicy || p == NoPolicy ==> s.actions == [])
  {
    SweepCounts(p, target, execs);
    SweepFlags(p, target, execs);
  }

  /** The writes and terminations of a terminate or restart pass: one
      notice per execution of the target, each right before that
      execution's termination, in the order of the executions. */
  function TerminationPairs(notice: Line, ids: seq<nat>): seq<Action>
  {
    if ids == [] then []
    else TerminationPairs(notice, ids[..|ids| - 1]) + [Write([notice]), Terminate(ids[|ids| - 1])]
  }

  lemma {:induction false} SweepTrace(p: Policy, target: string, execs: seq<Execution>)
    requires p == TerminatePolicy || p == RestartPolicy
    ensures Sweep(p, target, execs).actions
      == TerminationPairs(if p == TerminatePolicy then Terminating(target) else Restarting(target), MatchingIds(target, execs))
  {
    if execs != [] {
      var init := execs[..|execs| - 1];
      var e := execs[|execs| - 1];
      SweepTrace(p, target, init);
      var ids := MatchingIds(target, init);
      if e.taskName == target {
        var notice := if p == TerminatePolicy then Terminating(target) else Restarting(target);
        assert MatchingIds(target, execs) == ids + [e.id];
        assert (ids + [e.id])[..|ids|] == ids;
        assert TerminationPairs(notice, ids + [e.id]) == TerminationPairs(notice, ids) + [Write([notice]), Terminate(e.id)];
        assert Sweep(p, target, execs).actions == Sweep(p, target, init).actions + [Write([notice]), Terminate(e.id)];
      } else {
        assert MatchingIds(target, execs) == ids + [];
        assert ids + [] == ids;
      }
    }
  }

  /** The terminations of one pass are those of the target's executions,
      under terminate and restart only; a pass never runs a task. */
  lemma {:induction false} SweepCounts(p: Policy, target: string, execs: seq<Execution>)
    ensures var s := Sweep(p, target, execs);
      && Executed(s.actions) == []
      && Terminated(s.actions) == (if p == TerminatePolicy || p == RestartPolicy then MatchingIds(target, execs) else [])
  {
    if execs != [] {
      var init := execs[..|execs| - 1];
      var e := execs[|execs| - 1];
      SweepCounts(p, target, init);
      var s := Sweep(p, target, init);
      if e.taskName == target && (p == TerminatePolicy || p == RestartPolicy) {
        var pair := [Write(if p == TerminatePolicy then [Terminating(target)] else [Restarting(target)]), Terminate(e.id)];
        assert Sweep(p, target, execs).actions == s.actions + pair;
        ExecutedAppend(s.actions, pair);
        TerminatedAppend(s.actions, pair);
        PairCounts(pair[0], pair[1]);
      }
    }
  }

  /** A pass waits only under batch and cancels only under terminate, each
      exactly when the target has a running execution; under batch and
      with no policy it writes nothing. */
  lemma {:induction false} SweepFlags(p: Policy, target: string, execs: seq<Execution>)
    ensures var s := Sweep(p, target, execs);
      var ids := MatchingIds(target, execs);
      && s.wait == (p == BatchPolicy && ids != [])
      && s.cancel == (p == TerminatePolicy && ids != [])
      && (p == BatchPolicy || p == NoPolicy ==> s.actions == [])
  {
    if execs != [] {
      SweepFlags(p, target, execs[..|execs| - 1]);
    }
  }

  /** The index of the first snapshot in which no execution of `target`
      runs, or `|snaps|` when there is none. */
  function FirstIdle(target: string, snaps: seq<seq<Execution>>): (k: nat)
    ensures k <= |snaps|
  {
    if snaps == [] || MatchingIds(target, snaps[0]) == [] then 0
    else 1 + FirstIdle(target, snaps[1..])
  }

  /** `n` copies of a message. */
  function Repeat(m: Action, n: nat): seq<Action>
  {
    if n == 0 then [] else [m] + Repeat(m, n - 1)
  }

  lemma {:induction false} RepeatCounts(m: Action, n: nat)
    requires !m.Execute? && !m.Terminate?
    ensures Executed(Repeat(m, n)) == [] && Terminated(Repeat(m, n)) == []
  {
    if n > 0 {
      RepeatCounts(m, n - 1);
      ExecutedAppend([m], Repeat(m, n - 1));
      TerminatedAppend([m], Repeat(m, n - 1));
    }
  }

  /** Under batch, the loop writes one waiting notice per snapshot in which
      the target is still running, and exits at the first snapshot in which
      it is not; it never terminates anything. */
  lemma {:induction false} BatchLoop(target: string, throttle: int, snaps: seq<seq<Execution>>, cancelled: bool)
    ensures var k := FirstIdle(target, snaps);
      PolicyLoop(BatchPolicy, target, throttle, snaps, cancelled)
        == LoopResult(Repeat(Write([WaitingSeconds(throttle, target)]), k), k < |snaps|, cancelled)
  {
    if snaps != [] {
      SweepEffects(BatchPolicy, target, snaps[0]);
      if MatchingIds(target, snaps[0]) != [] {
        BatchLoop(target, throttle, snaps[1..], cancelled);
      }
    }
  }

  /** Any other policy leaves the loop after the first pass. */
  lemma SinglePass(p: Policy, target: string, throttle: int, snaps: seq<seq<Execution>>)
    requires p != BatchPolicy && snaps != []
    ensures var s := Sweep(p, target, snaps[0]);
      PolicyLoop(p, target, throttle, snaps, false) == LoopResult(s.actions, true, s.cancel)
  {
    SweepEffects(p, target, snaps[0]);
  }

  /** The last two actions of a settlement that runs the target. */
  lemma RunCounts(prefix: seq<Action>, target: string)
    ensures var all := prefix + [Write([Running(target)]), Execute(target)];
      Executed(all) == Executed(prefix) + [target] && Terminated(all) == Terminated(prefix)
  {
    var tail := [Write([Running(target)]), Execute(target)];
    PairCounts(tail[0], tail[1]);
    ExecutedAppend(prefix, tail);
    TerminatedAppend(prefix, tail);
  }

  /** terminate: every running execution of the target is terminated, and
      the target runs only when none was running. The flow ends not waiting. */
  lemma TerminateSettles(d: Definition, running: seq<Execution>, later: seq<seq<Execution>>)
    requires PolicyOf(d) == TerminatePolicy
    ensures var o := Settlement(d, [running] + later);
      var ids := MatchingIds(TargetOf(d), running);
      && !o.waiting
      && Terminated(o.actions) == ids
      && Executed(o.actions) == (if ids == [] then [TargetOf(d)] else [])
  {
    var target := TargetOf(d);
    SinglePass(TerminatePolicy, target, ThrottleOf(d), [running] + later);
    SweepEffects(TerminatePolicy, target, running);
    RunCounts(Sweep(TerminatePolicy, target, running).actions, target);
  }

  /** restart: every running execution of the target is terminated, then
      the target runs exactly once, as the last action. */
  lemma RestartSettles(d: Definition, running: seq<Execution>, later: seq<seq<Execution>>)
    requires PolicyOf(d) == RestartPolicy
    ensures var o := Settlement(d, [running] + later);
      && !o.waiting
      && Terminated(o.actions) == MatchingIds(TargetOf(d), running)
      && Executed(o.actions) == [TargetOf(d)]
      && o.actions[|o.actions| - 1] == Execute(TargetOf(d))
  {
    var target := TargetOf(d);
    SinglePass(RestartPolicy, target, ThrottleOf(d), [running] + later);
    SweepEffects(RestartPolicy, target, running);
    RunCounts(Sweep(RestartPolicy, target, running).actions, target);
  }

  /** batch: one waiting notice per snapshot in which the target still
      runs; at the first snapshot in which it does not, exactly one run and
      no longer waiting; if every snapshot shows it running, no run and the
      flow is still waiting. Nothing is terminated. */
  lemma BatchSettles(d: Definition, snaps: seq<seq<Execution>>)
    requires PolicyOf(d) == BatchPolicy
    ensures var k := FirstIdle(TargetOf(d), snaps);
      var o := Settlement(d, snaps);
      var notice := Write([WaitingSeconds(ThrottleOf(d), TargetOf(d))]);
      && o.actions == Repeat(notice, k) + (if k < |snaps| then [Write([Running(TargetOf(d))]), Execute(TargetOf(d))] else [])
      && o.waiting == (k == |snaps|)
      && Terminated(o.actions) == []
      && Executed(o.actions) == (if k < |snaps| then [TargetOf(d)] else [])
  {
    var target := TargetOf(d);
    var k := FirstIdle(target, snaps);
    var notice := Write([WaitingSeconds(ThrottleOf(d), target)]);
    var notices := Repeat(notice, k);
    var tail := [Write([Running(target)]), Execute(target)];
    BatchLoop(target, ThrottleOf(d), snaps, false);
    assert PolicyLoop(BatchPolicy, target, ThrottleOf(d), snaps, false) == LoopResult(notices, k < |snaps|, false);
    RepeatCounts(notice, k);
    if k < |snaps| {
      assert Settlement(d, snaps) == Outcome(notices + tail, false);
      RunCounts(notices, target);
    } else {
      assert Settlement(d, snaps) == Outcome(notices, true);
      assert notices + [] == notices;
    }
  }

  /** An unrecognised policy ignores the running executions and runs the
      target once. */
  lemma OtherPolicySettles(d: Definition, running: seq<Execution>, later: seq<seq<Execution>>)
    requires PolicyOf(d) == NoPolicy
    ensures Settlement(d, [running] + later)
      == Outcome([Write([Running(TargetOf(d))]), Execute(TargetOf(d))], false)
  {
    SinglePass(NoPolicy, TargetOf(d), ThrottleOf(d), [running] + later);
    SweepEffects(NoPolicy, TargetOf(d), running);
  }

  /** Whatever the event, the policy and the executions, one call of
      `doBuild` runs the target at most once. */
  lemma FlowRunsAtMostOnce(d: Definition, waiting: bool, event: Option<FsEvent>, kindOf: string -> PathKind,
                           taskNames: seq<string>, running: seq<Execution>, later: seq<seq<Execution>>)
    ensures |Executed(Flow(d, waiting, event, kindOf, taskNames, running, later).actions)| <= 1
  {
    var a := Describe(Truthy(Lookup(d, "onlyFiles")), event, kindOf);
    if a.Announce? {
      if waiting {
        Coalesced(d, event, kindOf, taskNames, running, later, taskNames, running, later);
      } else if TargetOf(d) !in taskNames {
        MissingTarget(d, event, kindOf, taskNames, running, later);
      } else {
        FoundTarget(d, event, kindOf, taskNames, running, later);
        match PolicyOf(d)
        case TerminatePolicy => TerminateSettles(d, running, later);
        case RestartPolicy => RestartSettles(d, running, later);
        case BatchPolicy => BatchSettles(d, [running] + later);
        case NoPolicy =>
          OtherPolicySettles(d, running, later);
          PairCounts(Write([Running(TargetOf(d))]), Execute(TargetOf(d)));
      }
    }
  }

  /** A created or changed directory, when only files are watched: nothing
      is written, nothing runs, and the waiting flag is unchanged. */
  lemma IgnoredDirectory(d: Definition, waiting: bool, e: FsEvent, kindOf: string -> PathKind,
                         taskNames: seq<string>, running: seq<Execution>, later: seq<seq<Execution>>)
    requires Truthy(Lookup(d, "onlyFiles")) && e.kind != Deleted && kindOf(e.path) == Directory
    ensures Flow(d, waiting, Some(e), kindOf, taskNames, running, later) == Outcome([], waiting)
  {
  }

  /** An event while a batch wait is in progress writes exactly one message,
      which ends with the waiting line, and does nothing else: the result
      does not depend on the task list or the running executions, so the
      target is neither looked up nor run. */
  lemma Coalesced(d: Definition, event: Option<FsEvent>, kindOf: string -> PathKind,
                  taskNames: seq<string>, running: seq<Execution>, later: seq<seq<Execution>>,
                  taskNames': seq<string>, running': seq<Execution>, later': seq<seq<Execution>>)
    requires Describe(Truthy(Lookup(d, "onlyFiles")), event, kindOf).Announce?
    ensures var o := Flow(d, true, event, kindOf, taskNames, running, later);
      && o == Flow(d, true, event, kindOf, taskNames', running', later')
      && o.waiting
      && |o.actions| == 1 && o.actions[0].Write?
      && o.actions[0].lines[|o.actions[0].lines| - 1] == WaitingForRunning
      && Executed(o.actions) == [] && Terminated(o.actions) == []
  {
    var o := Flow(d, true, event, kindOf, taskNames, running, later);
    PairCounts(o.actions[0], o.actions[0]);
  }

  /** A target missing from the task list: exactly the event message, then
      one "not found" message, and no run. */
  lemma MissingTarget(d: Definition, event: Option<FsEvent>, kindOf: string -> PathKind,
                      taskNames: seq<string>, running: seq<Execution>, later: seq<seq<Execution>>)
    requires Describe(Truthy(Lookup(d, "onlyFiles")), event, kindOf).Announce?
    requires TargetOf(d) !in taskNames
    ensures var o := Flow(d, false, event, kindOf, taskNames, running, later);
      && !o.waiting
      && o.actions == [Write([Rule] + Describe(Truthy(Lookup(d, "onlyFiles")), event, kindOf).lines),
                       Write([NotFound(TargetOf(d))])]
      && Executed(o.actions) == [] && Terminated(o.actions) == []
  {
    var o := Flow(d, false, event, kindOf, taskNames, running, later);
    PairCounts(o.actions[0], o.actions[1]);
  }

  /** With the target found, the flow is the event message followed by the
      settlement of the running-task policy. */
  lemma FoundTarget(d: Definition, event: Option<FsEvent>, kindOf: string -> PathKind,
                    taskNames: seq<string>, running: seq<Execution>, later: seq<seq<Execution>>)
    requires Describe(Truthy(Lookup(d, "onlyFiles")), event, kindOf).Announce?
    requires TargetOf(d) in taskNames
    ensures var o := Flow(d, false, event, kindOf, taskNames, running, later);
      var s := Settlement(d, [running] + later);
      && o.waiting == s.waiting
      && Executed(o.actions) == Executed(s.actions)
      && Terminated(o.actions) == Terminated(s.actions)
  {
    var lines := Describe(Truthy(Lookup(d, "onlyFiles")), event, kindOf).lines;
    var s := Settlement(d, [running] + later);
    ExecutedAppend([Write([Rule] + lines)], s.actions);
    TerminatedAppend([Write([Rule] + lines)], s.actions);
  }

  /** The bootstrap build of a default (batch) terminal with nothing
      running: the first-time message, then exactly one run. */
  lemma Bootstrap(d: Definition, kindOf: string -> PathKind, taskNames: seq<string>,
                  running: seq<Execution>, later: seq<seq<Execution>>)
    requires PolicyOf(d) == BatchPolicy && TargetOf(d) in taskNames
    requires MatchingIds(TargetOf(d), running) == []
    ensures Flow(d, false, None, kindOf, taskNames, running, later)
      == Outcome([Write([Rule, FirstTime]), Write([Running(TargetOf(d))]), Execute(TargetOf(d))], false)
  {
    var snaps := [running] + later;
    PolicyLoopUnfold(BatchPolicy, TargetOf(d), ThrottleOf(d), snaps, 0, false);
    SweepFlags(BatchPolicy, TargetOf(d), running);
    var s := Settlement(d, snaps);
    assert s == Outcome([Write([Running(TargetOf(d))]), Execute(TargetOf(d))], false);
    assert [Rule] + [FirstTime] == [Rule, FirstTime];
    assert Flow(d, false, None, kindOf, taskNames, running, later) == Outcome([Write([Rule, FirstTime])] + s.actions, false);
  }
}
