/** `EntrTaskTerminal`: the merged definition, the list of file watchers
    that `open` and `close` manage, and `doBuild` with the
    `waitForRunningTask` field it flips. Every effect on the host is
    appended to `trace`. */
module TaskTerminal {
  import opened Wrappers
  import opened Definitions
  import opened FileWatchers
  import opened Triggering

  /** `path.join(workspaceRoot, pattern)`, without normalisation. */
  function Join(root: string, pattern: string): string
  {
    root + "/" + pattern
  }

  /** The glob patterns of the `files` array. */
  function PatternsOf(d: Definition): seq<string>
  {
    match Lookup(d, "files")
    case Some(Patterns(_, items)) => items
    case _ => []
  }

  function Disposals(ws: seq<FileSystemWatcher>): seq<Action>
  {
    if ws == [] then [] else Disposals(ws[..|ws| - 1]) + [WatcherDisposed(ws[|ws| - 1])]
  }

  function Creations(ws: seq<FileSystemWatcher>): seq<Action>
  {
    if ws == [] then [] else Creations(ws[..|ws| - 1]) + [WatcherCreated(ws[|ws| - 1])]
  }

  /** `w` was created on `pattern` with the ignore flags of `d`. */
  predicate Watches(w: FileSystemWatcher, pattern: string, d: Definition)
  {
    && w.pattern == pattern
    && w.ignoreCreateEvents == Truthy(Lookup(d, "ignoreCreateEvents"))
    && w.ignoreChangeEvents == Truthy(Lookup(d, "ignoreChangeEvents"))
    && w.ignoreDeleteEvents == Truthy(Lookup(d, "ignoreDeleteEvents"))
  }

  /** Regrouping a concatenation of traces. */
  lemma Associative<T>(a: seq<T>, b: seq<T>, c: seq<T>)
    ensures (a + b) + c == a + (b + c)
  {
  }

  /** What one pass of the loop writes and terminates, the sleep included. */
  function PassActions(p: Policy, target: string, throttle: int, execs: seq<Execution>): seq<Action>
  {
    var s := Sweep(p, target, execs);
    s.actions + if s.wait then [Write([WaitingSeconds(throttle, target)])] else []
  }

  /** What `DEFAULT_TASK_CONFIG` gives a terminal: an "entr" definition
      with the declared types, no target, every file watched with no event
      ignored, a 100 ms pause, and the batch policy with a 30 second sleep. */
  lemma DefaultConfigValues()
    ensures IsEntr(DefaultConfig)
    ensures TargetOf(DefaultConfig) == "" && Lookup(DefaultConfig, "name") == Some(Str(""))
    ensures PatternsOf(DefaultConfig) == ["**/*.*"]
    ensures !Truthy(Lookup(DefaultConfig, "ignoreCreateEvents"))
    ensures !Truthy(Lookup(DefaultConfig, "ignoreChangeEvents"))
    ensures !Truthy(Lookup(DefaultConfig, "ignoreDeleteEvents"))
    ensures !Truthy(Lookup(DefaultConfig, "onlyFiles"))
    ensures Lookup(DefaultConfig, "pauseMsBeforeRun") == Some(Num(100))
    ensures PolicyOf(DefaultConfig) == BatchPolicy && ThrottleOf(DefaultConfig) == 30
  {
  }

  /** `acc` followed by what `rest` does is what `full` does. */
  ghost predicate Continues(acc: seq<Action>, rest: LoopResult, full: LoopResult)
  {
    acc + rest.actions == full.actions && rest.exited == full.exited && rest.cancelled == full.cancelled
  }

  /** One pass moves the loop on: either it sleeps and the rest of the loop
      starts at the next snapshot, or it ends the loop. */
  lemma Advance(p: Policy, target: string, throttle: int, snaps: seq<seq<Execution>>, i: nat, cancelled: bool,
                acc: seq<Action>, full: LoopResult)
    requires i < |snaps|
    requires Continues(acc, PolicyLoop(p, target, throttle, snaps[i..], cancelled), full)
    ensures var s := Sweep(p, target, snaps[i]);
      var acc' := acc + PassActions(p, target, throttle, snaps[i]);
      if s.wait then Continues(acc', PolicyLoop(p, target, throttle, snaps[i + 1..], cancelled || s.cancel), full)
      else acc' == full.actions && full.exited && full.cancelled == (cancelled || s.cancel)
  {
    PolicyLoopUnfold(p, target, throttle, snaps, i, cancelled);
    var s := Sweep(p, target, snaps[i]);
    if s.wait {
      Associative(acc, PassActions(p, target, throttle, snaps[i]), PolicyLoop(p, target, throttle, snaps[i + 1..], cancelled || s.cancel).actions);
    } else {
      assert PassActions(p, target, throttle, snaps[i]) == s.actions;
    }
  }

  /** `made` holds one watcher per pattern, in order, each on the pattern
      under `root` with the ignore flags of `d`. */
  predicate NewWatchers(made: seq<FileSystemWatcher>, root: string, patterns: seq<string>, d: Definition)
  {
    |made| == |patterns| && forall k :: 0 <= k < |made| ==> Watches(made[k], Join(root, patterns[k]), d)
  }

  class EntrTaskTerminal {
    const workspaceRoot: string
    var taskDefinition: Definition
    var fileWatchers: seq<FileSystemWatcher>
    var waitForRunningTask: bool
    var trace: seq<Action>

    /** The merged definition has every default property with its declared
        type, and only a batch flow is ever left waiting. */
    ghost predicate Valid()
      reads this
    {
      && WellTyped(taskDefinition)
      && DefaultConfig.Keys <= taskDefinition.Keys
      && (waitForRunningTask ==> PolicyOf(taskDefinition) == BatchPolicy)
    }

    /** The constructor merges the defaults under the user's definition. */
    constructor (workspaceRoot: string, definition: TaskDefinition)
      requires WellTyped(definition.props)
      ensures Valid()
      ensures this.workspaceRoot == workspaceRoot
      ensures taskDefinition == Merge(definition.props)
      ensures fileWatchers == [] && !waitForRunningTask && trace == []
    {
      this.workspaceRoot := workspaceRoot;
      taskDefinition := Merge(definition.props);
      fileWatchers := [];
      waitForRunningTask := false;
      trace := [];
    }

    /** `close`: disposes every watcher in the list, in order, and keeps
        the list. Nothing happens when there is none. */
    method Close()
      modifies this`trace, set w | w in fileWatchers
      ensures forall w :: w in fileWatchers ==> w.disposed
      ensures trace == old(trace) + Disposals(fileWatchers)
    {
      var i := 0;
      while i < |fileWatchers|
        invariant 0 <= i <= |fileWatchers|
        invariant forall j :: 0 <= j < i ==> fileWatchers[j].disposed
        invariant trace == old(trace) + Disposals(fileWatchers[..i])
      {
        var fw := fileWatchers[i];
        fw.Dispose();
        trace := trace + [WatcherDisposed(fw)];
        assert fileWatchers[..i + 1][..i] == fileWatchers[..i];
        i := i + 1;
      }
      assert fileWatchers[..i] == fileWatchers;
    }

    /** `open`: disposes the existing watchers, appends one new watcher per
        pattern of `files` (`made`) with the three ignore flags, then runs
        one build with no event. */
    method Open(kindOf: string -> PathKind, taskNames: seq<string>,
                running: seq<Execution>, later: seq<seq<Execution>>) returns (ghost made: seq<FileSystemWatcher>)
      requires Valid()
      modifies this`fileWatchers, this`trace, this`waitForRunningTask, set w | w in fileWatchers
      ensures Valid()
      ensures forall w :: w in old(fileWatchers) ==> w.disposed
      ensures fileWatchers == old(fileWatchers) + made
      ensures NewWatchers(made, workspaceRoot, PatternsOf(taskDefinition), taskDefinition)
      ensures forall k :: 0 <= k < |made| ==> fresh(made[k]) && !made[k].disposed
      ensures var o := Flow(taskDefinition, old(waitForRunningTask), None, kindOf, taskNames, running, later);
        && trace == old(trace) + Disposals(old(fileWatchers)) + Creations(made) + o.actions
        && waitForRunningTask == o.waiting
    {
      made := Rewatch();
      DoBuild(None, kindOf, taskNames, running, later);
    }

    /** The watcher half of `open`. */
    method Rewatch() returns (ghost made: seq<FileSystemWatcher>)
      requires Valid()
      modifies this`fileWatchers, this`trace, set w | w in fileWatchers
      ensures forall w :: w in old(fileWatchers) ==> w.disposed
      ensures fileWatchers == old(fileWatchers) + made
      ensures NewWatchers(made, workspaceRoot, PatternsOf(taskDefinition), taskDefinition)
      ensures forall k :: 0 <= k < |made| ==> fresh(made[k]) && !made[k].disposed
      ensures trace == old(trace) + Disposals(old(fileWatchers)) + Creations(made)
    {
      Close();
      // The merged definition always holds a `files` array, so the
      // fallback to the default patterns is never taken.
      assert Truthy(Lookup(taskDefinition, "files"));
      made := WatchAll(PatternsOf(taskDefinition));
    }

    /** The loop of `open` over the patterns: one new watcher each, appended
        in order. */
    method WatchAll(patterns: seq<string>) returns (ghost made: seq<FileSystemWatcher>)
      modifies this`fileWatchers, this`trace
      ensures fileWatchers == old(fileWatchers) + made
      ensures NewWatchers(made, workspaceRoot, patterns, taskDefinition)
      ensures forall k :: 0 <= k < |made| ==> fresh(made[k]) && !made[k].disposed
      ensures trace == old(trace) + Creations(made)
    {
      made := [];
      var i := 0;
      while i < |patterns|
        invariant 0 <= i <= |patterns| && |made| == i
        invariant fileWatchers == old(fileWatchers) + made
        invariant forall k :: 0 <= k < i ==> fresh(made[k]) && !made[k].disposed
        invariant forall k :: 0 <= k < i ==> Watches(made[k], Join(workspaceRoot, patterns[k]), taskDefinition)
        invariant trace == old(trace) + Creations(made)
      {
        var fw := Watch(patterns[i]);
        assert (made + [fw])[..i] == made;
        made := made + [fw];
        i := i + 1;
      }
    }

    /** One iteration of that loop: a watcher on the pattern under the
        workspace root, with the definition's ignore flags, pushed onto the
        list. */
    method Watch(pattern: string) returns (fw: FileSystemWatcher)
      modifies this`fileWatchers, this`trace
      ensures fresh(fw) && !fw.disposed && Watches(fw, Join(workspaceRoot, pattern), taskDefinition)
      ensures fileWatchers == old(fileWatchers) + [fw] && trace == old(trace) + [WatcherCreated(fw)]
    {
      fw := new FileSystemWatcher(Join(workspaceRoot, pattern),
                                  Truthy(Lookup(taskDefinition, "ignoreCreateEvents")),
                                  Truthy(Lookup(taskDefinition, "ignoreChangeEvents")),
                                  Truthy(Lookup(taskDefinition, "ignoreDeleteEvents")));
      fileWatchers := fileWatchers + [fw];
      trace := trace + [WatcherCreated(fw)];
    }

    /** `doBuild(e, action)` for one event (or none, the bootstrap build):
        its effects and the new `waitForRunningTask` are those of `Flow`. */
    method DoBuild(event: Option<FsEvent>, kindOf: string -> PathKind, taskNames: seq<string>,
                   running: seq<Execution>, later: seq<seq<Execution>>)
      requires Valid()
      modifies this`trace, this`waitForRunningTask
      ensures Valid()
      ensures var o := Flow(taskDefinition, old(waitForRunningTask), event, kindOf, taskNames, running, later);
        trace == old(trace) + o.actions && waitForRunningTask == o.waiting
    {
      var abort, message := Message(event, kindOf);
      if abort {
        return;
      }
      if waitForRunningTask {
        message := message + [WaitingForRunning];
        trace := trace + [Write(message)];
        return;
      }
      trace := trace + [Write(message)];

      var target := TargetOf(taskDefinition);
      if target in taskNames {
        RunPolicy([running] + later);
        Associative(old(trace), [Write(message)], Settlement(taskDefinition, [running] + later).actions);
      } else {
        trace := trace + [Write([NotFound(target)])];
        assert trace == old(trace) + [Write(message), Write([NotFound(target)])];
      }
    }

    /** The message `doBuild` opens with: the rule, then what happened to
        which path. A directory event under `onlyFiles` stops the build. */
    method Message(event: Option<FsEvent>, kindOf: string -> PathKind) returns (abort: bool, message: seq<Line>)
      ensures var a := Describe(Truthy(Lookup(taskDefinition, "onlyFiles")), event, kindOf);
        abort == a.Abort? && (!abort ==> message == [Rule] + a.lines)
    {
      abort := false;
      message := [Rule];
      if event.Some? {
        var e := event.value;
        if e.kind != Deleted {
          var stats := kindOf(e.path);
          if stats == File {
            message := message + [FileWas(e.path, Word(e.kind))];
          } else if stats == Directory {
            if Truthy(Lookup(taskDefinition, "onlyFiles")) {
              return true, message;
            }
            message := message + [DirectoryWas(e.path, Word(e.kind))];
          }
        } else {
          message := message + [EntryWas(e.path, Word(e.kind))];
        }
      } else {
        message := message + [FirstTime];
      }
    }

    /** The do-while loop over the running executions and the final run.
        `snaps` holds what each pass sees; when they run out while the flow
        still waits, it is left suspended in its sleep with
        `waitForRunningTask` set. */
    method RunPolicy(snaps: seq<seq<Execution>>)
      requires Valid()
      requires snaps != []
      modifies this`trace, this`waitForRunningTask
      ensures Valid()
      ensures var o := Settlement(taskDefinition, snaps);
        trace == old(trace) + o.actions && waitForRunningTask == o.waiting
    {
      var target := TargetOf(taskDefinition);
      var exited, cancelled := Loop(snaps, PolicyOf(taskDefinition), target, ThrottleOf(taskDefinition));
      if exited && !cancelled {
        trace := trace + [Write([Running(target)]), Execute(target)];
      }
    }

    /** The do-while loop itself: it goes on while a pass leaves
        `waitForRunningTask` set. */
    method Loop(snaps: seq<seq<Execution>>, policy: Policy, target: string, throttle: int) returns (exited: bool, cancelled: bool)
      requires snaps != []
      modifies this`trace, this`waitForRunningTask
      ensures var r := PolicyLoop(policy, target, throttle, snaps, false);
        && trace == old(trace) + r.actions && exited == r.exited && cancelled == r.cancelled
        && waitForRunningTask == !r.exited
    {
      ghost var full := PolicyLoop(policy, target, throttle, snaps, false);
      ghost var acc: seq<Action> := [];
      var runTask := true;
      var looping := true;
      var i := 0;
      assert snaps[0..] == snaps;
      while looping && i < |snaps|
        invariant 0 <= i <= |snaps|
        invariant trace == old(trace) + acc
        invariant i == 0 ==> looping
        invariant i > 0 ==> waitForRunningTask == looping
        invariant looping ==> Continues(acc, PolicyLoop(policy, target, throttle, snaps[i..], !runTask), full)
        invariant !looping ==> acc == full.actions && full.exited && full.cancelled == !runTask
      {
        ghost var done := PassActions(policy, target, throttle, snaps[i]);
        Advance(policy, target, throttle, snaps, i, !runTask, acc, full);
        runTask := Pass(snaps[i], policy, target, throttle, runTask);
        Associative(old(trace), acc, done);
        acc := acc + done;
        looping := waitForRunningTask;
        i := i + 1;
      }
      exited := !looping;
      cancelled := !runTask;
    }

    /** One pass of the do-while loop: clear the flag, go over the running
        executions, and sleep when the flag came back set. */
    method Pass(execs: seq<Execution>, policy: Policy, target: string, throttle: int, runTask: bool) returns (run: bool)
      modifies this`trace, this`waitForRunningTask
      ensures var s := Sweep(policy, target, execs);
        && trace == old(trace) + PassActions(policy, target, throttle, execs)
        && waitForRunningTask == s.wait && run == (runTask && !s.cancel)
    {
      waitForRunningTask := false;
      run := ForEachRunning(execs, policy, target, runTask);
      if waitForRunningTask {
        trace := trace + [Write([WaitingSeconds(throttle, target)])];
      }
    }

    /** The `forEach` over the running executions of one pass: under
        terminate and restart a message and a terminate for each execution
        of the target (terminate also cancels the run); under batch, the
        flag that makes the loop wait. */
    method ForEachRunning(execs: seq<Execution>, policy: Policy, target: string, runTask: bool) returns (run: bool)
      requires !waitForRunningTask
      modifies this`trace, this`waitForRunningTask
      ensures var s := Sweep(policy, target, execs);
        trace == old(trace) + s.actions && waitForRunningTask == s.wait && run == (runTask && !s.cancel)
    {
      run := runTask;
      var j := 0;
      while j < |execs|
        invariant 0 <= j <= |execs|
        invariant var s := Sweep(policy, target, execs[..j]);
          trace == old(trace) + s.actions && waitForRunningTask == s.wait && run == (runTask && !s.cancel)
      {
        var te := execs[j];
        if te.taskName == target {
          if policy == TerminatePolicy {
            trace := trace + [Write([Terminating(target)]), Terminate(te.id)];
            run := false;
          } else if policy == RestartPolicy {
            trace := trace + [Write([Restarting(target)]), Terminate(te.id)];
          } else if policy == BatchPolicy {
            waitForRunningTask := true;
          }
        }
        assert execs[..j + 1][..j] == execs[..j];
        j := j + 1;
      }
      assert execs[..j] == execs;
    }
  }
}
