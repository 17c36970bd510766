/**
 * `run_runners`: the selected runners are executed one after another, the concurrent ones are
 * tracked, and the tracked children are polled until one flagged `end_all_on_exit` has exited,
 * at which point every child still running has its process tree terminated.
 */
module Supervisor {
  import opened Wrappers
  import opened Errors
  import opened Runners
  import opened ProcessTree

  /** `Runner::should_run`'s answer. */
  datatype ShouldRun = Yes | No(reason: string)

  /** A spawned child process; it may have no id (already reaped). */
  datatype Child = Child(id: Option<nat>)

  /** `should_run` and `exec` belong to the runner module, which is not part of this model. */
  type ShouldRunOracle = Runner -> Result<ShouldRun, Error>
  type ExecOracle = Runner -> Result<Option<Child>, Error>

  /** `RunnerConcurrentSpawn`: a child to watch. */
  datatype Tracked = Tracked(name: string, child: Child, endAllOnExit: bool)

  /** What the run reports, in order. */
  datatype Event = NoRunnersFound(query: string) | Skipped(runner: string, reason: string) | Executed(runner: string)

  /** The batch loop's result: its events, the tracked children, and the error that stopped it, if any. */
  datatype Batch = Batch(log: seq<Event>, tracked: seq<Tracked>, failure: Option<Error>)

  /** The error that processing runner `r` raises, if any: from `should_run`, or from `exec` when it should run. */
  function RunnerFailure(r: Runner, sr: ShouldRunOracle, ex: ExecOracle): Option<Error>
  {
    match sr(r)
    case Err(e) => Some(e)
    case Ok(No(_)) => None
    case Ok(Yes) => if ex(r).Err? then Some(ex(r).error) else None
  }

  /** The batch loop over `rs`, stopping at the first error. */
  function BatchFrom(rs: seq<Runner>, sr: ShouldRunOracle, ex: ExecOracle): Batch
    decreases |rs|
  {
    if rs == [] then Batch([], [], None)
    else
      var r := rs[0];
      match sr(r)
      case Err(e) => Batch([], [], Some(e))
      case Ok(No(reason)) =>
        var b := BatchFrom(rs[1..], sr, ex);
        Batch([Skipped(r.name, reason)] + b.log, b.tracked, b.failure)
      case Ok(Yes) =>
        match ex(r)
        case Err(e) => Batch([], [], Some(e))
        case Ok(child) =>
          var b := BatchFrom(rs[1..], sr, ex);
          Batch([Executed(r.name)] + b.log,
                (if child.Some? then [Tracked(r.name, child.value, r.endAllOnExit)] else []) + b.tracked,
                b.failure)
  }

  /** The batch of the runners after some already processed into `log` and `tracked`. */
  function After(log: seq<Event>, tracked: seq<Tracked>, rest: Batch): Batch
  {
    Batch(log + rest.log, tracked + rest.tracked, rest.failure)
  }

  /** Two stretches of processed runners in a row. */
  lemma AfterAfter(log: seq<Event>, tracked: seq<Tracked>, log': seq<Event>, tracked': seq<Tracked>, rest: Batch)
    ensures After(log, tracked, After(log', tracked', rest)) == After(log + log', tracked + tracked', rest)
  {
  }

  /** The tracked entry, if any, of a runner that did not fail. */
  function SpawnOf(r: Runner, sr: ShouldRunOracle, ex: ExecOracle): seq<Tracked>
  {
    if sr(r) == Ok(Yes) && ex(r).Ok? && ex(r).value.Some? then [Tracked(r.name, ex(r).value.value, r.endAllOnExit)] else []
  }

  /** One runner of the batch: its failure stops the batch, otherwise its event and entry come first. */
  lemma BatchStep(rs: seq<Runner>, sr: ShouldRunOracle, ex: ExecOracle)
    requires rs != []
    ensures RunnerFailure(rs[0], sr, ex).Some? ==> BatchFrom(rs, sr, ex) == Batch([], [], RunnerFailure(rs[0], sr, ex))
    ensures RunnerFailure(rs[0], sr, ex).None? ==>
              BatchFrom(rs, sr, ex) == After([Decision(rs[0], sr)], SpawnOf(rs[0], sr, ex), BatchFrom(rs[1..], sr, ex))
  {
  }

  /** The event of a runner that did not fail: skipped with `should_run`'s reason, or executed. */
  function Decision(r: Runner, sr: ShouldRunOracle): Event
  {
    if sr(r).Ok? && sr(r).value.No? then Skipped(r.name, sr(r).value.reason) else Executed(r.name)
  }

  /** The runners whose `exec` returned a child, in order, with their flags. */
  function Spawned(rs: seq<Runner>, sr: ShouldRunOracle, ex: ExecOracle): seq<Tracked>
    decreases |rs|
  {
    if rs == [] then []
    else if sr(rs[0]) == Ok(Yes) && ex(rs[0]).Ok? && ex(rs[0]).value.Some? then
      [Tracked(rs[0].name, ex(rs[0]).value.value, rs[0].endAllOnExit)] + Spawned(rs[1..], sr, ex)
    else Spawned(rs[1..], sr, ex)
  }

  /**
   * The batch loop stops at the first runner that fails and only there: a skip never stops it.
   * Each runner before the stop has one event, a skip or an execution, depending on that runner
   * alone; without a failure the tracked children are exactly the spawned ones, in order.
   */
  lemma {:induction false} BatchSpec(rs: seq<Runner>, sr: ShouldRunOracle, ex: ExecOracle)
    ensures var b := BatchFrom(rs, sr, ex);
            b.failure.None? <==> forall i :: 0 <= i < |rs| ==> RunnerFailure(rs[i], sr, ex).None?
    ensures var b := BatchFrom(rs, sr, ex);
            b.failure.Some? ==>
              && |b.log| < |rs|
              && RunnerFailure(rs[|b.log|], sr, ex) == b.failure
              && forall i :: 0 <= i < |b.log| ==> RunnerFailure(rs[i], sr, ex).None?
    ensures var b := BatchFrom(rs, sr, ex);
            b.failure.None? ==> |b.log| == |rs| && b.tracked == Spawned(rs, sr, ex)
    ensures var b := BatchFrom(rs, sr, ex);
            forall i :: 0 <= i < |b.log| ==> b.log[i] == Decision(rs[i], sr)
    decreases |rs|
  {
    if rs != [] {
      BatchStep(rs, sr, ex);
      if RunnerFailure(rs[0], sr, ex).None? {
        BatchSpec(rs[1..], sr, ex);
        var b := BatchFrom(rs, sr, ex);
        var b' := BatchFrom(rs[1..], sr, ex);
        assert |b.log| == |b'.log| + 1;
        forall i | 1 <= i < |rs| ensures rs[i] == rs[1..][i - 1] { }
        forall i | 0 <= i < |b.log| ensures b.log[i] == Decision(rs[i], sr) {
          if i > 0 {
            assert b.log[i] == b'.log[i - 1];
          }
        }
      }
    }
  }


  /** A spawned entry comes from a runner that should run and whose `exec` returned that child. */
  lemma {:induction false} SpawnedMembers(rs: seq<Runner>, sr: ShouldRunOracle, ex: ExecOracle, t: Tracked)
    ensures t in Spawned(rs, sr, ex) <==>
              exists i :: 0 <= i < |rs| && sr(rs[i]) == Ok(Yes) && ex(rs[i]) == Ok(Some(t.child))
                          && t.name == rs[i].name && t.endAllOnExit == rs[i].endAllOnExit
    ensures |Spawned(rs, sr, ex)| <= |rs|
    decreases |rs|
  {
    if rs != [] {
      SpawnedMembers(rs[1..], sr, ex, t);
      if t in Spawned(rs[1..], sr, ex) {
        var i :| 0 <= i < |rs[1..]| && sr(rs[1..][i]) == Ok(Yes) && ex(rs[1..][i]) == Ok(Some(t.child))
                 && t.name == rs[1..][i].name && t.endAllOnExit == rs[1..][i].endAllOnExit;
        assert rs[i + 1] == rs[1..][i];
      }
      forall i | 1 <= i < |rs| ensures rs[i] == rs[1..][i - 1] { }
    }
  }

  /**
   * The first loop of `run_runners`: each runner in order is skipped or executed, and a child
   * returned by `exec` is tracked; an error from `should_run` or `exec` ends the batch.
   */
  method ExecRunners(rs: seq<Runner>, sr: ShouldRunOracle, ex: ExecOracle) returns (b: Batch)
    ensures b == BatchFrom(rs, sr, ex)
  {
    var log: seq<Event> := [];
    var childrenToWatch: seq<Tracked> := [];
    for k := 0 to |rs|
      invariant BatchFrom(rs, sr, ex) == After(log, childrenToWatch, BatchFrom(rs[k..], sr, ex))
    {
      assert rs[k..][0] == rs[k] && rs[k..][1..] == rs[k + 1..];
      BatchStep(rs[k..], sr, ex);
      ghost var rest := BatchFrom(rs[k + 1..], sr, ex);
      var runner := rs[k];
      var shouldRun := sr(runner);
      if shouldRun.Err? {
        return Batch(log, childrenToWatch, Some(shouldRun.error));
      }
      match shouldRun.value {
        case No(reason) =>
          AfterAfter(log, childrenToWatch, [Skipped(runner.name, reason)], [], rest);
          log := log + [Skipped(runner.name, reason)];
        case Yes =>
          var child := ex(runner);
          if child.Err? {
            return Batch(log, childrenToWatch, Some(child.error));
          }
          AfterAfter(log, childrenToWatch, [Executed(runner.name)], SpawnOf(runner, sr, ex), rest);
          log := log + [Executed(runner.name)];
          if child.value.Some? {
            childrenToWatch := childrenToWatch + [Tracked(runner.name, child.value.value, runner.endAllOnExit)];
          }
      }
    }
    assert rs[|rs|..] == [];
    b := Batch(log, childrenToWatch, None);
  }


  /** What `try_wait` reports for a child. */
  datatype Status = Running | Exited | WaitFailed

  /** The environment of one `terminate_process_tree` call: the process snapshot and whether the root kill fails. */
  datatype KillEnv = KillEnv(snapshot: Snapshot, rootKillFails: bool)

  /**
   * One turn of the watch loop, as the OS answers it: the status of each tracked child (by
   * position) in the first pass, again in the second pass, and the kill environment of each.
   */
  datatype Round = Round(first: nat -> Status, second: nat -> Status, env: nat -> KillEnv)

  /**
   * The first pass of a turn from position `i` on: an error if any `try_wait` fails, else whether
   * some exited child carries `end_all_on_exit`.
   */
  function EndAllFrom(tracked: seq<Tracked>, status: nat -> Status, i: nat): (r: Result<bool, Error>)
    ensures r.Err? <==> exists j :: i <= j < |tracked| && status(j) == WaitFailed
    ensures r.Err? ==> r.error == Io
    ensures r == Ok(true) <==> (forall j :: i <= j < |tracked| ==> status(j) != WaitFailed)
                               && exists j :: i <= j < |tracked| && status(j) == Exited && tracked[j].endAllOnExit
    decreases |tracked| - i
  {
    if i >= |tracked| then Ok(false)
    else if status(i) == WaitFailed then Err(Io)
    else match EndAllFrom(tracked, status, i + 1)
      case Err(e) => Err(e)
      case Ok(b) => Ok(b || (status(i) == Exited && tracked[i].endAllOnExit))
  }

  /** The first pass of the watch loop: `try_wait` on every tracked child, setting `end_all`. */
  method PollChildren(tracked: seq<Tracked>, status: nat -> Status) returns (r: Result<bool, Error>)
    ensures r == EndAllFrom(tracked, status, 0)
  {
    var endAll := false;
    for i := 0 to |tracked|
      invariant EndAllFrom(tracked, status, 0) ==
                  match EndAllFrom(tracked, status, i)
                  case Err(e) => Err(e)
                  case Ok(b) => Ok(endAll || b)
    {
      if status(i) == WaitFailed {
        return Err(Io);
      }
      if status(i) == Exited && tracked[i].endAllOnExit {
        endAll := true;
      }
    }
    r := Ok(endAll);
  }

  /**
   * The second pass from position `i` on, once `end_all` holds: the positions of the children
   * still running, to be terminated, up to the first `try_wait` failure, which ends the run.
   */
  function CascadeFrom(tracked: seq<Tracked>, status: nat -> Status, i: nat): (seq<nat>, Option<Error>)
    decreases |tracked| - i
  {
    if i >= |tracked| then ([], None)
    else match status(i)
      case WaitFailed => ([], Some(Io))
      case Exited => CascadeFrom(tracked, status, i + 1)
      case Running =>
        var c := CascadeFrom(tracked, status, i + 1);
        ([i] + c.0, c.1)
  }

  /**
   * The children terminated from position `i` on are exactly those still running before the
   * first failed `try_wait`, in increasing order; the pass fails exactly when some `try_wait` fails.
   */
  lemma {:induction false} CascadeFromSpec(tracked: seq<Tracked>, status: nat -> Status, i: nat)
    ensures var r := CascadeFrom(tracked, status, i);
            forall t :: t in r.0 <==> i <= t < |tracked| && status(t) == Running
                                      && forall j :: i <= j < t ==> status(j) != WaitFailed
    ensures var r := CascadeFrom(tracked, status, i);
            && (forall a :: 0 <= a < |r.0| ==> i <= r.0[a])
            && (forall a, b :: 0 <= a < b < |r.0| ==> r.0[a] < r.0[b])
    ensures var r := CascadeFrom(tracked, status, i);
            && (r.1.Some? <==> exists j :: i <= j < |tracked| && status(j) == WaitFailed)
            && (r.1.Some? ==> r.1.value == Io)
    decreases |tracked| - i
  {
    if i < |tracked| && status(i) != WaitFailed {
      CascadeFromSpec(tracked, status, i + 1);
      var c := CascadeFrom(tracked, status, i + 1);
      if status(i) == Running {
        assert forall a :: 0 < a < |c.0| + 1 ==> ([i] + c.0)[a] == c.0[a - 1];
      }
    }
  }

  /** One `terminate_process_tree` call of the second pass. */
  datatype Termination = Termination(index: nat, runner: string, kills: seq<Kill>)

  /** `t` terminates the tree of the tracked child at its index, sending what `terminate_process_tree` sends. */
  ghost predicate TreeTerminated(t: Termination, tracked: seq<Tracked>, env: nat -> KillEnv)
  {
    && t.index < |tracked|
    && t.runner == tracked[t.index].name
    && TreeKilled(t.kills, tracked[t.index].name, tracked[t.index].child.id, env(t.index).snapshot, env(t.index).rootKillFails)
  }

  /** `terms` are the terminations of the children at `targets`, in that order. */
  ghost predicate Terminated(terms: seq<Termination>, targets: seq<nat>, tracked: seq<Tracked>, env: nat -> KillEnv)
  {
    && |terms| == |targets|
    && forall k :: 0 <= k < |terms| ==> terms[k].index == targets[k] && TreeTerminated(terms[k], tracked, env)
  }

  /** One more termination, of the child at `i`. */
  lemma TerminatedSnoc(terms: seq<Termination>, targets: seq<nat>, t: Termination, tracked: seq<Tracked>, env: nat -> KillEnv)
    requires Terminated(terms, targets, tracked, env)
    requires TreeTerminated(t, tracked, env)
    ensures Terminated(terms + [t], targets + [t.index], tracked, env)
  {
  }

  /** The second pass of the watch loop: every child that `try_wait` still finds running is terminated. */
  method Cascade(tracked: seq<Tracked>, status: nat -> Status, env: nat -> KillEnv) returns (terms: seq<Termination>, failure: Option<Error>)
    ensures failure == CascadeFrom(tracked, status, 0).1
    ensures Terminated(terms, CascadeFrom(tracked, status, 0).0, tracked, env)
  {
    terms := [];
    ghost var targets: seq<nat> := [];
    for i := 0 to |tracked|
      invariant CascadeFrom(tracked, status, 0).0 == targets + CascadeFrom(tracked, status, i).0
      invariant CascadeFrom(tracked, status, 0).1 == CascadeFrom(tracked, status, i).1
      invariant Terminated(terms, targets, tracked, env)
    {
      var s := status(i);
      if s == WaitFailed {
        return terms, Some(Io);
      }
      if s == Running {
        var t := tracked[i];
        var kills := TerminateProcessTree(t.name, t.child.id, env(i).snapshot, env(i).rootKillFails);
        TerminatedSnoc(terms, targets, Termination(i, t.name, kills), tracked, env);
        terms := terms + [Termination(i, t.name, kills)];
        targets := targets + [i];
      }
    }
    failure := None;
  }

  /** How supervision ends: normally, with an error, or still polling when the observed turns run out. */
  datatype End = Finished | Failed(error: Error) | StillWatching

  /** The first turn from `k` on whose first pass does not leave `end_all` false, if any. */
  function Deciding(tracked: seq<Tracked>, rounds: seq<Round>, k: nat): (r: Option<nat>)
    ensures r.Some? ==> k <= r.value < |rounds| && EndAllFrom(tracked, rounds[r.value].first, 0) != Ok(false)
                        && forall j :: k <= j < r.value ==> EndAllFrom(tracked, rounds[j].first, 0) == Ok(false)
    ensures r.None? ==> forall j :: k <= j < |rounds| ==> EndAllFrom(tracked, rounds[j].first, 0) == Ok(false)
    decreases |rounds| - k
  {
    if k >= |rounds| then None
    else if EndAllFrom(tracked, rounds[k].first, 0) != Ok(false) then Some(k)
    else Deciding(tracked, rounds, k + 1)
  }

  /** How the watch loop ends over the turns `rounds`, and the positions of the children it terminates. */
  function WatchFrom(tracked: seq<Tracked>, rounds: seq<Round>): (End, seq<nat>)
  {
    if tracked == [] then (Finished, [])
    else match Deciding(tracked, rounds, 0)
      case None => (StillWatching, [])
      case Some(j) =>
        match EndAllFrom(tracked, rounds[j].first, 0)
        case Err(e) => (Failed(e), [])
        case Ok(_) =>
          var c := CascadeFrom(tracked, rounds[j].second, 0);
          (if c.1.Some? then Failed(c.1.value) else Finished, c.0)
  }

  /**
   * The watch loop: it is left at the first turn that fails or sets `end_all`; it only
   * terminates children when some tracked child exited with `end_all_on_exit` set, and then only
   * children the second pass found running; it keeps polling exactly while no turn decides.
   */
  lemma WatchSpec(tracked: seq<Tracked>, rounds: seq<Round>)
    ensures WatchFrom(tracked, rounds).0 == StillWatching <==>
              tracked != [] && forall j :: 0 <= j < |rounds| ==> EndAllFrom(tracked, rounds[j].first, 0) == Ok(false)
    ensures WatchFrom(tracked, rounds).0.Failed? ==> WatchFrom(tracked, rounds).0.error == Io
    ensures WatchFrom(tracked, rounds).1 != [] ==>
              exists j, i :: 0 <= j < |rounds| && 0 <= i < |tracked| && rounds[j].first(i) == Exited && tracked[i].endAllOnExit
    ensures forall t :: t in WatchFrom(tracked, rounds).1 ==>
              t < |tracked| && exists j :: 0 <= j < |rounds| && rounds[j].second(t) == Running
    // both facts are seen in the turn that decides the watch
    ensures WatchFrom(tracked, rounds).1 != [] ==>
              Deciding(tracked, rounds, 0).Some? && Deciding(tracked, rounds, 0).value < |rounds|
    ensures WatchFrom(tracked, rounds).1 != [] ==>
              var j := Deciding(tracked, rounds, 0).value;
              (exists i :: 0 <= i < |tracked| && rounds[j].first(i) == Exited && tracked[i].endAllOnExit)
              && forall t :: t in WatchFrom(tracked, rounds).1 ==> t < |tracked| && rounds[j].second(t) == Running
  {
    if tracked != [] {
      match Deciding(tracked, rounds, 0)
      case None =>
      case Some(j) =>
        CascadeFromSpec(tracked, rounds[j].second, 0);
        if EndAllFrom(tracked, rounds[j].first, 0).Ok? {
          assert EndAllFrom(tracked, rounds[j].first, 0) == Ok(true);
        }
    }
  }

  /**
   * The watch loop of `run_runners`: nothing to do without tracked children; otherwise poll every
   * turn, and at the first turn that sets `end_all` terminate the children still running and stop.
   */
  method Watch(tracked: seq<Tracked>, rounds: seq<Round>) returns (end: End, terms: seq<Termination>)
    ensures end == WatchFrom(tracked, rounds).0
    ensures tracked != [] && Deciding(tracked, rounds, 0).Some? ==>
              Terminated(terms, WatchFrom(tracked, rounds).1, tracked, rounds[Deciding(tracked, rounds, 0).value].env)
    ensures tracked == [] || Deciding(tracked, rounds, 0).None? ==> terms == []
  {
    terms := [];
    if tracked == [] {
      return Finished, [];
    }
    var k := 0;
    while k < |rounds|
      invariant 0 <= k <= |rounds|
      invariant Deciding(tracked, rounds, 0) == Deciding(tracked, rounds, k)
    {
      var endAll := PollChildren(tracked, rounds[k].first);
      if endAll.Err? {
        return Failed(endAll.error), [];
      }
      if endAll.value {
        var failure;
        terms, failure := Cascade(tracked, rounds[k].second, rounds[k].env);
        end := if failure.Some? then Failed(failure.value) else Finished;
        return;
      }
      k := k + 1;
    }
    end := StillWatching;
  }

  /** How `run_runners` ends: the batch's error, else how the watch ends. */
  function RunEnd(rs: seq<Runner>, sr: ShouldRunOracle, ex: ExecOracle, rounds: seq<Round>): End
  {
    var b := BatchFrom(rs, sr, ex);
    if b.failure.Some? then Failed(b.failure.value) else WatchFrom(b.tracked, rounds).0
  }

  /** `run_runners`: the batch, then, when it did not fail, the watch over its tracked children. */
  method RunRunners(rs: seq<Runner>, sr: ShouldRunOracle, ex: ExecOracle, rounds: seq<Round>)
    returns (log: seq<Event>, terms: seq<Termination>, end: End)
    ensures log == BatchFrom(rs, sr, ex).log
    ensures end == RunEnd(rs, sr, ex, rounds)
    ensures var b := BatchFrom(rs, sr, ex);
            b.failure.Some? || b.tracked == [] || Deciding(b.tracked, rounds, 0).None? ==> terms == []
    ensures var b := BatchFrom(rs, sr, ex);
            b.failure.None? && b.tracked != [] && Deciding(b.tracked, rounds, 0).Some? ==>
              Terminated(terms, WatchFrom(b.tracked, rounds).1, b.tracked, rounds[Deciding(b.tracked, rounds, 0).value].env)
  {
    var b := ExecRunners(rs, sr, ex);
    log := b.log;
    if b.failure.Some? {
      return log, [], Failed(b.failure.value);
    }
    end, terms := Watch(b.tracked, rounds);
  }
}
