/** The importer's worker pool (each, importer/importer.go) in every interleaving:
    when it returns nil, the function was called once on every item and always
    succeeded; otherwise it reports the first failure or the caller's cancellation. */
module WorkerPool {
  import opened Wrappers

  datatype Worker = Idle | Running(item: nat) | Failing(item: nat) | Exited

  datatype Result = Nil | FirstError(item: nat) | Cancelled

  datatype State = State(
    fed: nat,                 // items handed to a worker
    closed: bool,             // the jobs channel
    workers: seq<Worker>,
    cancelled: bool,          // the pool's context
    outer: bool,              // the caller's context
    err: Option<nat>,         // the item that failed first
    finished: seq<nat>,       // items whose call returned nil, in that order
    failed: set<nat>,
    returned: Option<Result>)

  datatype Step =
    | Feed(w: nat) | Succeed(w: nat) | Fail(w: nat) | Record(w: nat) | Exit(w: nat)
    | Break | Close | Return | OuterCancel

  ghost predicate Init(s: State, workers: nat) {
    s == State(0, false, seq(workers, _ => Idle), false, false, None, [], {}, None)
  }

  predicate WorkerAt(s: State, w: nat) { w < |s.workers| }

  ghost predicate AllExited(s: State) {
    forall w :: 0 <= w < |s.workers| ==> s.workers[w].Exited?
  }

  ghost predicate Enabled(s: State, items: nat, step: Step) {
    match step
    case Feed(w) => WorkerAt(s, w) && s.workers[w].Idle? && !s.closed && s.fed < items
    case Succeed(w) => WorkerAt(s, w) && s.workers[w].Running?
    case Fail(w) => WorkerAt(s, w) && s.workers[w].Running?
    case Record(w) => WorkerAt(s, w) && s.workers[w].Failing?
    case Exit(w) => WorkerAt(s, w) && s.workers[w].Idle? && s.closed
    case Break => !s.closed && s.fed < items && s.cancelled
    case Close => !s.closed && s.fed == items
    case Return => s.returned.None? && s.closed && AllExited(s)
    case OuterCancel => true
  }

  ghost function Next(s: State, items: nat, step: Step): State
    requires Enabled(s, items, step)
  {
    match step
    case Feed(w) => s.(workers := s.workers[w := Running(s.fed)], fed := s.fed + 1)
    case Succeed(w) => s.(workers := s.workers[w := Idle], finished := s.finished + [s.workers[w].item])
    case Fail(w) => s.(workers := s.workers[w := Failing(s.workers[w].item)], failed := s.failed + {s.workers[w].item})
    case Record(w) =>
      var n := s.(workers := s.workers[w := Idle]);
      if s.err.Some? then n else n.(err := Some(s.workers[w].item), cancelled := true)
    case Exit(w) => s.(workers := s.workers[w := Exited])
    case Break => s.(closed := true)
    case Close => s.(closed := true)
    case Return =>
      s.(returned := Some(if s.err.Some? then FirstError(s.err.value) else if s.cancelled then Cancelled else Nil))
    case OuterCancel => s.(outer := true, cancelled := true)
  }

  // ---- The invariant ----------------------------------------------------------------

  predicate RunningAt(workers: seq<Worker>, w: nat, i: nat) { w < |workers| && workers[w] == Running(i) }

  predicate FailingAt(workers: seq<Worker>, w: nat, i: nat) { w < |workers| && workers[w] == Failing(i) }

  /** A fed item is with exactly one worker, finished or failed. */
  ghost predicate Placed(workers: seq<Worker>, fed: nat, finished: seq<nat>, failed: set<nat>) {
    && (forall w: nat, i: nat :: RunningAt(workers, w, i) ==> i < fed && i !in finished && i !in failed)
    && (forall v: nat, w: nat, i: nat :: RunningAt(workers, v, i) && RunningAt(workers, w, i) ==> v == w)
    && (forall i :: i in finished ==> i < fed && i !in failed)
    && (forall i :: i in failed ==> i < fed)
    && (forall j, k :: 0 <= j < k < |finished| ==> finished[j] != finished[k])
    && (forall i: nat :: i < fed ==> i in finished || i in failed || exists w: nat :: RunningAt(workers, w, i))
  }

  ghost predicate Items(s: State) { Placed(s.workers, s.fed, s.finished, s.failed) }

  /** A failure is recorded or about to be, and a cancellation has a cause. */
  ghost predicate Causes(s: State) {
    && (forall i :: i in s.failed && s.err.None? ==> exists w: nat :: FailingAt(s.workers, w, i))
    && (forall w: nat, i: nat :: FailingAt(s.workers, w, i) ==> i in s.failed)
    && (s.err.Some? ==> s.cancelled && s.err.value in s.failed)
    && (s.cancelled ==> s.outer || s.err.Some?)
  }

  ghost predicate Progress(s: State, items: nat) {
    && s.fed <= items && (s.closed ==> s.cancelled || s.fed == items)
    && (forall w :: 0 <= w < |s.workers| && s.workers[w].Exited? ==> s.closed)
    && (s.returned.Some? ==> s.closed && AllExited(s))
    && (s.returned == Some(Nil) ==> s.fed == items && s.failed == {})
    && (s.returned.Some? && s.returned.value.FirstError? ==> s.err == Some(s.returned.value.item))
    && (s.returned == Some(Cancelled) ==> s.outer)
  }

  ghost predicate Inv(s: State, items: nat) { Items(s) && Causes(s) && Progress(s, items) }

  lemma {:induction false} PlacedFeed(workers: seq<Worker>, fed: nat, finished: seq<nat>, failed: set<nat>, w: nat)
    requires Placed(workers, fed, finished, failed) && w < |workers| && workers[w].Idle?
    ensures Placed(workers[w := Running(fed)], fed + 1, finished, failed)
  {
    var now := workers[w := Running(fed)];
    assert RunningAt(now, w, fed);
    assert forall v: nat, i: nat :: v != w ==> (RunningAt(now, v, i) <==> RunningAt(workers, v, i));
  }

  /** A worker that does not run an item moves without starting one. */
  lemma {:induction false} PlacedSame(workers: seq<Worker>, fed: nat, finished: seq<nat>, failed: set<nat>, w: nat,
      to: Worker)
    requires Placed(workers, fed, finished, failed) && w < |workers| && !workers[w].Running? && !to.Running?
    ensures Placed(workers[w := to], fed, finished, failed)
  {
    var now := workers[w := to];
    assert forall v: nat, i: nat :: RunningAt(now, v, i) <==> RunningAt(workers, v, i);
  }

  lemma {:induction false} PlacedSucceed(workers: seq<Worker>, fed: nat, finished: seq<nat>, failed: set<nat>,
      w: nat, item: nat)
    requires Placed(workers, fed, finished, failed) && RunningAt(workers, w, item)
    ensures Placed(workers[w := Idle], fed, finished + [item], failed)
  {
    var now := workers[w := Idle];
    assert forall v: nat, i: nat :: RunningAt(now, v, i) <==> v != w && RunningAt(workers, v, i);
  }

  lemma {:induction false} PlacedFail(workers: seq<Worker>, fed: nat, finished: seq<nat>, failed: set<nat>, w: nat,
      item: nat)
    requires Placed(workers, fed, finished, failed) && RunningAt(workers, w, item)
    ensures Placed(workers[w := Failing(item)], fed, finished, failed + {item})
  {
    var now := workers[w := Failing(item)];
    assert forall v: nat, i: nat :: RunningAt(now, v, i) <==> v != w && RunningAt(workers, v, i);
  }

  lemma {:induction false} ItemsStep(s: State, items: nat, step: Step)
    requires Items(s) && Enabled(s, items, step)
    ensures Items(Next(s, items, step))
  {
    hide Placed;
    match step {
      case Feed(w) => PlacedFeed(s.workers, s.fed, s.finished, s.failed, w);
      case Succeed(w) => PlacedSucceed(s.workers, s.fed, s.finished, s.failed, w, s.workers[w].item);
      case Fail(w) => PlacedFail(s.workers, s.fed, s.finished, s.failed, w, s.workers[w].item);
      case Record(w) => PlacedSame(s.workers, s.fed, s.finished, s.failed, w, Idle);
      case Exit(w) => PlacedSame(s.workers, s.fed, s.finished, s.failed, w, Exited);
      case _ =>
    }
  }

  lemma {:induction false} CausesStep(s: State, items: nat, step: Step)
    requires Causes(s) && Enabled(s, items, step)
    ensures Causes(Next(s, items, step))
  {
    var n := Next(s, items, step);
    if step.Feed? || step.Succeed? || step.Fail? || step.Record? || step.Exit? {
      var w := step.w;
      assert forall v: nat, i: nat :: v != w ==> (FailingAt(n.workers, v, i) <==> FailingAt(s.workers, v, i));
      assert step.Fail? ==> FailingAt(n.workers, w, s.workers[w].item);
      assert step.Record? ==> FailingAt(s.workers, w, s.workers[w].item);
      forall i | i in n.failed && n.err.None? ensures exists v: nat :: FailingAt(n.workers, v, i) {
        if i in s.failed {
          var v: nat :| FailingAt(s.workers, v, i);
          assert FailingAt(n.workers, v, i);
        }
      }
    }
  }

  lemma {:induction false} ProgressStep(s: State, items: nat, step: Step)
    requires Causes(s) && Progress(s, items) && Enabled(s, items, step)
    ensures Progress(Next(s, items, step), items)
  {
    assert step.Return? && s.err.None? ==> forall i :: i !in s.failed;
  }

  lemma {:induction false} StepInv(s: State, items: nat, step: Step)
    requires Inv(s, items) && Enabled(s, items, step)
    ensures Inv(Next(s, items, step), items)
  {
    hide Items, Causes, Progress, Enabled, Next;
    ItemsStep(s, items, step);
    CausesStep(s, items, step);
    ProgressStep(s, items, step);
  }

  ghost predicate Run(items: nat, workers: nat, states: seq<State>, steps: seq<Step>) {
    && |states| == |steps| + 1 && Init(states[0], workers)
    && forall k :: 0 <= k < |steps| ==>
         Enabled(states[k], items, steps[k]) && states[k + 1] == Next(states[k], items, steps[k])
  }

  lemma {:induction false} RunInv(items: nat, workers: nat, states: seq<State>, steps: seq<Step>, k: nat)
    requires Run(items, workers, states, steps) && k <= |steps|
    ensures Inv(states[k], items)
  {
    if k > 0 {
      hide Inv, Init, Enabled, Next;
      RunInv(items, workers, states, steps, k - 1);
      StepInv(states[k - 1], items, steps[k - 1]);
    }
  }

  /** A pool that returns nil has finished every item exactly once, with no
      failure and no call left running. */
  lemma {:induction false} NilMeansAllDone(items: nat, workers: nat, states: seq<State>, steps: seq<Step>, k: nat)
    requires Run(items, workers, states, steps) && k <= |steps| && states[k].returned == Some(Nil)
    ensures forall i: nat :: i < items <==> i in states[k].finished
    ensures forall i, j :: 0 <= i < j < |states[k].finished| ==> states[k].finished[i] != states[k].finished[j]
    ensures states[k].failed == {} && AllExited(states[k])
  {
    RunInv(items, workers, states, steps, k);
    hide Init, Enabled, Next;
    var s := states[k];
    forall i: nat | i < items ensures i in s.finished {
      assert forall w: nat :: !RunningAt(s.workers, w, i);
    }
  }

  /** A pool that returns an error reports an item that failed, or the caller's
      cancellation, never one it caused itself. */
  lemma {:induction false} ErrorsHaveACause(items: nat, workers: nat, states: seq<State>, steps: seq<Step>, k: nat)
    requires Run(items, workers, states, steps) && k <= |steps| && states[k].returned.Some?
    ensures states[k].returned.value.FirstError? ==> states[k].returned.value.item in states[k].failed
    ensures states[k].returned == Some(Cancelled) ==> states[k].outer
    ensures AllExited(states[k])
  {
    RunInv(items, workers, states, steps, k);
    hide Init, Enabled, Next;
  }

  lemma {:induction false} ErrStep(s: State, items: nat, step: Step)
    requires Enabled(s, items, step) && s.err.Some?
    ensures Next(s, items, step).err == s.err
  {
  }

  /** The first failure recorded is the one the pool returns, whatever fails or is
      cancelled afterwards. */
  lemma {:induction false} FirstFailureIsReturned(items: nat, workers: nat, states: seq<State>, steps: seq<Step>,
      j: nat, k: nat)
    requires Run(items, workers, states, steps) && j < k <= |steps|
    requires steps[j].Record? && states[j].err.None?
    ensures steps[j].w < |states[j].workers| && states[j].workers[steps[j].w].Failing?
    ensures var item := states[j].workers[steps[j].w].item;
      states[k].err == Some(item) && (states[k].returned.Some? ==> states[k].returned == Some(FirstError(item)))
    decreases k - j
  {
    assert Enabled(states[j], items, steps[j]) && states[j + 1] == Next(states[j], items, steps[j]);
    if k == j + 1 {
      RunInv(items, workers, states, steps, j);
    } else {
      FirstFailureIsReturned(items, workers, states, steps, j, k - 1);
      assert Enabled(states[k - 1], items, steps[k - 1]) && states[k] == Next(states[k - 1], items, steps[k - 1]);
      hide Run, Init;
      ErrStep(states[k - 1], items, steps[k - 1]);
    }
  }

  ghost predicate CanGoOn(s: State, items: nat) {
    exists step: Step :: !step.OuterCancel? && !step.Fail? && Enabled(s, items, step)
  }

  lemma {:induction false} GoesOn(s: State, items: nat, step: Step)
    requires !step.OuterCancel? && !step.Fail? && Enabled(s, items, step)
    ensures CanGoOn(s, items)
  {
  }

  /** No deadlock: a pool with a worker can go on until it has returned. */
  lemma {:induction false} NoDeadlock(items: nat, workers: nat, states: seq<State>, steps: seq<Step>, k: nat)
    requires Run(items, workers, states, steps) && k <= |steps| && workers > 0 && states[k].returned.None?
    ensures CanGoOn(states[k], items)
  {
    var s := states[k];
    RunInv(items, workers, states, steps, k);
    CrewStays(items, workers, states, steps, k);
    hide CanGoOn, Run, Init, Items, Causes;
    if w :| 0 <= w < |s.workers| && s.workers[w].Running? { GoesOn(s, items, Succeed(w)); }
    else if w :| 0 <= w < |s.workers| && s.workers[w].Failing? { GoesOn(s, items, Record(w)); }
    else if !s.closed && s.fed == items { GoesOn(s, items, Close); }
    else if !s.closed { GoesOn(s, items, Feed(0)); }
    else if w :| 0 <= w < |s.workers| && s.workers[w].Idle? { GoesOn(s, items, Exit(w)); }
    else { GoesOn(s, items, Return); }
  }

  lemma {:induction false} CrewStays(items: nat, workers: nat, states: seq<State>, steps: seq<Step>, k: nat)
    requires Run(items, workers, states, steps) && k <= |steps|
    ensures |states[k].workers| == workers
  {
    if k > 0 { CrewStays(items, workers, states, steps, k - 1); }
  }
}
