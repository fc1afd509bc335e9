/** Emit, Close and Abort on one Writer in every interleaving (store/write.go):
    the read-write lock around the channel, the backend draining it, and the
    result settled once. A state machine over atomic steps; every Emit call
    offers its own item. */
module WriterProtocol {
  import opened Wrappers
  import opened Sums

  type Tid = nat

  datatype Item = Item(call: nat, size: nat)

  datatype Error = Aborted | WriterClosed | Cancelled | WriteFailed

  datatype Result = Success(logical: nat) | Failure(error: Error)

  datatype Backend = Running | Stopped(werr: Option<Error>)

  /** Where a thread is: outside, inside emit (holding the read lock), or
      inside Close or Abort. */
  datatype Pc =
    | Outside
    | EmitEntered(item: Item)   // read lock taken, nothing checked
    | EmitSending(item: Item)   // not closed, no cause: in the select
    | EmitSent(item: Item)      // the channel has the item
    | EmitFailed                // about to return an error
    | CloseWaiting              // waits for the write lock
    | CloseHolding              // has the write lock
    | CloseDraining             // waits for the backend

  const EMIT_BUFFER: nat := 8

  datatype State = State(
    closed: bool,               // the Writer's closed flag
    channelOpen: bool,
    panicked: bool,             // a send on, or a second close of, a closed channel
    queue: seq<Item>,           // the channel's buffer
    inflight: set<Item>,        // received by the backend, not accounted
    accounted: set<Item>,
    logical: nat,
    backend: Backend,
    cause: Option<Error>,       // the context's cancellation cause
    result: Option<Result>,     // set once, by the first to settle
    reports: set<Result>,       // what Close and Abort found settled
    pc: map<Tid, Pc>,
    sent: set<Item>,            // history: on the channel at some time
    returned: set<Item>)        // history: their Emit returned nil

  predicate InEmit(p: Pc) {
    p.EmitEntered? || p.EmitSending? || p.EmitSent? || p.EmitFailed?
  }

  /** The write lock is free of readers. */
  ghost predicate NoReader(s: State) {
    forall t :: t in s.pc ==> !InEmit(s.pc[t])
  }

  ghost predicate NoWriter(s: State) {
    forall t :: t in s.pc ==> !s.pc[t].CloseHolding?
  }

  ghost predicate Init(s: State) {
    && !s.closed && s.channelOpen && !s.panicked && s.queue == [] && s.inflight == {} && s.accounted == {}
    && s.logical == 0 && s.backend == Running && s.cause == None && s.result == None && s.reports == {}
    && s.sent == {} && s.returned == {}
    && forall t :: t in s.pc ==> s.pc[t] == Outside
  }

  function Cancel(s: State, e: Error): State {
    if s.cause.Some? then s else s.(cause := Some(e))
  }

  datatype Step =
    | EmitStart(t: Tid, item: Item)
    | EmitCheck(t: Tid)
    | EmitSend(t: Tid)
    | EmitGiveUp(t: Tid)
    | EmitReturn(t: Tid)
    | CloseStart(t: Tid, abort: bool)
    | CloseLock(t: Tid)
    | CloseChannel(t: Tid)
    | Settle(t: Tid)
    | Receive
    | Account(item: Item)
    | BackendFails(e: Error)
    | BackendEnds
    | ContextCancelled

  /** Whether a thread is at a place from which it takes a step of its own. */
  predicate At(s: State, t: Tid, p: Pc) {
    t in s.pc && s.pc[t] == p
  }

  ghost predicate Enabled(s: State, step: Step) {
    match step
    case EmitStart(t, item) => At(s, t, Outside) && NoWriter(s) && item.call !in Calls(s)
    case EmitCheck(t) => t in s.pc && s.pc[t].EmitEntered?
    case EmitSend(t) => t in s.pc && s.pc[t].EmitSending? && |s.queue| < EMIT_BUFFER
    case EmitGiveUp(t) => t in s.pc && s.pc[t].EmitSending? && (s.cause.Some? || s.backend.Stopped?)
    case EmitReturn(t) => t in s.pc && (s.pc[t].EmitSent? || s.pc[t].EmitFailed?)
    case CloseStart(t, _) => At(s, t, Outside)
    case CloseLock(t) => At(s, t, CloseWaiting) && NoReader(s) && NoWriter(s)
    case CloseChannel(t) => At(s, t, CloseHolding)
    case Settle(t) => At(s, t, CloseDraining) && s.backend.Stopped?
    case Receive => s.backend.Running? && s.queue != []
    case Account(item) => s.backend.Running? && item in s.inflight
    case BackendFails(_) => s.backend.Running?
    case BackendEnds => s.backend.Running? && !s.channelOpen && s.queue == [] && s.inflight == {}
    case ContextCancelled => true
  }

  /** The calls whose item is already in the system. */
  ghost function Calls(s: State): set<nat> {
    (set i | i in s.sent :: i.call) +
    (set t | t in s.pc && Unsent(s.pc[t]) :: s.pc[t].item.call)
  }

  function Outcome(s: State): Result
    requires s.backend.Stopped?
  {
    if s.backend.werr.Some? then Failure(s.backend.werr.value)
    else if s.cause.Some? then Failure(s.cause.value)
    else Success(s.logical)
  }

  ghost function Next(s: State, step: Step): State
    requires Enabled(s, step)
  {
    match step
    case EmitStart(t, item) => s.(pc := s.pc[t := EmitEntered(item)])
    case EmitCheck(t) =>
      s.(pc := s.pc[t := if s.closed || s.cause.Some? then EmitFailed else EmitSending(s.pc[t].item)])
    case EmitSend(t) =>
      var i := s.pc[t].item;
      s.(pc := s.pc[t := EmitSent(i)], queue := s.queue + [i], sent := s.sent + {i},
         panicked := s.panicked || !s.channelOpen)
    case EmitGiveUp(t) => s.(pc := s.pc[t := EmitFailed])
    case EmitReturn(t) =>
      s.(pc := s.pc[t := Outside],
         returned := if s.pc[t].EmitSent? then s.returned + {s.pc[t].item} else s.returned)
    case CloseStart(t, abort) =>
      var c := if abort then Cancel(s, Aborted) else s;
      c.(pc := s.pc[t := CloseWaiting])
    case CloseLock(t) => s.(pc := s.pc[t := CloseHolding])
    case CloseChannel(t) =>
      s.(pc := s.pc[t := CloseDraining], closed := true, channelOpen := false,
         panicked := s.panicked || (!s.closed && !s.channelOpen))
    case Settle(t) =>
      var r := if s.result.Some? then s.result.value else Outcome(s);
      Cancel(s, WriterClosed).(pc := s.pc[t := Outside], result := Some(r), reports := s.reports + {r})
    case Receive => s.(queue := s.queue[1..], inflight := s.inflight + {s.queue[0]})
    case Account(i) =>
      s.(inflight := s.inflight - {i}, accounted := s.accounted + {i}, logical := s.logical + i.size)
    case BackendFails(e) => s.(backend := Stopped(Some(e)))
    case BackendEnds => s.(backend := Stopped(s.cause))
    case ContextCancelled => Cancel(s, Cancelled)
  }

  // ---- The invariant ----------------------------------------------------

  function Size(i: Item): nat { i.size }

  /** The lock: readers and a writer exclude each other, and a thread that is
      past the check holds the read lock of an open Writer. */
  ghost predicate Locked(s: State) {
    && (s.closed <==> !s.channelOpen) && !s.panicked
    && (forall t, u :: t in s.pc && u in s.pc && s.pc[t].CloseHolding? ==> !InEmit(s.pc[u]))
    && (forall t, u :: t in s.pc && u in s.pc && s.pc[t].CloseHolding? && s.pc[u].CloseHolding? ==> t == u)
    && (forall t :: t in s.pc && s.closed ==> !s.pc[t].EmitSending? && !s.pc[t].EmitSent?)
    && (forall t :: t in s.pc && s.pc[t].CloseDraining? ==> s.closed)
  }

  /** Every item is where its history says it is. */
  ghost predicate Tracked(s: State) {
    Accounts(s.sent, s.queue, s.inflight, s.accounted, s.logical)
  }

  ghost predicate Accounts(sent: set<Item>, queue: seq<Item>, inflight: set<Item>, accounted: set<Item>, logical: nat) {
    && (forall i :: i in sent <==> i in queue || i in inflight || i in accounted)
    && (forall i :: i in queue ==> i !in inflight && i !in accounted)
    && inflight !! accounted
    && (forall a, b :: 0 <= a < b < |queue| ==> queue[a] != queue[b])
    && logical == OverSet(accounted, Size)
  }

  /** Sent items are exactly those whose Emit has returned nil or is about to. */
  ghost predicate Returned(s: State) {
    && s.returned <= s.sent
    && (forall i :: i in s.sent && i !in s.returned ==> exists t :: At(s, t, EmitSent(i)))
    && (forall t :: t in s.pc && s.pc[t].EmitSent? ==> s.pc[t].item in s.sent)
  }

  predicate Unsent(p: Pc) {
    p.EmitEntered? || p.EmitSending?
  }

  /** What is yet to be sent is new, and each item is one call's own. */
  ghost predicate Offered(s: State) {
    && (forall t :: t in s.pc && Unsent(s.pc[t]) ==> s.pc[t].item !in s.sent)
    && (forall t, u :: t in s.pc && u in s.pc && t != u && Unsent(s.pc[t]) && Unsent(s.pc[u]) ==>
          s.pc[t].item != s.pc[u].item)
  }

  /** A backend that stopped without error had the closed channel drained, and
      a success says what was accounted. */
  ghost predicate Settled(s: State) {
    && (s.backend == Stopped(None) ==> s.closed && s.queue == [] && s.inflight == {})
    && (s.result.Some? ==> s.backend.Stopped?)
    && (s.result.Some? && s.result.value.Success? ==> s.backend == Stopped(None) && s.result.value.logical == s.logical)
    && (forall r :: r in s.reports ==> s.result == Some(r))
  }

  ghost predicate Inv(s: State) {
    Locked(s) && Tracked(s) && Returned(s) && Offered(s) && Settled(s)
  }

  lemma {:induction false} InitInv(s: State)
    requires Init(s)
    ensures Inv(s)
  {
  }

  lemma {:induction false} LockedStep(s: State, step: Step)
    requires Inv(s) && Enabled(s, step)
    ensures Locked(Next(s, step))
  {
    hide Tracked, Returned, Settled, Calls, Offered;
  }

  lemma {:induction false} SendAccounts(sent: set<Item>, queue: seq<Item>, inflight: set<Item>, accounted: set<Item>,
      logical: nat, x: Item)
    requires Accounts(sent, queue, inflight, accounted, logical) && x !in sent
    ensures Accounts(sent + {x}, queue + [x], inflight, accounted, logical)
  {
  }

  lemma {:induction false} ReceiveAccounts(sent: set<Item>, queue: seq<Item>, inflight: set<Item>,
      accounted: set<Item>, logical: nat)
    requires Accounts(sent, queue, inflight, accounted, logical) && queue != []
    ensures Accounts(sent, queue[1..], inflight + {queue[0]}, accounted, logical)
  {
    assert queue == [queue[0]] + queue[1..];
    assert forall i :: i in queue <==> i == queue[0] || i in queue[1..];
  }

  lemma {:induction false} CountAccounts(sent: set<Item>, queue: seq<Item>, inflight: set<Item>,
      accounted: set<Item>, logical: nat, x: Item)
    requires Accounts(sent, queue, inflight, accounted, logical) && x in inflight
    ensures Accounts(sent, queue, inflight - {x}, accounted + {x}, logical + x.size)
  {
    OverSetAdd(accounted, x, Size);
  }

  lemma {:induction false} TrackedStep(s: State, step: Step)
    requires Inv(s) && Enabled(s, step)
    ensures Tracked(Next(s, step))
  {
    hide Settled, Locked, Calls, Accounts, Returned;
    match step {
      case EmitSend(t) => SendAccounts(s.sent, s.queue, s.inflight, s.accounted, s.logical, s.pc[t].item);
      case Receive => ReceiveAccounts(s.sent, s.queue, s.inflight, s.accounted, s.logical);
      case Account(i) => CountAccounts(s.sent, s.queue, s.inflight, s.accounted, s.logical, i);
      case _ =>
    }
  }

  lemma {:induction false} ReturnedStep(s: State, step: Step)
    requires Inv(s) && Enabled(s, step)
    ensures Returned(Next(s, step))
  {
    hide Settled, Tracked, Locked, Calls, Offered, NoReader, NoWriter, Outcome;
    var n := Next(s, step);
    forall i | i in n.sent && i !in n.returned ensures exists t :: At(n, t, EmitSent(i)) {
      if i in s.sent {
        var t :| At(s, t, EmitSent(i));
        assert At(n, t, EmitSent(i));
      } else {
        assert step.EmitSend? && At(n, step.t, EmitSent(i));
      }
    }
  }

  lemma {:induction false} OfferedStart(s: State, t: Tid, item: Item)
    requires Offered(s) && t in s.pc && item.call !in Calls(s)
    ensures Offered(s.(pc := s.pc[t := EmitEntered(item)]))
  {
    forall u | u in s.pc && Unsent(s.pc[u]) ensures s.pc[u].item != item {
      assert s.pc[u].item.call in Calls(s);
    }
    assert item in s.sent ==> item.call in Calls(s);
  }

  /** At most one thread moves, and not to a new item. */
  lemma {:induction false} OfferedMoved(s: State, n: State, t: Tid, p: Pc)
    requires Offered(s) && n.sent == s.sent && t in s.pc && n.pc == s.pc[t := p]
    requires Unsent(p) ==> Unsent(s.pc[t]) && p.item == s.pc[t].item
    ensures Offered(n)
  {
  }

  lemma {:induction false} OfferedSame(s: State, n: State)
    requires Offered(s) && n.sent == s.sent && n.pc == s.pc
    ensures Offered(n)
  {
  }

  lemma {:induction false} OfferedSend(s: State, n: State, t: Tid)
    requires Offered(s) && t in s.pc && Unsent(s.pc[t])
    requires n.sent == s.sent + {s.pc[t].item} && n.pc == s.pc[t := EmitSent(s.pc[t].item)]
    ensures Offered(n)
  {
  }

  lemma {:induction false} OfferedStep(s: State, step: Step)
    requires Inv(s) && Enabled(s, step)
    ensures Offered(Next(s, step))
  {
    hide Settled, Tracked, Locked, Returned, Calls, Offered, NoReader, NoWriter, Outcome;
    var n := Next(s, step);
    match step {
      case EmitStart(t, item) => OfferedStart(s, t, item);
      case EmitSend(t) => OfferedSend(s, n, t);
      case EmitCheck(t) => OfferedMoved(s, n, t, n.pc[t]);
      case EmitGiveUp(t) => OfferedMoved(s, n, t, EmitFailed);
      case EmitReturn(t) => OfferedMoved(s, n, t, Outside);
      case CloseStart(t, _) => OfferedMoved(s, n, t, CloseWaiting);
      case CloseLock(t) => OfferedMoved(s, n, t, CloseHolding);
      case CloseChannel(t) => OfferedMoved(s, n, t, CloseDraining);
      case Settle(t) => OfferedMoved(s, n, t, Outside);
      case _ => OfferedSame(s, n);
    }
  }

  lemma {:induction false} SettledStep(s: State, step: Step)
    requires Inv(s) && Enabled(s, step)
    ensures Settled(Next(s, step))
  {
    hide Returned, Calls, Offered, NoReader, NoWriter;
  }

  /** Every step keeps the invariant. */
  lemma {:induction false} StepInv(s: State, step: Step)
    requires Inv(s) && Enabled(s, step)
    ensures Inv(Next(s, step))
  {
    hide *;
    LockedStep(s, step);
    TrackedStep(s, step);
    ReturnedStep(s, step);
    OfferedStep(s, step);
    SettledStep(s, step);
    assert Inv(Next(s, step)) by { Conjoin(Next(s, step)); }
  }

  lemma {:induction false} Conjoin(s: State)
    requires Locked(s) && Tracked(s) && Returned(s) && Offered(s) && Settled(s)
    ensures Inv(s)
  {
  }

  // ---- Whole runs ---------------------------------------------------------

  ghost predicate Run(states: seq<State>, steps: seq<Step>) {
    && |states| == |steps| + 1 && Init(states[0])
    && forall k :: 0 <= k < |steps| ==>
         Enabled(states[k], steps[k]) && states[k + 1] == Next(states[k], steps[k])
  }

  lemma {:induction false} RunInv(states: seq<State>, steps: seq<Step>, k: nat)
    requires Run(states, steps) && k <= |steps|
    ensures Inv(states[k])
  {
    hide Inv, Init, Enabled, Next;
    if k == 0 {
      InitInv(states[0]);
    } else {
      RunInv(states, steps, k - 1);
      StepInv(states[k - 1], steps[k - 1]);
    }
  }

  /** In every interleaving nothing is sent on the closed channel and it is
      closed once. */
  lemma {:induction false} NoSendAfterClose(states: seq<State>, steps: seq<Step>, k: nat)
    requires Run(states, steps) && k <= |steps|
    ensures !states[k].panicked
  {
    RunInv(states, steps, k);
  }

  /** When Close has succeeded, LogicalBytes is the sum over exactly the objects
      whose Emit returned nil. */
  lemma {:induction false} SuccessCountsAcceptedObjects(states: seq<State>, steps: seq<Step>, k: nat, logical: nat)
    requires Run(states, steps) && k <= |steps| && Success(logical) in states[k].reports
    ensures logical == OverSet(states[k].returned, Size)
  {
    RunInv(states, steps, k);
    var s := states[k];
    assert s.result == Some(Success(logical));
    forall i | i in s.sent ensures i in s.returned {
      assert forall t :: !At(s, t, EmitSent(i));
    }
    assert s.accounted == s.sent == s.returned;
  }

  lemma {:induction false} ResultStep(s: State, step: Step)
    requires Enabled(s, step) && s.result.Some?
    ensures Next(s, step).result == s.result
  {
  }

  lemma {:induction false} ReportIsResult(s: State)
    requires Inv(s)
    ensures forall r :: r in s.reports ==> s.result == Some(r)
  {
  }

  lemma {:induction false} ResultStays(states: seq<State>, steps: seq<Step>, j: nat, k: nat)
    requires Run(states, steps) && j <= k <= |steps| && states[j].result.Some?
    ensures states[k].result == states[j].result
    decreases k - j
  {
    hide Inv, Init, Enabled, Next;
    if j < k {
      ResultStays(states, steps, j, k - 1);
      ResultStep(states[k - 1], steps[k - 1]);
    }
  }

  /** Whatever the order of Close and Abort calls, they all report one result,
      and no later step changes it. */
  lemma {:induction false} OneFixedResult(states: seq<State>, steps: seq<Step>, j: nat, k: nat)
    requires Run(states, steps) && j <= k <= |steps|
    ensures forall a, b :: a in states[j].reports && b in states[k].reports ==> a == b
    ensures states[j].result.Some? ==> states[k].result == states[j].result
  {
    hide Inv, Init, Enabled, Next;
    RunInv(states, steps, j);
    RunInv(states, steps, k);
    ReportIsResult(states[j]);
    ReportIsResult(states[k]);
    if states[j].result.Some? { ResultStays(states, steps, j, k); }
  }

  // ---- Abort, late Emits and progress ----------------------------------------

  lemma {:induction false} CauseStep(s: State, step: Step)
    requires Inv(s) && Enabled(s, step) && s.cause.Some?
    ensures Next(s, step).cause == s.cause
    ensures s.backend.Stopped? ==> Next(s, step).backend == s.backend
    ensures s.result.None? && Next(s, step).result.Some? ==>
      && Next(s, step).result.value.Failure?
      && (Next(s, step).result.value.error == s.cause.value ||
          Next(s, step).backend == Stopped(Some(Next(s, step).result.value.error)))
  {
    hide Locked, Tracked, Returned, Offered;
  }

  /** Once there is a cause to stop, what Close and Abort report is a failure: that
      cause, or an error the backend stopped with. */
  lemma {:induction false} CauseMeansFailure(states: seq<State>, steps: seq<Step>, j: nat, k: nat)
    requires Run(states, steps) && j <= k <= |steps| && states[j].result.None? && states[j].cause.Some?
    ensures states[k].cause == states[j].cause
    ensures states[k].result.Some? ==>
      && states[k].result.value.Failure?
      && (states[k].result.value.error == states[j].cause.value ||
          states[k].backend == Stopped(Some(states[k].result.value.error)))
    decreases k - j
  {
    if j < k {
      CauseMeansFailure(states, steps, j, k - 1);
      RunInv(states, steps, k - 1);
      hide Init, Enabled, Next, Locked, Tracked, Returned, Offered;
      CauseStep(states[k - 1], steps[k - 1]);
      if states[k - 1].result.Some? { ResultStep(states[k - 1], steps[k - 1]); }
    }
  }

  /** After an Abort that found no result settled, no call ever reports success; the
      error is the Abort's own, unless something had stopped the Writer before or the
      backend failed. */
  lemma {:induction false} AbortMeansFailure(states: seq<State>, steps: seq<Step>, j: nat, k: nat)
    requires Run(states, steps) && j < k <= |steps| && steps[j].CloseStart? && steps[j].abort
    requires states[j].result.None? && states[k].result.Some?
    ensures states[k].result.value.Failure?
    ensures states[j].cause.None? ==>
      || states[k].result.value.error == Aborted
      || states[k].backend == Stopped(Some(states[k].result.value.error))
  {
    assert Enabled(states[j], steps[j]) && states[j + 1] == Next(states[j], steps[j]);
    assert states[j + 1].cause == (if states[j].cause.Some? then states[j].cause else Some(Aborted));
    CauseMeansFailure(states, steps, j + 1, k);
  }

  /** What keeps a Writer from succeeding: an abort, a cancelled context, a backend
      that fails. */
  ghost predicate Trouble(step: Step) {
    step.BackendFails? || step.ContextCancelled? || (step.CloseStart? && step.abort)
  }

  /** Without any of these, what is reported is success. */
  lemma {:induction false} CleanRunSucceeds(states: seq<State>, steps: seq<Step>, k: nat)
    requires Run(states, steps) && k <= |steps| && forall i :: 0 <= i < k ==> !Trouble(steps[i])
    ensures states[k].result.Some? ==> states[k].result.value.Success?
    ensures states[k].result.None? ==> states[k].cause.None?
    ensures states[k].backend.Stopped? ==> states[k].backend.werr.None?
  {
    if k > 0 {
      CleanRunSucceeds(states, steps, k - 1);
      RunInv(states, steps, k - 1);
      hide Locked, Tracked, Returned, Offered, Init;
      assert Enabled(states[k - 1], steps[k - 1]) && !Trouble(steps[k - 1]);
    }
  }

  /** The item was on the channel at s, or in the middle of being sent. */
  ghost predicate Underway(s: State, i: Item) {
    i in s.sent || exists t :: At(s, t, EmitSending(i))
  }

  ghost predicate Ended(s: State) { s.closed || s.cause.Some? }

  /** Whatever is sent once the Writer is closed or has a cause to stop was past the
      check by then: no Emit that starts later gets its object accepted. */
  lemma {:induction false} LateEmitsFail(states: seq<State>, steps: seq<Step>, j: nat, k: nat)
    requires Run(states, steps) && j <= k <= |steps| && Ended(states[j])
    ensures Ended(states[k])
    ensures forall i :: Underway(states[k], i) ==> Underway(states[j], i)
    decreases k - j
  {
    if j < k {
      LateEmitsFail(states, steps, j, k - 1);
      var s, step := states[k - 1], steps[k - 1];
      assert Enabled(s, step) && states[k] == Next(s, step);
      hide *;
      StaysEnded(s, step);
      forall i | Underway(states[k], i) ensures Underway(s, i) { LateStep(s, step, i); }
    }
  }

  lemma {:induction false} StaysEnded(s: State, step: Step)
    requires Enabled(s, step) && Ended(s)
    ensures Ended(Next(s, step))
  {
    hide Calls, NoReader, NoWriter, Outcome;
  }

  lemma {:induction false} LateStep(s: State, step: Step, i: Item)
    requires Enabled(s, step) && Ended(s) && Underway(Next(s, step), i)
    ensures Underway(s, i)
  {
    hide Calls, NoReader, NoWriter, Outcome;
    var n := Next(s, step);
    if i !in n.sent {
      var t :| At(n, t, EmitSending(i));
      assert At(s, t, EmitSending(i));
    } else if i !in s.sent {
      assert At(s, step.t, EmitSending(i));
    }
  }

  /** Not a new call, and not a failure from outside. */
  ghost predicate OfItsOwn(step: Step) {
    !step.EmitStart? && !step.CloseStart? && !step.BackendFails? && !step.ContextCancelled?
  }

  ghost predicate CanGoOn(s: State) { exists step :: OfItsOwn(step) && Enabled(s, step) }

  lemma {:induction false} GoesOn(s: State, step: Step)
    requires OfItsOwn(step) && Enabled(s, step)
    ensures CanGoOn(s)
  {
  }

  /** A thread inside Emit can go on, or the backend can. */
  lemma {:induction false} EmitGoesOn(s: State, t: Tid)
    requires Inv(s) && t in s.pc && InEmit(s.pc[t])
    ensures CanGoOn(s)
  {
    hide CanGoOn, Calls, NoReader, NoWriter, Inv;
    match s.pc[t] {
      case EmitEntered(_) => GoesOn(s, EmitCheck(t));
      case EmitSending(_) =>
        if |s.queue| < EMIT_BUFFER { GoesOn(s, EmitSend(t)); }
        else if s.backend.Running? { GoesOn(s, Receive); }
        else { GoesOn(s, EmitGiveUp(t)); }
      case _ => GoesOn(s, EmitReturn(t));
    }
  }

  /** No deadlock: while any call is inside, some step of the calls or the backend is
      possible. */
  lemma {:induction false} NoDeadlock(states: seq<State>, steps: seq<Step>, k: nat, t: Tid)
    requires Run(states, steps) && k <= |steps| && t in states[k].pc && !states[k].pc[t].Outside?
    ensures CanGoOn(states[k])
  {
    RunInv(states, steps, k);
    var s := states[k];
    hide CanGoOn, Calls, Run, Tracked, Returned, Offered;
    if r :| r in s.pc && InEmit(s.pc[r]) {
      EmitGoesOn(s, r);
    } else if w :| w in s.pc && s.pc[w].CloseHolding? {
      GoesOn(s, CloseChannel(w));
    } else if s.pc[t].CloseWaiting? {
      GoesOn(s, CloseLock(t));
    } else if s.backend.Stopped? {
      GoesOn(s, Settle(t));
    } else if s.queue != [] {
      GoesOn(s, Receive);
    } else if i :| i in s.inflight {
      GoesOn(s, Account(i));
    } else {
      GoesOn(s, BackendEnds);
    }
  }
}
