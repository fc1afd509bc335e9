/** The keyed mutex (keyedmutex/keyedmutex.go) in every interleaving. The actor
    is a call of Lock together with the unlock function it returned, whichever
    threads run the two; every line that touches shared state is one step. */
module KeyedMutex {
  import opened Wrappers

  type Call = nat
  type Key(==, !new)
  type Ref = nat   // the address of an entry

  /** One key's entry: the inner mutex and the count of references. */
  datatype Entry = Entry(owner: Option<Call>, refs: int)

  datatype Pc =
    | Calling(k: Key)             // before the table's mutex
    | InTable(k: Key)             // has the table's mutex
    | Found(k: Key, e: Ref)       // the entry is in the table, not yet counted
    | Waiting(k: Key, e: Ref)     // counted, waits for the entry's mutex
    | Holding(k: Key, e: Ref)     // Lock has returned
    | Unlocking(k: Key, e: Ref)   // the unlock function won its flag
    | Leaving(k: Key, e: Ref)     // the entry's mutex is free again
    | Dropping(k: Key, e: Ref)    // has the table's mutex
    | Done(k: Key)

  datatype State = State(
    table: Option<Call>,          // who has the table's mutex
    locks: map<Key, Ref>,
    entries: map<Ref, Entry>,     // every entry ever made
    pc: map<Call, Pc>,
    misuse: bool,                 // an inner mutex was unlocked by one that has it not
    panics: set<Call>)            // unlock functions called more than once

  datatype Step =
    | Start(c: Call, k: Key)
    | LockTable(c: Call)
    | Find(c: Call, made: Ref)
    | Count(c: Call)
    | Acquire(c: Call)
    | Unlock(c: Call)
    | UnlockAgain(c: Call)
    | Free(c: Call)
    | Relock(c: Call)
    | Drop(c: Call)

  predicate Referring(p: Pc) {
    p.Waiting? || p.Holding? || p.Unlocking? || p.Leaving? || p.Dropping?
  }

  predicate Owning(p: Pc) { p.Holding? || p.Unlocking? }

  predicate InSection(p: Pc) { p.InTable? || p.Found? || p.Dropping? }

  ghost predicate Init(s: State) {
    s == State(None, map[], map[], map[], false, {})
  }

  ghost predicate Enabled(s: State, step: Step) {
    var c := step.c;
    match step
    case Start(_, _) => c !in s.pc
    case LockTable(_) => c in s.pc && s.pc[c].Calling? && s.table.None?
    case Find(_, made) => c in s.pc && s.pc[c].InTable? && made !in s.entries
    case Count(_) => c in s.pc && s.pc[c].Found? && s.pc[c].e in s.entries
    case Acquire(_) => c in s.pc && s.pc[c].Waiting? && s.pc[c].e in s.entries && s.entries[s.pc[c].e].owner.None?
    case Unlock(_) => c in s.pc && s.pc[c].Holding?
    case UnlockAgain(_) => c in s.pc && (s.pc[c].Unlocking? || s.pc[c].Leaving? || s.pc[c].Dropping? || s.pc[c].Done?)
    case Free(_) => c in s.pc && s.pc[c].Unlocking? && s.pc[c].e in s.entries
    case Relock(_) => c in s.pc && s.pc[c].Leaving? && s.table.None?
    case Drop(_) => c in s.pc && s.pc[c].Dropping? && s.pc[c].e in s.entries
  }

  ghost function Next(s: State, step: Step): State
    requires Enabled(s, step)
  {
    var c := step.c;
    match step
    case Start(_, k) => s.(pc := s.pc[c := Calling(k)])
    case LockTable(_) => s.(pc := s.pc[c := InTable(s.pc[c].k)], table := Some(c))
    case Find(_, made) =>
      var k := s.pc[c].k;
      if k in s.locks then s.(pc := s.pc[c := Found(k, s.locks[k])])
      else s.(pc := s.pc[c := Found(k, made)], locks := s.locks[k := made],
              entries := s.entries[made := Entry(None, 0)])
    case Count(_) =>
      var e := s.pc[c].e;
      s.(pc := s.pc[c := Waiting(s.pc[c].k, e)], table := None,
         entries := s.entries[e := s.entries[e].(refs := s.entries[e].refs + 1)])
    case Acquire(_) =>
      var e := s.pc[c].e;
      s.(pc := s.pc[c := Holding(s.pc[c].k, e)], entries := s.entries[e := s.entries[e].(owner := Some(c))])
    case Unlock(_) => s.(pc := s.pc[c := Unlocking(s.pc[c].k, s.pc[c].e)])
    case UnlockAgain(_) => s.(panics := s.panics + {c})
    case Free(_) =>
      var e := s.pc[c].e;
      s.(pc := s.pc[c := Leaving(s.pc[c].k, e)], entries := s.entries[e := s.entries[e].(owner := None)],
         misuse := s.misuse || s.entries[e].owner != Some(c))
    case Relock(_) => s.(pc := s.pc[c := Dropping(s.pc[c].k, s.pc[c].e)], table := Some(c))
    case Drop(_) =>
      var e := s.pc[c].e;
      var refs := s.entries[e].refs - 1;
      s.(pc := s.pc[c := Done(s.pc[c].k)], table := None,
         entries := s.entries[e := s.entries[e].(refs := refs)],
         locks := if refs == 0 then s.locks - {s.pc[c].k} else s.locks)
  }

  // ---- The invariant --------------------------------------------------------

  /** The calls that wait for, hold or release an entry. */
  ghost function Users(pc: map<Call, Pc>, e: Ref): set<Call> {
    set c | c in pc && Referring(pc[c]) && pc[c].e == e
  }

  /** Whoever has the table's mutex is in a section, and nobody else is. */
  ghost predicate TableInv(s: State) {
    forall c :: c in s.pc ==> (InSection(s.pc[c]) <==> s.table == Some(c))
  }

  ghost predicate TableOwner(s: State) {
    s.table.Some? ==> s.table.value in s.pc
  }

  /** The inner mutex is with the one call that has it. */
  ghost predicate OwnerInv(s: State) {
    && !s.misuse
    && (forall c :: c in s.pc && Owning(s.pc[c]) ==>
          s.pc[c].e in s.entries && s.entries[s.pc[c].e].owner == Some(c))
    && (forall e :: e in s.entries && s.entries[e].owner.Some? ==>
          var c := s.entries[e].owner.value; c in s.pc && Owning(s.pc[c]) && s.pc[c].e == e)
  }

  /** A call that knows an entry finds it in the table under its own key. */
  ghost predicate LiveInv(s: State) {
    forall c :: c in s.pc && (Referring(s.pc[c]) || s.pc[c].Found?) ==>
      s.pc[c].k in s.locks && s.locks[s.pc[c].k] == s.pc[c].e
  }

  ghost predicate RefsInv(s: State) {
    && (forall e :: e in s.entries ==> s.entries[e].refs == |Users(s.pc, e)|)
    && (forall k :: k in s.locks ==> s.locks[k] in s.entries)
    && (forall k, l :: k in s.locks && l in s.locks && k != l ==> s.locks[k] != s.locks[l])
  }

  ghost predicate Known(s: State, k: Key, c: Call) {
    c in s.pc && (Referring(s.pc[c]) || s.pc[c].Found?) && s.pc[c].k == k
  }

  /** No entry stays in the table for nothing. */
  ghost predicate NeededInv(s: State) {
    forall k :: k in s.locks ==> exists c :: Known(s, k, c)
  }

  ghost predicate Inv(s: State) {
    TableInv(s) && TableOwner(s) && OwnerInv(s) && LiveInv(s) && RefsInv(s) && NeededInv(s)
  }

  lemma {:induction false} TableStep(s: State, step: Step)
    requires TableInv(s) && TableOwner(s) && Enabled(s, step)
    ensures TableInv(Next(s, step)) && TableOwner(Next(s, step))
  {
  }

  lemma {:induction false} OwnerStep(s: State, step: Step)
    requires OwnerInv(s) && Enabled(s, step)
    ensures OwnerInv(Next(s, step))
  {
  }

  predicate Uses(p: Pc, e: Ref) {
    Referring(p) && p.e == e
  }

  /** A call that comes to an entry or goes from it changes its users by one. */
  lemma {:induction false} UsersMove(pc: map<Call, Pc>, c: Call, p: Pc, e: Ref)
    ensures |Users(pc[c := p], e)| ==
      |Users(pc, e)| - (if c in pc && Uses(pc[c], e) then 1 else 0) + (if Uses(p, e) then 1 else 0)
  {
    UsersAt(pc, e);
    UsersAt(pc[c := p], e);
    hide Users, Referring, Uses;
    OneApart(Users(pc, e), Users(pc[c := p], e), c);
  }

  lemma {:induction false} UsersAt(pc: map<Call, Pc>, e: Ref)
    ensures forall d :: d in Users(pc, e) <==> d in pc && Uses(pc[d], e)
  {
  }

  lemma {:induction false} OneApart(a: set<Call>, b: set<Call>, c: Call)
    requires forall d :: d != c ==> (d in a <==> d in b)
    ensures |b| - (if c in b then 1 else 0) == |a| - (if c in a then 1 else 0)
  {
    assert a - {c} == b - {c};
    assert |a - {c}| == |a| - if c in a then 1 else 0;
    assert |b - {c}| == |b| - if c in b then 1 else 0;
  }

  /** No one uses an entry the table has never seen. */
  lemma {:induction false} NoUsers(s: State, e: Ref)
    requires LiveInv(s) && RefsInv(s) && e !in s.entries
    ensures Users(s.pc, e) == {}
  {
  }

  /** Whether a step makes a call come to an entry, or go from it. */
  ghost function Delta(s: State, step: Step, e: Ref): int
    requires Enabled(s, step)
  {
    if step.Count? && s.pc[step.c].e == e then 1 else if step.Drop? && s.pc[step.c].e == e then -1 else 0
  }

  lemma {:induction false} UsersStep(s: State, step: Step, e: Ref)
    requires Enabled(s, step)
    ensures |Users(Next(s, step).pc, e)| == |Users(s.pc, e)| + Delta(s, step, e)
  {
    var n := Next(s, step);
    hide Users;
    if !step.UnlockAgain? { UsersMove(s.pc, step.c, n.pc[step.c], e); }
  }

  lemma {:induction false} TableRefsStep(s: State, step: Step)
    requires RefsInv(s) && Enabled(s, step)
    ensures
      var n := Next(s, step);
      && (forall k :: k in n.locks ==> n.locks[k] in n.entries)
      && (forall k, l :: k in n.locks && l in n.locks && k != l ==> n.locks[k] != n.locks[l])
  {
    hide Users;
  }

  lemma {:induction false} RefStep(s: State, step: Step, e: Ref)
    requires RefsInv(s) && Enabled(s, step) && e in Next(s, step).entries
    ensures Next(s, step).entries[e].refs == (if e in s.entries then s.entries[e].refs else 0) + Delta(s, step, e)
  {
    hide Users;
  }

  lemma {:induction false} RefsStep(s: State, step: Step)
    requires LiveInv(s) && RefsInv(s) && Enabled(s, step)
    ensures RefsInv(Next(s, step))
  {
    hide Users, Delta, Next, Enabled, LiveInv;
    TableRefsStep(s, step);
    var n := Next(s, step);
    forall e | e in n.entries ensures n.entries[e].refs == |Users(n.pc, e)| {
      UsersStep(s, step, e);
      RefStep(s, step, e);
      if e !in s.entries { NoUsers(s, e); }
    }
  }

  /** When the count drops to nought, nobody else knows the entry. */
  lemma {:induction false} LiveStep(s: State, step: Step)
    requires TableInv(s) && LiveInv(s) && RefsInv(s) && Enabled(s, step)
    ensures LiveInv(Next(s, step))
  {
    var n := Next(s, step);
    if step.Drop? {
      var e := s.pc[step.c].e;
      if n.entries[e].refs == 0 {
        LastUser(s, step.c);
        assert forall d :: d in n.pc && (Referring(n.pc[d]) || n.pc[d].Found?) ==> !Known(s, s.pc[step.c].k, d);
      }
    }
  }

  lemma {:induction false} LastUser(s: State, c: Call)
    requires TableInv(s) && LiveInv(s) && RefsInv(s) && c in s.pc && s.pc[c].Dropping?
    requires s.entries[s.pc[c].e].refs == 1
    ensures forall d :: d != c ==> !Known(s, s.pc[c].k, d)
  {
    var users := Users(s.pc, s.pc[c].e);
    assert c in users && |users - {c}| == 0;
    forall d | d != c ensures !Known(s, s.pc[c].k, d) {
      assert Known(s, s.pc[c].k, d) ==> d in users - {c};
    }
  }

  lemma {:induction false} NeededStep(s: State, step: Step)
    requires TableInv(s) && LiveInv(s) && RefsInv(s) && NeededInv(s) && Enabled(s, step)
    ensures NeededInv(Next(s, step))
  {
    hide LiveInv, RefsInv, TableInv, Users, Known, Enabled, Next;
    var n := Next(s, step);
    forall k | k in n.locks ensures exists c :: Known(n, k, c) {
      if k !in s.locks {
        FoundIsKnown(s, step, k);
      } else {
        var c :| Known(s, k, c);
        if step.Drop? && c == step.c {
          var d := StillUsed(s, step, k);
          KnownStays(s, step, k, d);
        } else {
          KnownStays(s, step, k, c);
        }
      }
    }
  }

  lemma {:induction false} KnownStays(s: State, step: Step, k: Key, c: Call)
    requires Enabled(s, step) && Known(s, k, c) && !(step.Drop? && c == step.c)
    ensures Known(Next(s, step), k, c)
  {
  }

  lemma {:induction false} FoundIsKnown(s: State, step: Step, k: Key)
    requires Enabled(s, step) && k !in s.locks && k in Next(s, step).locks
    ensures Known(Next(s, step), k, step.c)
  {
  }

  /** A key that stays in the table when a call is counted out has another user. */
  lemma {:induction false} StillUsed(s: State, step: Step, k: Key) returns (d: Call)
    requires LiveInv(s) && RefsInv(s) && Enabled(s, step) && step.Drop? && Known(s, k, step.c)
    requires k in Next(s, step).locks
    ensures d != step.c && Known(s, k, d)
  {
    assert s.pc[step.c].k == k && s.entries[s.pc[step.c].e].refs != 1;
    hide LiveInv, RefsInv, Enabled, Next;
    d := OtherUser(s, step.c);
  }

  lemma {:induction false} OtherUser(s: State, c: Call) returns (d: Call)
    requires RefsInv(s) && LiveInv(s) && c in s.pc && s.pc[c].Dropping? && s.entries[s.pc[c].e].refs != 1
    ensures d != c && Known(s, s.pc[c].k, d)
  {
    var users := Users(s.pc, s.pc[c].e);
    assert c in users && |users - {c}| == |users| - 1;
    assert users - {c} != {};
    d :| d in users - {c};
  }

  /** Every step keeps the invariant. */
  lemma {:induction false} StepInv(s: State, step: Step)
    requires Inv(s) && Enabled(s, step)
    ensures Inv(Next(s, step))
  {
    hide TableInv, TableOwner, OwnerInv, LiveInv, RefsInv, NeededInv, Enabled, Next;
    TableStep(s, step);
    OwnerStep(s, step);
    LiveStep(s, step);
    RefsStep(s, step);
    NeededStep(s, step);
  }

  // ---- Whole runs -------------------------------------------------------------

  ghost predicate Run(states: seq<State>, steps: seq<Step>) {
    && |states| == |steps| + 1 && Init(states[0])
    && forall i :: 0 <= i < |steps| ==> Enabled(states[i], steps[i]) && states[i + 1] == Next(states[i], steps[i])
  }

  lemma {:induction false} RunInv(states: seq<State>, steps: seq<Step>, i: nat)
    requires Run(states, steps) && i <= |steps|
    ensures Inv(states[i])
  {
    if i > 0 {
      hide Inv, Init, Enabled, Next;
      RunInv(states, steps, i - 1);
      StepInv(states[i - 1], steps[i - 1]);
    }
  }

  /** In every interleaving at most one call holds a key, and no inner mutex is
      unlocked by one that has it not. */
  lemma {:induction false} MutualExclusion(states: seq<State>, steps: seq<Step>, i: nat, a: Call, b: Call)
    requires Run(states, steps) && i <= |steps| && a in states[i].pc && b in states[i].pc
    requires Owning(states[i].pc[a]) && Owning(states[i].pc[b]) && states[i].pc[a].k == states[i].pc[b].k
    ensures a == b
    ensures !states[i].misuse
  {
    hide Init, Enabled, Next;
    RunInv(states, steps, i);
  }

  /** An entry counts the calls that wait for, hold or release it, and it is the
      table's entry for their key: two live entries for one key never exist, and
      a referenced entry never leaves the table. */
  lemma {:induction false} ReferencedEntriesAreLive(states: seq<State>, steps: seq<Step>, i: nat, e: Ref)
    requires Run(states, steps) && i <= |steps| && e in states[i].entries
    ensures states[i].entries[e].refs == |Users(states[i].pc, e)|
    ensures forall c :: c in Users(states[i].pc, e) ==>
      states[i].pc[c].k in states[i].locks && states[i].locks[states[i].pc[c].k] == e
    ensures forall c, d :: c in states[i].pc && d in states[i].pc && Referring(states[i].pc[c]) && Referring(states[i].pc[d]) ==>
      (states[i].pc[c].k == states[i].pc[d].k <==> states[i].pc[c].e == states[i].pc[d].e)
  {
    hide Init, Enabled, Next;
    RunInv(states, steps, i);
    var s := states[i];
    forall c, d | c in s.pc && d in s.pc && Referring(s.pc[c]) && Referring(s.pc[d])
      ensures s.pc[c].k == s.pc[d].k <==> s.pc[c].e == s.pc[d].e
    {
      assert s.locks[s.pc[c].k] == s.pc[c].e && s.locks[s.pc[d].k] == s.pc[d].e;
    }
  }

  /** The keys a call holds or waits for. */
  ghost function HeldOrAwaited(s: State): set<Key> {
    set c | c in s.pc && (s.pc[c].Waiting? || Owning(s.pc[c])) :: s.pc[c].k
  }

  /** The keys of calls that have let go and have yet to count themselves out. */
  ghost function BeingReleased(s: State): set<Key> {
    set c | c in s.pc && s.pc[c].Leaving? :: s.pc[c].k
  }

  /** Len runs with the table's mutex: what it counts is the keys held, awaited or
      being released; so the first two alone, if and only if nobody is releasing a
      key that is not also held or awaited. */
  lemma {:induction false} LenCountsKeysInUse(states: seq<State>, steps: seq<Step>, i: nat)
    requires Run(states, steps) && i <= |steps| && states[i].table.None?
    ensures states[i].locks.Keys == HeldOrAwaited(states[i]) + BeingReleased(states[i])
    ensures |states[i].locks| == |HeldOrAwaited(states[i])| <==> BeingReleased(states[i]) <= HeldOrAwaited(states[i])
  {
    hide Init, Enabled, Next;
    RunInv(states, steps, i);
    var s := states[i];
    forall k | k in s.locks ensures k in HeldOrAwaited(s) + BeingReleased(s) {
      var c :| Known(s, k, c);
      assert TableInv(s) && !InSection(s.pc[c]);
    }
    SameSize(HeldOrAwaited(s), BeingReleased(s));
  }

  lemma {:induction false} SameSize(a: set<Key>, b: set<Key>)
    ensures |a + b| == |a| <==> b <= a
  {
    if b <= a { assert a + b == a; }
    else {
      var x :| x in b && x !in a;
      assert |a + b| == |a| + |b - a| && x in b - a;
    }
  }

  /** A run that shows it: one call locks and lets go, and before it has counted
      itself out Len is one, though the key is neither held nor awaited. */
  lemma {:induction false} LenOutlivesTheLock(k: Key) returns (states: seq<State>, steps: seq<Step>)
    ensures Run(states, steps)
    ensures
      var last := states[|steps|];
      last.table.None? && HeldOrAwaited(last) == {} && |last.locks| == 1
  {
    hide Run, Enabled, Next;
    states, steps := LockedOnce(k);
    var n := OneEntry(k, Unlocking(k, 0), Some(0));
    LetGo(k);
    states, steps := Extended(states, steps, Unlock(0), n);
    n := OneEntry(k, Leaving(k, 0), None);
    states, steps := Extended(states, steps, Free(0), n);
  }

  /** The one call 0 has the one entry 0. */
  ghost function OneEntry(k: Key, pc: Pc, owner: Option<Call>): State {
    State(None, map[k := 0], map[0 := Entry(owner, 1)], map[0 := pc], false, {})
  }

  lemma {:induction false} Extended(states: seq<State>, steps: seq<Step>, step: Step, next: State)
    returns (states': seq<State>, steps': seq<Step>)
    requires Run(states, steps) && Enabled(states[|steps|], step) && next == Next(states[|steps|], step)
    ensures Run(states', steps') && |steps'| == |steps| + 1 && states'[|steps'|] == next
  {
    hide Enabled, Next, Init;
    states', steps' := states + [next], steps + [step];
  }

  lemma {:induction false} LetGo(k: Key)
    ensures
      var held, unlocking := OneEntry(k, Holding(k, 0), Some(0)), OneEntry(k, Unlocking(k, 0), Some(0));
      var leaving := OneEntry(k, Leaving(k, 0), None);
      && Enabled(held, Unlock(0)) && Next(held, Unlock(0)) == unlocking
      && Enabled(unlocking, Free(0)) && Next(unlocking, Free(0)) == leaving
      && HeldOrAwaited(leaving) == {} && |leaving.locks| == 1
  {
    var leaving := OneEntry(k, Leaving(k, 0), None);
    assert Next(OneEntry(k, Holding(k, 0), Some(0)), Unlock(0)).pc == map[0 := Unlocking(k, 0)];
    assert Next(OneEntry(k, Unlocking(k, 0), Some(0)), Free(0)).pc == map[0 := Leaving(k, 0)];
    assert Next(OneEntry(k, Unlocking(k, 0), Some(0)), Free(0)).entries == map[0 := Entry(None, 1)];
    assert |leaving.locks.Keys| == 1 by { assert leaving.locks.Keys == {k}; }
  }

  /** One call that goes all the way to holding its key. */
  lemma {:induction false} LockedOnce(k: Key) returns (states: seq<State>, steps: seq<Step>)
    ensures Run(states, steps) && states[|steps|] == OneEntry(k, Holding(k, 0), Some(0))
  {
    var s0 := State(None, map[], map[], map[], false, {});
    var s1 := State(None, map[], map[], map[0 := Calling(k)], false, {});
    var s2 := State(Some(0), map[], map[], map[0 := InTable(k)], false, {});
    var s3 := State(Some(0), map[k := 0], map[0 := Entry(None, 0)], map[0 := Found(k, 0)], false, {});
    var s4 := OneEntry(k, Waiting(k, 0), None);
    var s5 := OneEntry(k, Holding(k, 0), Some(0));
    states, steps := [s0], [];
    assert Run(states, steps);
    GetsIn(k, s0, s1, s2, s3);
    GetsIt(k, s3, s4, s5);
    hide Run, Enabled, Next, Init;
    states, steps := Extended(states, steps, Start(0, k), s1);
    states, steps := Extended(states, steps, LockTable(0), s2);
    states, steps := Extended(states, steps, Find(0, 0), s3);
    states, steps := Extended(states, steps, Count(0), s4);
    states, steps := Extended(states, steps, Acquire(0), s5);
  }

  lemma {:induction false} GetsIn(k: Key, s0: State, s1: State, s2: State, s3: State)
    requires s0 == State(None, map[], map[], map[], false, {}) && s1 == s0.(pc := map[0 := Calling(k)])
    requires s2 == s1.(pc := map[0 := InTable(k)], table := Some(0))
    requires s3 == s2.(pc := map[0 := Found(k, 0)], locks := map[k := 0], entries := map[0 := Entry(None, 0)])
    ensures Enabled(s0, Start(0, k)) && Next(s0, Start(0, k)) == s1
    ensures Enabled(s1, LockTable(0)) && Next(s1, LockTable(0)) == s2
    ensures Enabled(s2, Find(0, 0)) && Next(s2, Find(0, 0)) == s3
  {
    assert Next(s0, Start(0, k)).pc == s1.pc && Next(s1, LockTable(0)).pc == s2.pc;
    assert Next(s2, Find(0, 0)).pc == s3.pc && Next(s2, Find(0, 0)).locks == s3.locks;
    assert Next(s2, Find(0, 0)).entries == s3.entries;
  }

  lemma {:induction false} GetsIt(k: Key, s3: State, s4: State, s5: State)
    requires s3 == State(Some(0), map[k := 0], map[0 := Entry(None, 0)], map[0 := Found(k, 0)], false, {})
    requires s4 == OneEntry(k, Waiting(k, 0), None) && s5 == OneEntry(k, Holding(k, 0), Some(0))
    ensures Enabled(s3, Count(0)) && Next(s3, Count(0)) == s4
    ensures Enabled(s4, Acquire(0)) && Next(s4, Acquire(0)) == s5
  {
    assert Next(s3, Count(0)).pc == s4.pc && Next(s3, Count(0)).entries == s4.entries;
    assert Next(s4, Acquire(0)).pc == s5.pc && Next(s4, Acquire(0)).entries == s5.entries;
  }

  /** Who stands in a call's way: nobody, the one in the table's section, or the
      holder of the very same key. */
  ghost predicate CanMove(s: State, c: Call) {
    exists step: Step :: step.c == c && !step.UnlockAgain? && Enabled(s, step)
  }

  lemma {:induction false} Moves(s: State, step: Step)
    requires Enabled(s, step) && !step.UnlockAgain?
    ensures CanMove(s, step.c)
  {
  }

  lemma {:induction false} FreshRef(s: State) returns (r: Ref)
    ensures r !in s.entries
  {
    r := FreshNat(s.entries.Keys);
  }

  lemma {:induction false} FreshNat(used: set<nat>) returns (r: nat)
    ensures forall x :: x in used ==> x < r
  {
    if used == {} { r := 0; } else {
      var x :| x in used;
      r := FreshNat(used - {x});
      assert used == (used - {x}) + {x};
      if r <= x { r := x + 1; }
    }
  }

  /** The one in a section of the table never waits. */
  lemma {:induction false} SectionMoves(s: State, c: Call)
    requires Inv(s) && c in s.pc && InSection(s.pc[c])
    ensures CanMove(s, c)
  {
    var made := FreshRef(s);
    if s.pc[c].InTable? { assert Enabled(s, Find(c, made)); }
    else if s.pc[c].Found? { assert Enabled(s, Count(c)); }
    else { assert Enabled(s, Drop(c)); }
  }

  /** No deadlock, and holders of different keys never block each other: a call
      that has not returned can move, or the one in the table's section can, or
      it waits for a call that owns the same key. */
  lemma {:induction false} OnlyTheSameKeyBlocks(states: seq<State>, steps: seq<Step>, i: nat, c: Call)
    requires Run(states, steps) && i <= |steps| && c in states[i].pc && !states[i].pc[c].Done?
    ensures
      var s := states[i];
      || CanMove(s, c)
      || (s.table.Some? && CanMove(s, s.table.value))
      || (s.pc[c].Waiting? && exists d :: d in s.pc && d != c && Owning(s.pc[d]) && s.pc[d].k == s.pc[c].k)
  {
    RunInv(states, steps, i);
    hide Init, Next, NeededInv, Users, CanMove;
    var s := states[i];
    if s.table.Some? {
      SectionMoves(s, s.table.value);
    } else {
      match s.pc[c] {
        case Calling(_) => Moves(s, LockTable(c));
        case Waiting(k, e) =>
          if s.entries[e].owner.None? { Moves(s, Acquire(c)); }
          else { assert Owning(s.pc[s.entries[e].owner.value]); }
        case Holding(_, _) => Moves(s, Unlock(c));
        case Unlocking(_, _) => Moves(s, Free(c));
        case Leaving(_, _) => Moves(s, Relock(c));
        case _ =>
      }
    }
  }

  /** A call's unlock function has run. */
  ghost predicate UnlockedAt(steps: seq<Step>, k: nat, c: Call) {
    exists i :: 0 <= i < k && i < |steps| && steps[i] == Unlock(c)
  }

  ghost predicate AgainAt(steps: seq<Step>, k: nat, c: Call) {
    exists i :: 0 <= i < k && i < |steps| && steps[i] == UnlockAgain(c)
  }

  ghost predicate PastUnlock(s: State, c: Call) {
    c in s.pc && (s.pc[c].Unlocking? || s.pc[c].Leaving? || s.pc[c].Dropping? || s.pc[c].Done?)
  }

  lemma {:induction false} PastUnlockStep(s: State, step: Step, c: Call)
    requires Enabled(s, step)
    ensures PastUnlock(Next(s, step), c) <==> PastUnlock(s, c) || step == Unlock(c)
    ensures c in Next(s, step).panics <==> c in s.panics || step == UnlockAgain(c)
    ensures step == UnlockAgain(c) ==> PastUnlock(s, c)
    ensures step == UnlockAgain(c) ==>
      Next(s, step).entries == s.entries && Next(s, step).locks == s.locks && Next(s, step).pc == s.pc
  {
  }

  /** An unlock function that is called again panics, and only then; it has run before,
      and nothing is let go a second time. */
  lemma {:induction false} PanicsExactly(states: seq<State>, steps: seq<Step>, k: nat, c: Call)
    requires Run(states, steps) && k <= |steps|
    ensures c in states[k].panics <==> AgainAt(steps, k, c)
    ensures PastUnlock(states[k], c) <==> UnlockedAt(steps, k, c)
    ensures AgainAt(steps, k, c) ==> UnlockedAt(steps, k, c)
  {
    if k > 0 {
      PanicsExactly(states, steps, k - 1, c);
      PastUnlockStep(states[k - 1], steps[k - 1], c);
      hide Init, Enabled, Next, PastUnlock;
      HistoryNext(steps, k - 1, c);
    }
  }

  lemma {:induction false} HistoryNext(steps: seq<Step>, k: nat, c: Call)
    requires k < |steps|
    ensures UnlockedAt(steps, k + 1, c) <==> UnlockedAt(steps, k, c) || steps[k] == Unlock(c)
    ensures AgainAt(steps, k + 1, c) <==> AgainAt(steps, k, c) || steps[k] == UnlockAgain(c)
  {
    if UnlockedAt(steps, k, c) {
      var i :| 0 <= i < k && i < |steps| && steps[i] == Unlock(c);
      assert UnlockedAt(steps, k + 1, c);
    }
    if AgainAt(steps, k, c) {
      var i :| 0 <= i < k && i < |steps| && steps[i] == UnlockAgain(c);
      assert AgainAt(steps, k + 1, c);
    }
  }
}
