/** The upload manager (upload/manager.go) in every interleaving of creations,
    appends, removals and sweeps, with unlinking and closing that may fail: a
    session's file is gone before the session is forgotten, and for good. */
module UploadManager {
  type Id = string
  type Object = nat      // the address of a Session
  type Task = nat        // a call of Remove, or Sweep's turn at one session

  datatype Session = Session(id: Id, closed: bool, removed: bool)

  datatype Pc =
    | Looked(o: Object)    // has the session from the map
    | Closed(o: Object)    // its close returned nil
    | Returned

  datatype State = State(
    sessions: map<Id, Object>,
    objects: map<Object, Session>,   // every session ever created
    files: set<Id>,                  // the session files that exist
    tasks: map<Task, Pc>)

  datatype Step =
    | Create(id: Id, made: Object)
    | MakeFile(o: Object)                                   // an append that spills, or fails to and leaves the file
    | Begin(t: Task, id: Id)                                // Remove, or Sweep, finds the session
    | Close(t: Task, unlinkFails: bool, fdFails: bool)
    | Forget(t: Task)

  ghost predicate Init(s: State) { s == State(map[], map[], {}, map[]) }

  ghost predicate Enabled(s: State, step: Step) {
    match step
    case Create(id, made) => made !in s.objects && forall o :: o in s.objects ==> s.objects[o].id != id
    case MakeFile(o) => o in s.objects && !s.objects[o].closed
    case Begin(t, id) => t !in s.tasks && id in s.sessions
    case Close(t, _, _) => t in s.tasks && s.tasks[t].Looked? && s.tasks[t].o in s.objects
    case Forget(t) => t in s.tasks && s.tasks[t].Closed? && s.tasks[t].o in s.objects
  }

  ghost function Next(s: State, step: Step): State
    requires Enabled(s, step)
  {
    match step
    case Create(id, made) =>
      s.(sessions := s.sessions[id := made], objects := s.objects[made := Session(id, false, false)])
    case MakeFile(o) => s.(files := s.files + {s.objects[o].id})
    case Begin(t, id) => s.(tasks := s.tasks[t := Looked(s.sessions[id])])
    case Close(t, unlinkFails, fdFails) =>
      var o := s.tasks[t].o;
      var x := s.objects[o];
      if x.removed then s.(tasks := s.tasks[t := Closed(o)])
      else if unlinkFails then s.(objects := s.objects[o := x.(closed := true)], tasks := s.tasks[t := Returned])
      else
        s.(objects := s.objects[o := x.(closed := true, removed := true)], files := s.files - {x.id},
           tasks := s.tasks[t := if fdFails then Returned else Closed(o)])
    case Forget(t) =>
      var o := s.tasks[t].o;
      var id := s.objects[o].id;
      var n := s.(tasks := s.tasks[t := Returned]);
      if id in s.sessions && s.sessions[id] == o then n.(sessions := s.sessions - {id}) else n
  }

  /** One object per id, and the map has it under its id. */
  ghost predicate OnePerId(s: State) {
    && (forall id :: id in s.sessions ==> s.sessions[id] in s.objects && s.objects[s.sessions[id]].id == id)
    && (forall o, p :: o in s.objects && p in s.objects && s.objects[o].id == s.objects[p].id ==> o == p)
  }

  /** Removed means closed and no file, and a forgotten session is removed. */
  ghost predicate FilesFirst(s: State) {
    && (forall o :: o in s.objects && s.objects[o].removed ==> s.objects[o].closed && s.objects[o].id !in s.files)
    && (forall o :: o in s.objects && s.objects[o].id !in s.sessions ==> s.objects[o].removed)
  }

  /** Only a removed session is about to be forgotten. */
  ghost predicate TasksKnown(s: State) {
    && (forall t :: t in s.tasks && !s.tasks[t].Returned? ==> s.tasks[t].o in s.objects)
    && (forall t :: t in s.tasks && s.tasks[t].Closed? ==> s.objects[s.tasks[t].o].removed)
  }

  ghost predicate FilesKnown(s: State) {
    forall id :: id in s.files ==> Known(s, id)
  }

  ghost predicate Inv(s: State) { OnePerId(s) && FilesFirst(s) && TasksKnown(s) && FilesKnown(s) }

  ghost predicate Known(s: State, id: Id) { exists o :: o in s.objects && s.objects[o].id == id }

  lemma {:induction false} KnownStep(s: State, step: Step, id: Id)
    requires Enabled(s, step) && Known(s, id)
    ensures Known(Next(s, step), id)
  {
    var o :| o in s.objects && s.objects[o].id == id;
    assert Next(s, step).objects[o].id == id;
  }

  lemma {:induction false} OnePerIdStep(s: State, step: Step)
    requires OnePerId(s) && Enabled(s, step)
    ensures OnePerId(Next(s, step))
  {
  }

  lemma {:induction false} FilesFirstStep(s: State, step: Step)
    requires OnePerId(s) && FilesFirst(s) && TasksKnown(s) && FilesKnown(s) && Enabled(s, step)
    ensures FilesFirst(Next(s, step))
  {
    assert step.Create? && step.id in s.files ==> Known(s, step.id);
  }

  lemma {:induction false} TasksKnownStep(s: State, step: Step)
    requires OnePerId(s) && TasksKnown(s) && Enabled(s, step)
    ensures TasksKnown(Next(s, step))
  {
  }

  lemma {:induction false} FilesKnownStep(s: State, step: Step)
    requires FilesKnown(s) && Enabled(s, step)
    ensures FilesKnown(Next(s, step))
  {
    var n := Next(s, step);
    forall id | id in n.files ensures Known(n, id) {
      if id in s.files { KnownStep(s, step, id); } else { assert n.objects[step.o].id == id; }
    }
  }

  /** Every step keeps the invariant. */
  lemma {:induction false} StepInv(s: State, step: Step)
    requires Inv(s) && Enabled(s, step)
    ensures Inv(Next(s, step))
  {
    hide OnePerId, FilesFirst, TasksKnown, FilesKnown, Enabled, Next;
    OnePerIdStep(s, step);
    FilesFirstStep(s, step);
    TasksKnownStep(s, step);
    FilesKnownStep(s, step);
  }

  ghost predicate Run(states: seq<State>, steps: seq<Step>) {
    && |states| == |steps| + 1 && Init(states[0])
    && forall k :: 0 <= k < |steps| ==> Enabled(states[k], steps[k]) && states[k + 1] == Next(states[k], steps[k])
  }

  lemma {:induction false} RunInv(states: seq<State>, steps: seq<Step>, k: nat)
    requires Run(states, steps) && k <= |steps|
    ensures Inv(states[k])
  {
    if k > 0 {
      hide Inv, Init, Enabled, Next;
      RunInv(states, steps, k - 1);
      StepInv(states[k - 1], steps[k - 1]);
    }
  }

  /** An id that was given out and is no longer in the map. */
  ghost predicate Gone(s: State, id: Id) { Known(s, id) && id !in s.sessions }

  lemma {:induction false} GoneStep(s: State, step: Step, id: Id)
    requires Inv(s) && Enabled(s, step) && Gone(s, id)
    ensures Gone(Next(s, step), id)
  {
    KnownStep(s, step, id);
  }

  lemma {:induction false} GoneNow(s: State, id: Id)
    requires Inv(s) && Gone(s, id)
    ensures id !in s.files
    ensures forall o :: o in s.objects && s.objects[o].id == id ==> !Enabled(s, MakeFile(o))
  {
  }

  /** A session gone from the manager has no file, its object refuses appends, and
      neither it nor its file ever comes back. */
  lemma {:induction false} GoneForGood(states: seq<State>, steps: seq<Step>, j: nat, k: nat, id: Id)
    requires Run(states, steps) && j <= k <= |steps| && Gone(states[j], id)
    ensures Gone(states[k], id) && id !in states[k].files
    ensures forall o :: o in states[k].objects && states[k].objects[o].id == id ==> !Enabled(states[k], MakeFile(o))
    decreases k - j
  {
    hide Init, Inv, Enabled, Next, Gone;
    RunInv(states, steps, k);
    if j < k {
      GoneForGood(states, steps, j, k - 1, id);
      RunInv(states, steps, k - 1);
      GoneStep(states[k - 1], steps[k - 1], id);
    }
    GoneNow(states[k], id);
  }

  /** A file always has a session in the map that answers for it, until the very
      step that unlinks it: nothing is left for no one to remove. */
  lemma {:induction false} NoOrphanFile(states: seq<State>, steps: seq<Step>, k: nat, id: Id)
    requires Run(states, steps) && k <= |steps| && id in states[k].files
    ensures id in states[k].sessions
    ensures states[k].sessions[id] in states[k].objects && !states[k].objects[states[k].sessions[id]].removed
  {
    RunInv(states, steps, k);
    hide Init, Enabled, Next;
    var s := states[k];
    var o :| o in s.objects && s.objects[o].id == id;
  }

  /** A call that gets as far as forgetting its session has forgotten it for good:
      the id is gone from the manager, its file with it, and neither comes back. */
  lemma {:induction false} ForgottenForGood(states: seq<State>, steps: seq<Step>, j: nat, k: nat, id: Id)
    requires Run(states, steps) && j < k <= |steps| && steps[j].Forget? && ForgetsAt(states[j], steps[j].t, id)
    ensures Gone(states[k], id) && id !in states[k].files
  {
    assert Enabled(states[j], steps[j]) && states[j + 1] == Next(states[j], steps[j]);
    RunInv(states, steps, j);
    ForgetStep(states[j], steps[j].t, id);
    GoneForGood(states, steps, j + 1, k, id);
  }

  /** The session a removal is about to forget has this id. */
  ghost predicate ForgetsAt(s: State, t: Task, id: Id) {
    t in s.tasks && s.tasks[t].Closed? && s.tasks[t].o in s.objects && s.objects[s.tasks[t].o].id == id
  }

  lemma {:induction false} ForgetStep(s: State, t: Task, id: Id)
    requires Inv(s) && Enabled(s, Forget(t)) && ForgetsAt(s, t, id)
    ensures Gone(Next(s, Forget(t)), id)
  {
    var n := Next(s, Forget(t));
    assert n.objects == s.objects;
    assert Known(n, id);
  }

  lemma {:induction false} ClosedStep(s: State, step: Step, o: Object)
    requires Enabled(s, step) && o in s.objects && s.objects[o].closed
    ensures o in Next(s, step).objects && Next(s, step).objects[o].closed
  {
  }

  /** Once a close has been at a session it takes no more appends, whether its file
      could be unlinked or not, and if it could the file is gone. */
  lemma {:induction false} CloseEndsAppends(states: seq<State>, steps: seq<Step>, j: nat, k: nat)
    requires Run(states, steps) && j < k <= |steps| && steps[j].Close?
    ensures steps[j].t in states[j].tasks && states[j].tasks[steps[j].t].Looked?
    ensures var o := states[j].tasks[steps[j].t].o;
      && o in states[k].objects && states[k].objects[o].closed && !Enabled(states[k], MakeFile(o))
      && (!steps[j].unlinkFails && o in states[j].objects ==> states[j].objects[o].id !in states[j + 1].files)
    decreases k - j
  {
    assert Enabled(states[j], steps[j]) && states[j + 1] == Next(states[j], steps[j]);
    if k == j + 1 {
      RunInv(states, steps, j);
    } else {
      CloseEndsAppends(states, steps, j, k - 1);
      assert Enabled(states[k - 1], steps[k - 1]) && states[k] == Next(states[k - 1], steps[k - 1]);
      ClosedStep(states[k - 1], steps[k - 1], states[j].tasks[steps[j].t].o);
    }
  }

  /** The life of a session: created, spilled to its file, found, closed and forgotten. */
  lemma {:induction false} LifeOfASession(id: Id) returns (states: seq<State>, steps: seq<Step>)
    ensures Run(states, steps) && |steps| == 5
    ensures id in states[1].sessions && id !in states[1].files
    ensures id in states[2].sessions && id in states[2].files
    ensures id in states[4].sessions && id !in states[4].files
    ensures Gone(states[5], id)
  {
    var s0 := State(map[], map[], {}, map[]);
    steps := [Create(id, 0), MakeFile(0), Begin(0, id), Close(0, false, false), Forget(0)];
    var s1 := Next(s0, steps[0]);
    var s2 := Next(s1, steps[1]);
    var s3 := Next(s2, steps[2]);
    var s4 := Next(s3, steps[3]);
    var s5 := Next(s4, steps[4]);
    states := [s0, s1, s2, s3, s4, s5];
    assert s5.objects[0].id == id;
  }
}
