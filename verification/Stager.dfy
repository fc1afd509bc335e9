/** Writing a saved archive while its blobs are rebuilt ahead of the writer
    (dockerarchive/stage.go, the loop of dockerarchive/write.go): a feeder, the
    workers and the writer in every interleaving, with their queue, the staged
    files, cancellation, the first failure and the progress counters. */
module Stager {
  import opened Wrappers

  /** One blobs/sha256 entry: a manifest held in memory or a blob to rebuild. */
  datatype Entry = Entry(digest: string, size: nat, blob: bool)

  /** The entries in digest order, and how many workers rebuild. */
  datatype Plan = Plan(entries: seq<Entry>, workers: nat)

  datatype Error = OuterCancelled | ContextCancelled | Rebuild(blob: nat) | WrongSize(blob: nat) | ArchiveFailed

  /** What a worker has made of a blob: bytes produced, error, done closed. */
  datatype Job = Job(n: nat, err: Option<Error>, done: bool)

  datatype Feeder = Queueing | Handing | Quit

  datatype Worker =
    | Idle
    | Got(job: nat)        // received, the context not looked at yet
    | Checked(job: nat)    // the context was alive
    | Writing(job: nat)    // the file exists
    | Failing(job: nat)    // the error is recorded, the file not yet removed
    | Ending(job: nat)     // about to close done
    | Exited

  datatype Result = Success | Failure(error: Error)

  datatype Writer =
    | At                    // at the entry `pos`
    | Awaiting(job: nat)    // has a blob from the queue, waits for done
    | Ready(job: nat)       // next has returned it
    | Copied(job: nat)      // its bytes are in the archive
    | Returning(result: Result)
    | Closing(result: Result)
    | Returned(result: Result)

  /** What the archive holds under a name. */
  datatype Written = Written(name: string, content: string, bytes: nat)

  datatype State = State(
    feeder: Feeder,
    fed: nat,               // blobs put on the queue
    handed: nat,            // blobs given to a worker
    queue: seq<nat>,
    taken: nat,             // blobs the writer took from the queue
    workers: seq<Worker>,
    jobs: seq<Job>,
    files: set<nat>,        // the staged files that exist
    cancelled: bool,        // the stager's context
    outer: bool,            // the caller's context
    err: Option<Error>,     // the first failure
    writer: Writer,
    pos: nat,               // the entry the writer is at
    archive: seq<Written>,
    done: nat,              // progress: entries written
    produced: nat)          // progress: bytes produced

  /** The entries that are rebuilt, in write order. */
  function Blobs(es: seq<Entry>): seq<Entry> {
    if es == [] then []
    else
      var last := es[|es| - 1];
      Blobs(es[..|es| - 1]) + if last.blob then [last] else []
  }

  /** The staged blob the writer wants at the entry `pos`. */
  function Wanted(p: Plan, pos: nat): nat
    requires pos <= |p.entries|
  {
    |Blobs(p.entries[..pos])|
  }

  ghost predicate Init(p: Plan, s: State) {
    && s.feeder == Queueing && s.fed == s.handed == s.taken == s.pos == s.done == s.produced == 0
    && s.queue == [] && s.files == {} && !s.cancelled && s.err == None && s.writer == At && s.archive == []
    && !s.outer
    && s.workers == seq(p.workers, _ => Idle) && s.jobs == seq(|Blobs(p.entries)|, _ => Job(0, None, false))
  }

  datatype FeederStep = Enqueue | Quits | Ends

  datatype WorkerStep =
    | Receive | Skip | Check | Create | CreateFails | Write(n: nat)
    | RebuildEnds | RebuildFails | Cleanup | CloseDone | Exit

  datatype WriterStep =
    | WriteManifest | Dequeue | NextCancelled | NextReady | Reject | Copy | RemoveStaged | Finish | ArchiveFails
    | CloseCancel | CloseRemove

  datatype Step = Feed(f: FeederStep) | Work(w: nat, a: WorkerStep) | Put(b: WriterStep) | OuterCancel

  predicate WorkerAt(s: State, w: nat) { w < |s.workers| }

  predicate BlobJob(s: State, w: Worker) { !w.Idle? && !w.Exited? && w.job < |s.jobs| }

  predicate Busy(s: State, w: nat) { WorkerAt(s, w) && BlobJob(s, s.workers[w]) }

  ghost predicate FeederCan(p: Plan, s: State, f: FeederStep) {
    match f
    case Enqueue => s.feeder.Queueing? && s.fed < |Blobs(p.entries)| && |s.queue| < 2 * p.workers
    case Quits => s.cancelled && (s.feeder.Handing? || (s.feeder.Queueing? && s.fed < |Blobs(p.entries)|))
    case Ends => s.feeder.Queueing? && s.fed == |Blobs(p.entries)|
  }

  ghost predicate WorkerCan(s: State, w: nat, a: WorkerStep) {
    match a
    case Receive => s.feeder.Handing? && WorkerAt(s, w) && s.workers[w].Idle?
    case Skip => Busy(s, w) && s.workers[w].Got? && s.cancelled
    case Check => Busy(s, w) && s.workers[w].Got? && !s.cancelled
    case Create => Busy(s, w) && s.workers[w].Checked?
    case CreateFails => Busy(s, w) && s.workers[w].Checked?
    case Write(n) => Busy(s, w) && s.workers[w].Writing?
    case RebuildEnds => Busy(s, w) && s.workers[w].Writing?
    case RebuildFails => Busy(s, w) && s.workers[w].Writing?
    case Cleanup => Busy(s, w) && s.workers[w].Failing?
    case CloseDone => Busy(s, w) && s.workers[w].Ending?
    case Exit => WorkerAt(s, w) && s.workers[w].Idle? && s.feeder.Quit?
  }

  ghost predicate WriterCan(p: Plan, s: State, b: WriterStep) {
    match b
    case WriteManifest => s.writer.At? && s.pos < |p.entries| && !p.entries[s.pos].blob
    case Dequeue => s.writer.At? && s.pos < |p.entries| && p.entries[s.pos].blob && s.queue != []
    case NextCancelled => s.cancelled && (s.writer.Awaiting? || (s.writer.At? && s.pos < |p.entries| && p.entries[s.pos].blob))
    case NextReady => s.writer.Awaiting? && s.writer.job < |s.jobs| && s.jobs[s.writer.job].done
    case Reject => s.writer.Ready? && s.writer.job < |s.jobs| && s.pos < |p.entries| && !Fine(p, s)
    case Copy => s.writer.Ready? && s.writer.job < |s.jobs| && s.pos < |p.entries| && Fine(p, s)
    case RemoveStaged => s.writer.Copied?
    case Finish => s.writer.At? && s.pos == |p.entries|
    case ArchiveFails => s.writer.At? || s.writer.Ready?
    case CloseCancel => s.writer.Returning?
    case CloseRemove => s.writer.Closing? && s.feeder.Quit? && AllExited(s)
  }

  ghost predicate AllExited(s: State) {
    forall w :: 0 <= w < |s.workers| ==> s.workers[w].Exited?
  }

  ghost predicate Enabled(p: Plan, s: State, step: Step) {
    match step
    case Feed(f) => FeederCan(p, s, f)
    case Work(w, a) => WorkerCan(s, w, a)
    case Put(b) => WriterCan(p, s, b)
    case OuterCancel => true
  }

  /** The rebuilt blob has no error and the size of the writer's entry. */
  predicate Fine(p: Plan, s: State)
    requires s.writer.Ready? && s.writer.job < |s.jobs| && s.pos < |p.entries|
  {
    s.jobs[s.writer.job].err == None && s.jobs[s.writer.job].n == p.entries[s.pos].size
  }

  /** The error the writer reports for one it met (failure). */
  function Reported(s: State, met: Error): Error {
    if s.outer then OuterCancelled else if s.err.Some? then s.err.value else met
  }

  function Move(s: State, w: nat, to: Worker): State
    requires WorkerAt(s, w)
  {
    s.(workers := s.workers[w := to])
  }

  function SetErr(s: State, j: nat, e: Error): State
    requires j < |s.jobs|
  {
    s.(jobs := s.jobs[j := s.jobs[j].(err := Some(e))])
  }

  ghost function FeederNext(p: Plan, s: State, f: FeederStep): State
    requires FeederCan(p, s, f)
  {
    match f
    case Enqueue => s.(queue := s.queue + [s.fed], fed := s.fed + 1, feeder := Handing)
    case Quits => s.(feeder := Quit)
    case Ends => s.(feeder := Quit)
  }

  ghost function WorkerNext(s: State, w: nat, a: WorkerStep): State
    requires WorkerCan(s, w, a)
  {
    if a.Receive? then Move(s, w, Got(s.handed)).(handed := s.handed + 1, feeder := Queueing)
    else if a.Exit? then Move(s, w, Exited)
    else
      var j := s.workers[w].job;
      match a
      case Skip => Move(SetErr(s, j, ContextCancelled), w, Ending(j))
      case Check => Move(s, w, Checked(j))
      case Create => Move(s, w, Writing(j)).(files := s.files + {j})
      case CreateFails => Move(SetErr(s, j, Rebuild(j)), w, Failing(j))
      case Write(n) => s.(jobs := s.jobs[j := s.jobs[j].(n := s.jobs[j].n + n)], produced := s.produced + n)
      case RebuildEnds => Move(s, w, Ending(j))
      case RebuildFails => Move(SetErr(s, j, Rebuild(j)), w, Failing(j))
      case Cleanup =>
        var m := Move(s, w, Ending(j)).(files := s.files - {j});
        if s.err.Some? then m else m.(err := Some(Rebuild(j)), cancelled := true)
      case CloseDone => Move(s, w, Idle).(jobs := s.jobs[j := s.jobs[j].(done := true)])
  }

  ghost function WriterNext(p: Plan, s: State, b: WriterStep): State
    requires WriterCan(p, s, b)
  {
    match b
    case WriteManifest =>
      var e := p.entries[s.pos];
      s.(archive := s.archive + [Written(e.digest, e.digest, e.size)], pos := s.pos + 1, done := s.done + 1,
         produced := s.produced + e.size)
    case Dequeue => s.(writer := Awaiting(s.queue[0]), queue := s.queue[1..], taken := s.taken + 1)
    case NextCancelled => s.(writer := Returning(Failure(Reported(s, ContextCancelled))))
    case NextReady => s.(writer := Ready(s.writer.job))
    case Reject =>
      var j := s.jobs[s.writer.job];
      s.(writer := Returning(Failure(if j.err.Some? then Reported(s, j.err.value) else WrongSize(s.writer.job))))
    case Copy =>
      var j := s.writer.job;
      var content := if j < |Blobs(p.entries)| then Blobs(p.entries)[j].digest else "";
      s.(writer := Copied(j), archive := s.archive + [Written(p.entries[s.pos].digest, content, s.jobs[j].n)])
    case RemoveStaged => s.(writer := At, pos := s.pos + 1, done := s.done + 1, files := s.files - {s.writer.job})
    case Finish => s.(writer := Returning(Success))
    case ArchiveFails => s.(writer := Returning(Failure(ArchiveFailed)))
    case CloseCancel => s.(writer := Closing(s.writer.result), cancelled := true)
    case CloseRemove => s.(writer := Returned(s.writer.result), files := {})
  }

  ghost function Next(p: Plan, s: State, step: Step): State
    requires Enabled(p, s, step)
  {
    match step
    case Feed(f) => FeederNext(p, s, f)
    case Work(w, a) => WorkerNext(s, w, a)
    case Put(b) => WriterNext(p, s, b)
    case OuterCancel => s.(outer := true, cancelled := true)
  }

  // ---- Entries and blobs --------------------------------------------------------

  lemma {:induction false} BlobsPrefix(es: seq<Entry>, j: nat)
    requires j <= |es|
    ensures Blobs(es[..j]) <= Blobs(es)
    decreases |es|
  {
    if j < |es| {
      var init := es[..|es| - 1];
      assert init[..j] == es[..j];
      BlobsPrefix(init, j);
    } else {
      assert es[..j] == es;
    }
  }

  lemma {:induction false} BlobsNext(es: seq<Entry>, j: nat)
    requires j < |es|
    ensures Blobs(es[..j + 1]) == Blobs(es[..j]) + if es[j].blob then [es[j]] else []
  {
    assert es[..j + 1][..j] == es[..j];
  }

  /** The blob counted at an entry is that entry. */
  lemma {:induction false} WantedBlob(p: Plan, j: nat)
    requires j < |p.entries|
    ensures Wanted(p, j + 1) == Wanted(p, j) + if p.entries[j].blob then 1 else 0
    ensures Wanted(p, j + 1) <= |Blobs(p.entries)|
    ensures p.entries[j].blob ==> Blobs(p.entries)[Wanted(p, j)] == p.entries[j]
  {
    BlobsNext(p.entries, j);
    BlobsPrefix(p.entries, j + 1);
    var head := Blobs(p.entries[..j + 1]);
    assert p.entries[j].blob ==> Blobs(p.entries)[|head| - 1] == head[|head| - 1];
  }

  // ---- The invariant ------------------------------------------------------------

  /** The queue holds, in order, what was fed and not yet taken. */
  ghost predicate OrderInv(p: Plan, s: State) {
    && s.taken <= s.fed <= |Blobs(p.entries)| && s.handed <= s.fed
    && |s.queue| == s.fed - s.taken && |s.queue| <= 2 * p.workers
    && (forall k :: 0 <= k < |s.queue| ==> s.queue[k] == s.taken + k)
    && (s.feeder.Queueing? ==> s.fed == s.handed)
    && (s.feeder.Handing? ==> s.fed == s.handed + 1)
    && (s.feeder.Quit? ==> s.cancelled || s.handed == |Blobs(p.entries)|)
    && |s.jobs| == |Blobs(p.entries)| && |s.workers| == p.workers
  }

  predicate HasBlob(w: Writer) { w.Awaiting? || w.Ready? || w.Copied? }

  predicate Succeeded(w: Writer) {
    (w.Returning? || w.Closing? || w.Returned?) && w.result.Success?
  }

  /** The writer's blob is the one its entry wants. */
  ghost predicate PositionInv(p: Plan, s: State) {
    && s.pos <= |p.entries| && s.done == s.pos
    && (s.writer.At? ==> s.taken == Wanted(p, s.pos))
    && (HasBlob(s.writer) ==>
          s.pos < |p.entries| && p.entries[s.pos].blob && s.writer.job == Wanted(p, s.pos) && s.taken == s.writer.job + 1)
    && (Succeeded(s.writer) ==> s.pos == |p.entries| && s.taken == |Blobs(p.entries)|)
  }

  predicate AtJob(workers: seq<Worker>, w: nat, j: nat) {
    w < |workers| && !workers[w].Idle? && !workers[w].Exited? && workers[w].job == j
  }

  /** A job given out and not done is with exactly one worker. */
  ghost predicate Crew(workers: seq<Worker>, jobs: seq<Job>, handed: nat, quit: bool) {
    && handed <= |jobs|
    && (forall w: nat, j: nat :: AtJob(workers, w, j) ==> j < handed && !jobs[j].done)
    && (forall v: nat, w: nat, j: nat :: AtJob(workers, v, j) && AtJob(workers, w, j) ==> v == w)
    && (forall j: nat :: j < handed && !jobs[j].done ==> exists w: nat :: AtJob(workers, w, j))
    && (forall j :: handed <= j < |jobs| ==> jobs[j] == Job(0, None, false))
    && (forall w :: 0 <= w < |workers| && workers[w].Exited? ==> quit)
  }

  ghost predicate CrewInv(s: State) {
    Crew(s.workers, s.jobs, s.handed, s.feeder.Quit?)
  }

  /** How many blobs are behind the writer. */
  function Behind(s: State): nat {
    if s.writer.At? || s.writer.Copied? || Succeeded(s.writer) then s.taken
    else if s.taken == 0 then 0 else s.taken - 1
  }

  /** What is behind the writer was rebuilt whole. */
  ghost predicate BehindInv(p: Plan, s: State) {
    && Behind(s) <= |s.jobs| == |Blobs(p.entries)|
    && (forall j :: 0 <= j < Behind(s) ==> s.jobs[j] == Job(Blobs(p.entries)[j].size, None, true))
    && (s.writer.Ready? ==> s.writer.job < |s.jobs| && s.jobs[s.writer.job].done)
  }

  /** The first staged file that may exist. */
  function First(s: State): nat {
    if s.writer.At? || Succeeded(s.writer) || s.taken == 0 then s.taken else s.taken - 1
  }

  ghost predicate FilesInv(s: State) {
    && (forall j :: j in s.files ==> First(s) <= j < s.handed)
    && (s.writer.Returned? ==> s.files == {} && s.feeder.Quit? && AllExited(s))
  }

  function Produced(jobs: seq<Job>): nat {
    if jobs == [] then 0 else Produced(jobs[..|jobs| - 1]) + jobs[|jobs| - 1].n
  }

  function Sizes(es: seq<Entry>): nat {
    if es == [] then 0 else Sizes(es[..|es| - 1]) + es[|es| - 1].size
  }

  function Manifests(es: seq<Entry>): nat {
    if es == [] then 0
    else Manifests(es[..|es| - 1]) + if es[|es| - 1].blob then 0 else es[|es| - 1].size
  }

  ghost predicate BytesInv(p: Plan, s: State) {
    s.pos <= |p.entries| && s.produced == Produced(s.jobs) + Manifests(p.entries[..s.pos])
  }

  /** Every entry holds the bytes of the blob it is named after. */
  ghost predicate ArchiveInv(p: Plan, s: State) {
    && |s.archive| == s.pos + (if s.writer.Copied? then 1 else 0) <= |p.entries|
    && forall k :: 0 <= k < |s.archive| ==>
         s.archive[k] == Written(p.entries[k].digest, p.entries[k].digest, p.entries[k].size)
  }

  predicate Root(e: Error) { !e.ContextCancelled? }

  /** A cancelled context has a cause, and the writer reports causes. */
  ghost predicate CauseInv(s: State) {
    && (s.cancelled ==> s.outer || s.err.Some? || s.writer.Closing? || s.writer.Returned?)
    && (s.err.Some? ==> s.cancelled && s.err.value.Rebuild?)
    && (s.outer ==> s.cancelled)
    && (forall j: nat :: j < |s.jobs| && s.jobs[j].err.Some? ==>
          s.cancelled || exists w: nat :: AtJob(s.workers, w, j) && s.workers[w].Failing?)
    && ((s.writer.Closing? || s.writer.Returned?) ==> s.cancelled)
    && ((s.writer.Returning? || s.writer.Closing? || s.writer.Returned?) && s.writer.result.Failure? ==>
          Root(s.writer.result.error))
  }

  ghost predicate Inv(p: Plan, s: State) {
    && OrderInv(p, s) && PositionInv(p, s) && CrewInv(s) && BehindInv(p, s)
    && FilesInv(s) && BytesInv(p, s) && ArchiveInv(p, s) && CauseInv(s)
  }

  // ---- One step -----------------------------------------------------------------

  /** What a worker's step may change. */
  ghost predicate WorkerFrame(s: State, n: State) {
    && n.fed == s.fed && n.queue == s.queue && n.taken == s.taken && n.outer == s.outer
    && n.writer == s.writer && n.pos == s.pos && n.archive == s.archive && n.done == s.done
    && |n.workers| == |s.workers| && |n.jobs| == |s.jobs| && (s.cancelled ==> n.cancelled)
  }

  lemma {:induction false} WorkerFrames(s: State, w: nat, a: WorkerStep)
    requires WorkerCan(s, w, a)
    ensures WorkerFrame(s, WorkerNext(s, w, a))
    ensures var n := WorkerNext(s, w, a); a.Receive? || (n.handed == s.handed && n.feeder == s.feeder)
  {
  }

  /** What a writer's step may change. */
  ghost predicate WriterFrame(s: State, n: State) {
    && n.feeder == s.feeder && n.fed == s.fed && n.handed == s.handed && n.workers == s.workers && n.jobs == s.jobs
    && n.files <= s.files && n.outer == s.outer && n.err == s.err && (s.cancelled ==> n.cancelled)
  }

  lemma {:induction false} WriterFrames(p: Plan, s: State, b: WriterStep)
    requires WriterCan(p, s, b)
    ensures WriterFrame(s, WriterNext(p, s, b))
  {
    hide Blobs;
  }

  lemma {:induction false} OrderStep(p: Plan, s: State, step: Step)
    requires OrderInv(p, s) && Enabled(p, s, step)
    ensures OrderInv(p, Next(p, s, step))
  {
    hide Blobs, WorkerNext, WriterNext;
    match step {
      case Feed(_) =>
      case Work(w, a) =>
        WorkerFrames(s, w, a);
        if a.Receive? { ReceiveHands(s, w, a); }
      case Put(b) =>
        WriterFrames(p, s, b);
        DequeueTakes(p, s, b);
      case OuterCancel =>
    }
  }

  lemma {:induction false} ReceiveHands(s: State, w: nat, a: WorkerStep)
    requires WorkerCan(s, w, a) && a.Receive?
    ensures var n := WorkerNext(s, w, a); n.handed == s.handed + 1 && n.feeder == Queueing && s.feeder == Handing
  {
  }

  lemma {:induction false} DequeueTakes(p: Plan, s: State, b: WriterStep)
    requires WriterCan(p, s, b)
    ensures
      var n := WriterNext(p, s, b);
      if b.Dequeue? then |s.queue| > 0 && n.queue == s.queue[1..] && n.taken == s.taken + 1
      else n.queue == s.queue && n.taken == s.taken
  {
    hide Blobs;
  }

  lemma {:induction false} PositionStep(p: Plan, s: State, step: Step)
    requires OrderInv(p, s) && PositionInv(p, s) && Enabled(p, s, step)
    ensures PositionInv(p, Next(p, s, step))
  {
    hide Blobs, WorkerNext, WorkerCan, WriterNext, WriterCan, Wanted;
    match step {
      case Work(w, a) => WorkerFrames(s, w, a);
      case Put(b) => PositionPut(p, s, b);
      case _ =>
    }
  }

  lemma {:induction false} PositionPut(p: Plan, s: State, b: WriterStep)
    requires OrderInv(p, s) && PositionInv(p, s) && WriterCan(p, s, b)
    ensures PositionInv(p, WriterNext(p, s, b))
  {
    if s.pos < |p.entries| { WantedBlob(p, s.pos); } else { WantedAll(p); }
    hide Blobs, Wanted;
  }

  lemma {:induction false} WantedAll(p: Plan)
    ensures Wanted(p, |p.entries|) == |Blobs(p.entries)|
  {
    assert p.entries[..|p.entries|] == p.entries;
  }

  lemma {:induction false} BehindStep(p: Plan, s: State, step: Step)
    requires OrderInv(p, s) && PositionInv(p, s) && CrewInv(s) && BehindInv(p, s) && Enabled(p, s, step)
    ensures BehindInv(p, Next(p, s, step))
  {
    hide Blobs, WorkerNext, WorkerCan, WriterNext, WriterCan, Wanted;
    match step {
      case Work(w, a) => WorkerFrames(s, w, a); JobsDone(s, w, a);
      case Put(b) => BehindPut(p, s, b);
      case _ =>
    }
  }

  /** A job that is done changes no more. */
  lemma {:induction false} JobsDone(s: State, w: nat, a: WorkerStep)
    requires WorkerCan(s, w, a)
    requires forall j: nat :: j < |s.jobs| && AtJob(s.workers, w, j) ==> !s.jobs[j].done
    ensures var n := WorkerNext(s, w, a); forall j :: 0 <= j < |s.jobs| && s.jobs[j].done ==> n.jobs[j] == s.jobs[j]
  {
  }

  lemma {:induction false} BehindPut(p: Plan, s: State, b: WriterStep)
    requires OrderInv(p, s) && PositionInv(p, s) && BehindInv(p, s) && WriterCan(p, s, b)
    ensures BehindInv(p, WriterNext(p, s, b))
  {
    WriterFrames(p, s, b);
    if b.Copy? {
      BehindCopy(p, s);
    } else {
      BehindLess(p, s, b);
      hide Blobs, Wanted, WriterNext, WriterCan, Behind, OrderInv, PositionInv;
    }
  }

  /** Only copying a blob puts one more behind the writer. */
  lemma {:induction false} BehindLess(p: Plan, s: State, b: WriterStep)
    requires OrderInv(p, s) && PositionInv(p, s) && BehindInv(p, s) && WriterCan(p, s, b) && !b.Copy?
    ensures Behind(WriterNext(p, s, b)) <= Behind(s)
    ensures var w := WriterNext(p, s, b).writer; w.Ready? ==> w.job < |s.jobs| && s.jobs[w.job].done
  {
    hide Blobs, Wanted;
  }

  lemma {:induction false} BehindCopy(p: Plan, s: State)
    requires OrderInv(p, s) && PositionInv(p, s) && BehindInv(p, s) && WriterCan(p, s, Copy)
    ensures BehindInv(p, WriterNext(p, s, Copy))
  {
    WantedBlob(p, s.pos);
    hide Blobs, Wanted;
  }

  lemma {:induction false} FilesStep(p: Plan, s: State, step: Step)
    requires OrderInv(p, s) && PositionInv(p, s) && CrewInv(s) && BehindInv(p, s) && FilesInv(s) && Enabled(p, s, step)
    ensures FilesInv(Next(p, s, step))
  {
    hide Blobs, Wanted, WorkerNext, WorkerCan, WriterNext, WriterCan;
    match step {
      case Work(w, a) => FilesWork(p, s, w, a);
      case Put(b) => FilesPut(p, s, b);
      case _ =>
    }
  }

  lemma {:induction false} FilesWork(p: Plan, s: State, w: nat, a: WorkerStep)
    requires CrewInv(s) && BehindInv(p, s) && FilesInv(s) && WorkerCan(s, w, a)
    ensures FilesInv(WorkerNext(s, w, a))
  {
    hide Blobs;
    assert a.Receive? || a.Exit? || AtJob(s.workers, w, s.workers[w].job);
  }

  lemma {:induction false} FilesPut(p: Plan, s: State, b: WriterStep)
    requires PositionInv(p, s) && FilesInv(s) && WriterCan(p, s, b)
    ensures FilesInv(WriterNext(p, s, b))
  {
    hide Blobs, Wanted;
  }

  lemma {:induction false} ProducedMore(jobs: seq<Job>, j: nat, job: Job)
    requires j < |jobs|
    ensures Produced(jobs[j := job]) == Produced(jobs) - jobs[j].n + job.n
  {
    var last := |jobs| - 1;
    if j < last {
      ProducedMore(jobs[..last], j, job);
      assert jobs[j := job][..last] == jobs[..last][j := job];
    } else {
      assert jobs[j := job][..last] == jobs[..last];
    }
  }

  lemma {:induction false} ManifestsNext(es: seq<Entry>, j: nat)
    requires j < |es|
    ensures Manifests(es[..j + 1]) == Manifests(es[..j]) + if es[j].blob then 0 else es[j].size
  {
    assert es[..j + 1][..j] == es[..j];
  }

  lemma {:induction false} BytesWork(s: State, w: nat, a: WorkerStep)
    requires WorkerCan(s, w, a)
    ensures var n := WorkerNext(s, w, a); n.produced - Produced(n.jobs) == s.produced - Produced(s.jobs)
  {
    hide Produced;
    var n := WorkerNext(s, w, a);
    if !a.Receive? && !a.Exit? {
      var j := s.workers[w].job;
      ProducedMore(s.jobs, j, n.jobs[j]);
      assert n.jobs == s.jobs[j := n.jobs[j]];
    }
  }

  lemma {:induction false} BytesPut(p: Plan, s: State, b: WriterStep)
    requires PositionInv(p, s) && BytesInv(p, s) && WriterCan(p, s, b)
    ensures BytesInv(p, WriterNext(p, s, b))
  {
    hide Blobs, Wanted, Produced, Manifests;
    if s.pos < |p.entries| { ManifestsNext(p.entries, s.pos); }
  }

  lemma {:induction false} BytesStep(p: Plan, s: State, step: Step)
    requires PositionInv(p, s) && BytesInv(p, s) && Enabled(p, s, step)
    ensures BytesInv(p, Next(p, s, step))
  {
    hide Blobs, Wanted, WorkerNext, WorkerCan, WriterNext, WriterCan, Produced, Manifests;
    match step {
      case Work(w, a) => WorkerFrames(s, w, a); BytesWork(s, w, a);
      case Put(b) => BytesPut(p, s, b);
      case _ =>
    }
  }

  lemma {:induction false} ArchivePut(p: Plan, s: State, b: WriterStep)
    requires PositionInv(p, s) && ArchiveInv(p, s) && WriterCan(p, s, b)
    ensures ArchiveInv(p, WriterNext(p, s, b))
  {
    if s.pos < |p.entries| { WantedBlob(p, s.pos); }
    hide Blobs, Wanted;
  }

  lemma {:induction false} ArchiveStep(p: Plan, s: State, step: Step)
    requires PositionInv(p, s) && ArchiveInv(p, s) && Enabled(p, s, step)
    ensures ArchiveInv(p, Next(p, s, step))
  {
    hide Blobs, Wanted, WorkerNext, WorkerCan, WriterNext, WriterCan;
    match step {
      case Work(w, a) => WorkerFrames(s, w, a);
      case Put(b) => ArchivePut(p, s, b);
      case _ =>
    }
  }

  lemma {:induction false} CauseWork(p: Plan, s: State, w: nat, a: WorkerStep)
    requires CrewInv(s) && CauseInv(s) && WorkerCan(s, w, a)
    ensures CauseInv(WorkerNext(s, w, a))
  {
    var n := WorkerNext(s, w, a);
    forall j: nat | j < |n.jobs| && n.jobs[j].err.Some? && !n.cancelled
      ensures exists v: nat :: AtJob(n.workers, v, j) && n.workers[v].Failing?
    {
      if (a.CreateFails? || a.RebuildFails?) && j == s.workers[w].job {
        assert AtJob(n.workers, w, j);
      } else {
        var v: nat :| AtJob(s.workers, v, j) && s.workers[v].Failing?;
        assert AtJob(n.workers, v, j);
      }
    }
  }

  lemma {:induction false} CausePut(p: Plan, s: State, b: WriterStep)
    requires CrewInv(s) && BehindInv(p, s) && CauseInv(s) && WriterCan(p, s, b)
    ensures CauseInv(WriterNext(p, s, b))
  {
    hide Blobs;
    WriterFrames(p, s, b);
  }

  lemma {:induction false} CauseStep(p: Plan, s: State, step: Step)
    requires CrewInv(s) && BehindInv(p, s) && CauseInv(s) && Enabled(p, s, step)
    ensures CauseInv(Next(p, s, step))
  {
    hide Blobs, WorkerNext, WorkerCan, WriterNext, WriterCan, CrewInv, BehindInv;
    match step {
      case Work(w, a) => CauseWork(p, s, w, a);
      case Put(b) => CausePut(p, s, b);
      case _ =>
    }
  }

  /** What a busy worker's step does to the crew. */
  lemma {:induction false} CrewEffect(s: State, w: nat, a: WorkerStep)
    requires WorkerCan(s, w, a)
    ensures
      var n := WorkerNext(s, w, a);
      match a
      case Receive => n.workers == s.workers[w := Got(s.handed)] && n.jobs == s.jobs
      case Exit => n.workers == s.workers[w := Exited] && n.jobs == s.jobs && s.feeder.Quit?
      case CloseDone =>
        n.workers == s.workers[w := Idle] && n.jobs == s.jobs[s.workers[w].job := s.jobs[s.workers[w].job].(done := true)]
      case _ =>
        var j := s.workers[w].job;
        AtJob(n.workers, w, j) && n.workers == s.workers[w := n.workers[w]] && |n.jobs| == |s.jobs|
        && n.jobs == s.jobs[j := n.jobs[j]] && n.jobs[j].done == s.jobs[j].done
  {
  }

  lemma {:induction false} CrewReceive(workers: seq<Worker>, jobs: seq<Job>, handed: nat, w: nat)
    requires Crew(workers, jobs, handed, false) && handed < |jobs| && w < |workers| && workers[w].Idle?
    ensures Crew(workers[w := Got(handed)], jobs, handed + 1, false)
  {
    var now := workers[w := Got(handed)];
    assert AtJob(now, w, handed);
    assert forall v: nat, j: nat :: v != w ==> (AtJob(now, v, j) <==> AtJob(workers, v, j));
  }

  /** A worker without a job has none afterwards either. */
  lemma {:induction false} CrewExit(workers: seq<Worker>, jobs: seq<Job>, handed: nat, w: nat)
    requires Crew(workers, jobs, handed, true) && w < |workers| && workers[w].Idle?
    ensures Crew(workers[w := Exited], jobs, handed, true)
  {
    var now := workers[w := Exited];
    assert forall v: nat, j: nat :: AtJob(now, v, j) <==> AtJob(workers, v, j);
  }

  lemma {:induction false} CrewDone(workers: seq<Worker>, jobs: seq<Job>, handed: nat, quit: bool, w: nat, j: nat)
    requires Crew(workers, jobs, handed, quit) && AtJob(workers, w, j) && j < |jobs|
    ensures Crew(workers[w := Idle], jobs[j := jobs[j].(done := true)], handed, quit)
  {
    var now := workers[w := Idle];
    assert forall v: nat, i: nat :: i != j ==> (AtJob(now, v, i) <==> AtJob(workers, v, i));
    assert forall v: nat :: AtJob(now, v, j) ==> v != w && AtJob(workers, v, j);
  }

  lemma {:induction false} CrewKeeps(workers: seq<Worker>, jobs: seq<Job>, handed: nat, quit: bool, w: nat, j: nat,
      at: Worker, job: Job)
    requires Crew(workers, jobs, handed, quit) && AtJob(workers, w, j) && j < |jobs|
    requires AtJob(workers[w := at], w, j) && job.done == jobs[j].done
    ensures Crew(workers[w := at], jobs[j := job], handed, quit)
  {
    var now := workers[w := at];
    assert forall v: nat, i: nat :: AtJob(now, v, i) <==> AtJob(workers, v, i);
  }

  lemma {:induction false} CrewWork(p: Plan, s: State, w: nat, a: WorkerStep)
    requires OrderInv(p, s) && CrewInv(s) && WorkerCan(s, w, a)
    ensures CrewInv(WorkerNext(s, w, a))
  {
    hide Blobs, WorkerNext, Crew;
    var n := WorkerNext(s, w, a);
    WorkerFrames(s, w, a);
    CrewEffect(s, w, a);
    match a {
      case Receive => ReceiveHands(s, w, a); CrewReceive(s.workers, s.jobs, s.handed, w);
      case Exit => CrewExit(s.workers, s.jobs, s.handed, w);
      case CloseDone => CrewDone(s.workers, s.jobs, s.handed, s.feeder.Quit?, w, s.workers[w].job);
      case _ =>
        var j := s.workers[w].job;
        CrewKeeps(s.workers, s.jobs, s.handed, s.feeder.Quit?, w, j, n.workers[w], n.jobs[j]);
    }
  }

  lemma {:induction false} CrewQuits(workers: seq<Worker>, jobs: seq<Job>, handed: nat, quit: bool)
    requires Crew(workers, jobs, handed, quit)
    ensures Crew(workers, jobs, handed, true)
  {
  }

  lemma {:induction false} CrewStep(p: Plan, s: State, step: Step)
    requires OrderInv(p, s) && CrewInv(s) && Enabled(p, s, step)
    ensures CrewInv(Next(p, s, step))
  {
    hide Blobs, WorkerNext, WorkerCan, WriterNext, WriterCan, Crew, OrderInv;
    match step {
      case Feed(_) => if Next(p, s, step).feeder.Quit? { CrewQuits(s.workers, s.jobs, s.handed, s.feeder.Quit?); }
      case Work(w, a) => CrewWork(p, s, w, a);
      case Put(b) => WriterFrames(p, s, b);
      case OuterCancel =>
    }
  }

  /** Every step keeps the invariant. */
  lemma {:induction false} StepInv(p: Plan, s: State, step: Step)
    requires Inv(p, s) && Enabled(p, s, step)
    ensures Inv(p, Next(p, s, step))
  {
    hide OrderInv, PositionInv, CrewInv, BehindInv, FilesInv, BytesInv, ArchiveInv, CauseInv, Enabled, Next;
    OrderStep(p, s, step);
    PositionStep(p, s, step);
    CrewStep(p, s, step);
    BehindStep(p, s, step);
    FilesStep(p, s, step);
    BytesStep(p, s, step);
    ArchiveStep(p, s, step);
    CauseStep(p, s, step);
  }

  // ---- Whole runs -----------------------------------------------------------------

  ghost predicate Run(p: Plan, states: seq<State>, steps: seq<Step>) {
    && |states| == |steps| + 1 && Init(p, states[0])
    && forall k :: 0 <= k < |steps| ==>
         Enabled(p, states[k], steps[k]) && states[k + 1] == Next(p, states[k], steps[k])
  }

  lemma {:induction false} NothingProduced(jobs: seq<Job>)
    requires forall j :: 0 <= j < |jobs| ==> jobs[j].n == 0
    ensures Produced(jobs) == 0
  {
    if jobs != [] { NothingProduced(jobs[..|jobs| - 1]); }
  }

  lemma {:induction false} InitInv(p: Plan, s: State)
    requires Init(p, s)
    ensures Inv(p, s)
  {
    NothingProduced(s.jobs);
    assert p.entries[..0] == [];
    hide Produced;
  }

  lemma {:induction false} RunInv(p: Plan, states: seq<State>, steps: seq<Step>, k: nat)
    requires Run(p, states, steps) && k <= |steps|
    ensures Inv(p, states[k])
  {
    hide Inv, Init, Enabled, Next;
    if k == 0 {
      InitInv(p, states[0]);
    } else {
      RunInv(p, states, steps, k - 1);
      StepInv(p, states[k - 1], steps[k - 1]);
    }
  }

  /** Whenever next returns, it returns the blob of the entry the writer is at:
      the k-th call the k-th blob. */
  lemma {:induction false} NextMatchesTheEntry(p: Plan, states: seq<State>, steps: seq<Step>, k: nat)
    requires Run(p, states, steps) && k <= |steps| && states[k].writer.Ready?
    ensures
      var s := states[k];
      && s.writer.job == s.taken - 1 < |Blobs(p.entries)| == |s.jobs| && s.pos < |p.entries|
      && Blobs(p.entries)[s.writer.job] == p.entries[s.pos]
      && s.jobs[s.writer.job].done
  {
    hide Init, Enabled, Next;
    RunInv(p, states, steps, k);
    WantedBlob(p, states[k].pos);
  }

  lemma {:induction false} Within(numbers: set<nat>, low: nat, high: nat)
    requires low <= high && forall j :: j in numbers ==> low <= j < high
    ensures |numbers| <= high - low
    decreases high - low
  {
    if low < high {
      Within(numbers - {low}, low + 1, high);
    } else {
      assert numbers == {};
    }
  }

  /** At most 2 * workers + 1 staged files exist at once. */
  lemma {:induction false} FewStagedFiles(p: Plan, states: seq<State>, steps: seq<Step>, k: nat)
    requires Run(p, states, steps) && k <= |steps|
    ensures |states[k].files| <= 2 * p.workers + 1
  {
    hide Init, Enabled, Next, Blobs, Wanted, CrewInv, BehindInv, BytesInv, ArchiveInv, CauseInv;
    RunInv(p, states, steps, k);
    var s := states[k];
    if s.files != {} {
      var j :| j in s.files;
      Within(s.files, First(s), s.handed);
    }
  }

  lemma {:induction false} AllSizes(es: seq<Entry>)
    ensures Sizes(es) == Manifests(es) + Sizes(Blobs(es))
  {
    if es != [] {
      var init, last := es[..|es| - 1], es[|es| - 1];
      AllSizes(init);
      if last.blob {
        assert Blobs(es)[..|Blobs(es)| - 1] == Blobs(init);
      } else {
        assert Blobs(es) == Blobs(init);
      }
    }
  }

  lemma {:induction false} AllProduced(jobs: seq<Job>, blobs: seq<Entry>)
    requires |jobs| == |blobs| && forall j :: 0 <= j < |jobs| ==> jobs[j].n == blobs[j].size
    ensures Produced(jobs) == Sizes(blobs)
  {
    if jobs != [] { AllProduced(jobs[..|jobs| - 1], blobs[..|blobs| - 1]); }
  }

  /** When writing succeeds, Produced is Total and Done is Count, and the archive
      holds every entry in order with the bytes of the digest it is named after. */
  lemma {:induction false} SuccessIsComplete(p: Plan, states: seq<State>, steps: seq<Step>, k: nat)
    requires Run(p, states, steps) && k <= |steps| && Succeeded(states[k].writer)
    ensures
      var s := states[k];
      && s.produced == Sizes(p.entries) && s.done == |p.entries|
      && s.archive == seq(|p.entries|, i requires 0 <= i < |p.entries| =>
           Written(p.entries[i].digest, p.entries[i].digest, p.entries[i].size))
  {
    hide Init, Enabled, Next;
    RunInv(p, states, steps, k);
    var s := states[k];
    assert p.entries[..s.pos] == p.entries;
    hide Wanted, CrewInv, CauseInv, FilesInv;
    AllSizes(p.entries);
    AllProduced(s.jobs, Blobs(p.entries));
  }

  /** Write returns with no staged file, no worker and no feeder left, and never
      reports a cancellation that a failure of its own caused. */
  lemma {:induction false} NothingLeftBehind(p: Plan, states: seq<State>, steps: seq<Step>, k: nat)
    requires Run(p, states, steps) && k <= |steps| && states[k].writer.Returned?
    ensures states[k].files == {} && states[k].feeder.Quit? && AllExited(states[k])
    ensures states[k].writer.result != Failure(ContextCancelled)
  {
    hide Init, Enabled, Next, OrderInv, PositionInv, CrewInv, BehindInv, BytesInv, ArchiveInv;
    RunInv(p, states, steps, k);
  }

  /** The steps that need nothing from outside: no failure, no cancellation by
      the caller and no more bytes from the source. */
  predicate Forward(step: Step) {
    && !step.OuterCancel?
    && (step.Put? ==> !step.b.ArchiveFails?)
    && (step.Work? ==> !step.a.CreateFails? && !step.a.RebuildFails? && !step.a.Write?)
  }

  ghost predicate CanGoOn(p: Plan, s: State) {
    exists step :: Forward(step) && Enabled(p, s, step)
  }

  lemma {:induction false} GoesOn(p: Plan, s: State, step: Step)
    requires Forward(step) && Enabled(p, s, step)
    ensures CanGoOn(p, s)
  {
  }

  /** A worker with a job always goes on. */
  lemma {:induction false} WorkerGoesOn(p: Plan, s: State, w: nat)
    requires Busy(s, w)
    ensures CanGoOn(p, s)
  {
    hide CanGoOn;
    var a := match s.workers[w]
      case Got(_) => if s.cancelled then Skip else Check
      case Checked(_) => Create
      case Writing(_) => RebuildEnds
      case Failing(_) => Cleanup
      case _ => CloseDone;
    GoesOn(p, s, Work(w, a));
  }

  /** A job in the feeder's hand or with a worker is not forgotten. */
  lemma {:induction false} JobGoesOn(p: Plan, s: State, j: nat)
    requires OrderInv(p, s) && CrewInv(s) && p.workers > 0 && !s.cancelled
    requires j < s.fed && !s.jobs[j].done
    ensures CanGoOn(p, s)
  {
    hide CanGoOn, Blobs;
    if j < s.handed {
      var w: nat :| AtJob(s.workers, w, j);
      WorkerGoesOn(p, s, w);
    } else {
      var w := s.workers[0];
      assert w.Idle? || w.Exited? || AtJob(s.workers, 0, w.job);
      if w.Idle? { GoesOn(p, s, Work(0, Receive)); } else { WorkerGoesOn(p, s, 0); }
    }
  }

  /** Closing waits for a feeder and workers that all go on. */
  lemma {:induction false} ClosingGoesOn(p: Plan, s: State)
    requires OrderInv(p, s) && CrewInv(s) && s.writer.Closing? && s.cancelled
    ensures CanGoOn(p, s)
  {
    hide CanGoOn, Blobs;
    if s.feeder.Handing? || s.feeder.Queueing? {
      GoesOn(p, s, Feed(if s.feeder.Handing? || s.fed < |Blobs(p.entries)| then Quits else Ends));
    } else if w: nat :| w < |s.workers| && !s.workers[w].Exited? {
      assert s.workers[w].Idle? || AtJob(s.workers, w, s.workers[w].job);
      if s.workers[w].Idle? { GoesOn(p, s, Work(w, Exit)); } else { WorkerGoesOn(p, s, w); }
    } else {
      GoesOn(p, s, Put(CloseRemove));
    }
  }

  /** The writer at a blob's entry finds it queued, or the feeder can queue it. */
  lemma {:induction false} WaitingGoesOn(p: Plan, s: State)
    requires OrderInv(p, s) && PositionInv(p, s) && CrewInv(s) && BehindInv(p, s) && p.workers > 0 && s.writer.At?
    requires s.pos < |p.entries| && p.entries[s.pos].blob
    ensures CanGoOn(p, s)
  {
    WantedBlob(p, s.pos);
    hide CanGoOn, Blobs, Wanted;
    assert s.feeder.Handing? ==> !s.jobs[s.handed].done;
    if s.cancelled { GoesOn(p, s, Put(NextCancelled)); }
    else if s.queue != [] { GoesOn(p, s, Put(Dequeue)); }
    else if s.feeder.Queueing? { GoesOn(p, s, Feed(Enqueue)); }
  }

  /** No deadlock: until Write returns, something can always go on. */
  lemma {:induction false} NoDeadlock(p: Plan, states: seq<State>, steps: seq<Step>, k: nat)
    requires Run(p, states, steps) && k <= |steps| && p.workers > 0 && !states[k].writer.Returned?
    ensures CanGoOn(p, states[k])
  {
    RunInv(p, states, steps, k);
    var s := states[k];
    hide CanGoOn, Blobs, Wanted, Init, Next, FilesInv, BytesInv, ArchiveInv, CauseInv, CrewInv, OrderInv;
    match s.writer {
      case At =>
        if s.pos == |p.entries| { GoesOn(p, s, Put(Finish)); }
        else if p.entries[s.pos].blob { WaitingGoesOn(p, s); }
        else { GoesOn(p, s, Put(WriteManifest)); }
      case Awaiting(j) => AwaitingGoesOn(p, s);
      case Ready(j) => GoesOn(p, s, Put(if Fine(p, s) then Copy else Reject));
      case Copied(_) => GoesOn(p, s, Put(RemoveStaged));
      case Returning(_) => GoesOn(p, s, Put(CloseCancel));
      case Closing(_) => Caused(p, s); ClosingGoesOn(p, s);
    }
  }

  lemma {:induction false} Caused(p: Plan, s: State)
    requires CauseInv(s) && s.writer.Closing?
    ensures s.cancelled
  {
  }

  lemma {:induction false} AwaitingGoesOn(p: Plan, s: State)
    requires OrderInv(p, s) && PositionInv(p, s) && CrewInv(s) && p.workers > 0 && s.writer.Awaiting?
    ensures CanGoOn(p, s)
  {
    hide CanGoOn, Blobs, Wanted;
    if s.cancelled { GoesOn(p, s, Put(NextCancelled)); }
    else if s.jobs[s.writer.job].done { GoesOn(p, s, Put(NextReady)); }
    else { JobGoesOn(p, s, s.writer.job); }
  }

  // ---- What a failing Write reports -------------------------------------------------

  ghost predicate Reports(s: State, e: Error) {
    (s.writer.Returning? || s.writer.Closing? || s.writer.Returned?) && s.writer.result == Failure(e)
  }

  ghost predicate FailingAt(s: State, w: nat, j: nat) {
    AtJob(s.workers, w, j) && s.workers[w].Failing?
  }

  ghost predicate FreshAt(s: State, w: nat, j: nat) {
    AtJob(s.workers, w, j) && (s.workers[w].Got? || s.workers[w].Checked? || s.workers[w].Writing?)
  }

  /** A job's error is its own: a rebuild that failed, told by the stager once the
      worker is through with it, or a cancellation it found. */
  ghost predicate JobErrors(s: State) {
    && (forall j :: 0 <= j < |s.jobs| && s.jobs[j].err.Some? ==>
          s.jobs[j].err == Some(ContextCancelled) || s.jobs[j].err == Some(Rebuild(j)))
    && (forall w: nat, j: nat :: FreshAt(s, w, j) && j < |s.jobs| ==> s.jobs[j].err.None?)
    && (forall w: nat, j: nat :: FailingAt(s, w, j) && j < |s.jobs| ==> s.jobs[j].err == Some(Rebuild(j)))
    && (forall j: nat :: j < |s.jobs| && s.jobs[j].err == Some(Rebuild(j)) ==>
          s.err.Some? || exists w: nat :: FailingAt(s, w, j))
    && (s.err.Some? ==> exists j: nat :: j < |s.jobs| && s.jobs[j].err == s.err == Some(Rebuild(j)))
  }

  /** The error reported is what happened: the caller cancelled, a rebuild failed, the
      first to do so, or a blob has not the size of its entry. */
  ghost predicate TrueError(p: Plan, s: State, e: Error) {
    match e
    case OuterCancelled => s.outer
    case Rebuild(j) => s.err == Some(e) && j < |s.jobs| && s.jobs[j].err == Some(e)
    case WrongSize(j) =>
      && j < |s.jobs| == |Blobs(p.entries)| && s.jobs[j].done && s.jobs[j].err.None?
      && s.jobs[j].n != Blobs(p.entries)[j].size
    case _ => true
  }

  ghost predicate Honest(p: Plan, s: State) {
    JobErrors(s) && forall e :: Reports(s, e) ==> TrueError(p, s, e)
  }

  lemma {:induction false} ErrorsStay(s: State, w: nat, a: WorkerStep)
    requires CrewInv(s) && JobErrors(s) && WorkerCan(s, w, a)
    ensures var n := WorkerNext(s, w, a);
      && |n.jobs| == |s.jobs| && (s.err.Some? ==> n.err == s.err)
      && (forall j :: 0 <= j < |s.jobs| && s.jobs[j].err.Some? ==> n.jobs[j].err == s.jobs[j].err)
      && (forall j :: 0 <= j < |s.jobs| && s.jobs[j].done ==> n.jobs[j] == s.jobs[j])
  {
    if !a.Receive? && !a.Exit? {
      var j := s.workers[w].job;
      assert AtJob(s.workers, w, j);
      assert s.workers[w].Got? || s.workers[w].Checked? || s.workers[w].Writing? ==> FreshAt(s, w, j);
    }
  }

  /** What a worker's step does to its own job, and where it stands after. */
  lemma {:induction false} OwnJob(s: State, w: nat, a: WorkerStep)
    requires WorkerCan(s, w, a) && !a.Receive? && !a.Exit?
    ensures
      var n, j := WorkerNext(s, w, a), s.workers[w].job;
      && n.workers == s.workers[w := n.workers[w]] && n.jobs == s.jobs[j := n.jobs[j]]
      && (n.workers[w].Idle? || n.workers[w].job == j)
      && (a.Skip? ==> n.jobs[j].err == Some(ContextCancelled))
      && (a.CreateFails? || a.RebuildFails? ==> n.jobs[j].err == Some(Rebuild(j)) && n.workers[w].Failing?)
      && (a.Skip? || a.CreateFails? || a.RebuildFails? || n.jobs[j].err == s.jobs[j].err)
      && (n.workers[w].Failing? ==> a.CreateFails? || a.RebuildFails?)
      && (n.workers[w].Checked? || n.workers[w].Writing? ==>
            s.workers[w].Got? || s.workers[w].Checked? || s.workers[w].Writing?)
      && !n.workers[w].Got?
      && (n.err == if a.Cleanup? && s.err.None? then Some(Rebuild(j)) else s.err)
      && (a.Cleanup? <==> s.workers[w].Failing?)
  {
  }

  lemma {:induction false} JobErrorsIdle(s: State, w: nat, a: WorkerStep)
    requires CrewInv(s) && JobErrors(s) && WorkerCan(s, w, a) && (a.Exit? || (a.Receive? && s.handed < |s.jobs|))
    ensures JobErrors(WorkerNext(s, w, a))
  {
    var n := WorkerNext(s, w, a);
    assert forall v: nat, j: nat :: FailingAt(n, v, j) <==> FailingAt(s, v, j);
    assert forall v: nat, j: nat :: v != w ==> (FreshAt(n, v, j) <==> FreshAt(s, v, j));
    assert forall j: nat :: FreshAt(n, w, j) ==> j == s.handed;
  }

  lemma {:induction false} JobErrorsWork(s: State, w: nat, a: WorkerStep)
    requires CrewInv(s) && JobErrors(s) && WorkerCan(s, w, a) && (a.Receive? ==> s.handed < |s.jobs|)
    ensures JobErrors(WorkerNext(s, w, a))
  {
    var n := WorkerNext(s, w, a);
    if a.Receive? || a.Exit? {
      JobErrorsIdle(s, w, a);
    } else {
      var j := s.workers[w].job;
      assert AtJob(s.workers, w, j);
      OwnJob(s, w, a);
      ErrorsStay(s, w, a);
      hide WorkerNext, CrewInv;
      OthersStay(s, n, w);
      assert FreshAt(n, w, j) ==> FreshAt(s, w, j);
      forall i: nat | i < |n.jobs| && n.jobs[i].err == Some(Rebuild(i))
        ensures n.err.Some? || exists v: nat :: FailingAt(n, v, i)
      {
        if i == j && (a.CreateFails? || a.RebuildFails?) { assert FailingAt(n, w, i); }
        else if s.err.None? {
          var v: nat :| FailingAt(s, v, i);
          assert v != w ==> FailingAt(n, v, i);
        }
      }
      if a.Cleanup? { assert FailingAt(s, w, j); }
    }
  }

  lemma {:induction false} OthersStay(s: State, n: State, w: nat)
    requires w < |s.workers| && |n.workers| == |s.workers| && n.workers == s.workers[w := n.workers[w]]
    ensures forall v: nat, i: nat :: v != w ==> (FreshAt(n, v, i) <==> FreshAt(s, v, i))
    ensures forall v: nat, i: nat :: v != w ==> (FailingAt(n, v, i) <==> FailingAt(s, v, i))
  {
  }

  lemma {:induction false} HonestWork(p: Plan, s: State, w: nat, a: WorkerStep)
    requires OrderInv(p, s) && CrewInv(s) && Honest(p, s) && WorkerCan(s, w, a)
    ensures Honest(p, WorkerNext(s, w, a))
  {
    var n := WorkerNext(s, w, a);
    WorkerFrames(s, w, a);
    hide Blobs;
    assert a.Receive? ==> s.handed < |s.jobs|;
    ErrorsStay(s, w, a);
    JobErrorsWork(s, w, a);
    hide WorkerNext, WorkerCan, JobErrors, CrewInv, OrderInv;
    forall e | Reports(n, e) ensures TrueError(p, n, e) { assert Reports(s, e) && TrueError(p, s, e); }
  }

  lemma {:induction false} HonestPut(p: Plan, s: State, b: WriterStep)
    requires OrderInv(p, s) && PositionInv(p, s) && BehindInv(p, s) && CrewInv(s) && CauseInv(s)
    requires Honest(p, s) && WriterCan(p, s, b)
    ensures Honest(p, WriterNext(p, s, b))
  {
    var n := WriterNext(p, s, b);
    WriterFrames(p, s, b);
    if b.Reject? { WantedBlob(p, s.pos); }
    hide Blobs, Wanted;
    assert JobErrors(n) by {
      assert forall v: nat, j: nat :: FailingAt(n, v, j) <==> FailingAt(s, v, j);
      assert forall v: nat, j: nat :: FreshAt(n, v, j) <==> FreshAt(s, v, j);
    }
    forall e | Reports(n, e) ensures TrueError(p, n, e) {
      if Reports(s, e) { assert TrueError(p, s, e); } else { NewReport(p, s, b, e); }
    }
  }

  /** What the writer reports when it gives up is true. */
  lemma {:induction false} NewReport(p: Plan, s: State, b: WriterStep, e: Error)
    requires OrderInv(p, s) && PositionInv(p, s) && BehindInv(p, s) && CrewInv(s) && JobErrors(s) && WriterCan(p, s, b)
    requires !Reports(s, e) && Reports(WriterNext(p, s, b), e)
    ensures TrueError(p, s, e)
  {
    if b.Reject? {
      WantedBlob(p, s.pos);
      var j := s.writer.job;
      hide Blobs, Wanted;
      assert forall w: nat :: !FailingAt(s, w, j);
    } else {
      hide Blobs, Wanted;
    }
  }

  lemma {:induction false} HonestStep(p: Plan, s: State, step: Step)
    requires Inv(p, s) && Honest(p, s) && Enabled(p, s, step)
    ensures Honest(p, Next(p, s, step))
  {
    hide Blobs, WorkerNext, WorkerCan, WriterNext, WriterCan, OrderInv, PositionInv, CrewInv, BehindInv, CauseInv,
      FilesInv, BytesInv, ArchiveInv;
    match step {
      case Work(w, a) => HonestWork(p, s, w, a);
      case Put(b) => HonestPut(p, s, b);
      case _ => HonestElse(p, s, step);
    }
  }

  lemma {:induction false} HonestElse(p: Plan, s: State, step: Step)
    requires Honest(p, s) && Enabled(p, s, step) && (step.Feed? || step.OuterCancel?)
    ensures Honest(p, Next(p, s, step))
  {
    hide Blobs;
    var n := Next(p, s, step);
    assert forall v: nat, j: nat :: FailingAt(n, v, j) <==> FailingAt(s, v, j);
    assert forall v: nat, j: nat :: FreshAt(n, v, j) <==> FreshAt(s, v, j);
    forall e | Reports(n, e) ensures TrueError(p, n, e) { assert Reports(s, e) && TrueError(p, s, e); }
  }

  lemma {:induction false} RunHonest(p: Plan, states: seq<State>, steps: seq<Step>, k: nat)
    requires Run(p, states, steps) && k <= |steps|
    ensures Honest(p, states[k])
  {
    if k == 0 {
      hide Blobs;
    } else {
      hide Honest, Init, Enabled, Next, Inv;
      RunHonest(p, states, steps, k - 1);
      RunInv(p, states, steps, k - 1);
      HonestStep(p, states[k - 1], steps[k - 1]);
    }
  }

  /** A Write that fails reports what happened: the caller's cancellation only if there
      was one, a failed rebuild only if that blob's failed and was the first, a wrong
      size only of a blob rebuilt without error whose size differs. */
  lemma {:induction false} ErrorsAreTrue(p: Plan, states: seq<State>, steps: seq<Step>, k: nat, e: Error)
    requires Run(p, states, steps) && k <= |steps| && Reports(states[k], e)
    ensures TrueError(p, states[k], e) && e != ContextCancelled
  {
    RunHonest(p, states, steps, k);
    RunInv(p, states, steps, k);
    hide Blobs, Init, Enabled, Next, OrderInv, PositionInv, CrewInv, BehindInv, FilesInv, BytesInv, ArchiveInv;
  }

  /** The steps that go wrong by themselves. */
  predicate Trouble(step: Step) {
    || step.OuterCancel? || (step.Put? && step.b.ArchiveFails?)
    || (step.Work? && (step.a.CreateFails? || step.a.RebuildFails?))
  }

  ghost predicate Calm(s: State) {
    && !s.outer && s.err.None? && (forall w: nat, j: nat :: !FailingAt(s, w, j)) && !Reports(s, ArchiveFailed)
    && (forall j: nat :: j < |s.jobs| ==> s.jobs[j].err != Some(ArchiveFailed))
  }

  lemma {:induction false} CalmStep(p: Plan, s: State, step: Step)
    requires Calm(s) && Enabled(p, s, step) && !Trouble(step)
    ensures Calm(Next(p, s, step))
  {
    hide Blobs;
    var n := Next(p, s, step);
    if step.Work? && !step.a.Receive? && !step.a.Exit? {
      OwnJob(s, step.w, step.a);
      assert s.workers[step.w].Failing? ==> FailingAt(s, step.w, s.workers[step.w].job);
      hide WorkerNext;
      OthersStay(s, n, step.w);
      WorkerFrames(s, step.w, step.a);
    } else {
      assert forall w: nat, j: nat :: FailingAt(n, w, j) ==> FailingAt(s, w, j);
    }
  }

  lemma {:induction false} CalmRun(p: Plan, states: seq<State>, steps: seq<Step>, k: nat)
    requires Run(p, states, steps) && k <= |steps| && forall i :: 0 <= i < k ==> !Trouble(steps[i])
    ensures Calm(states[k])
  {
    if k == 0 {
      hide Blobs;
    } else {
      hide Calm, Init, Enabled, Next, Trouble;
      CalmRun(p, states, steps, k - 1);
      CalmStep(p, states[k - 1], steps[k - 1]);
    }
  }

  /** When the caller does not cancel, no rebuild fails and the archive takes what it is
      given, Write fails only for a blob that came out with another size. */
  lemma {:induction false} FailsOnlyForSize(p: Plan, states: seq<State>, steps: seq<Step>, k: nat, e: Error)
    requires Run(p, states, steps) && k <= |steps| && Reports(states[k], e)
    requires forall i :: 0 <= i < k ==> !Trouble(steps[i])
    ensures e.WrongSize? && TrueError(p, states[k], e)
  {
    ErrorsAreTrue(p, states, steps, k, e);
    CalmRun(p, states, steps, k);
    hide Blobs, Run;
  }

  lemma {:induction false} ReportStep(p: Plan, s: State, step: Step, e: Error)
    requires Enabled(p, s, step) && Reports(s, e)
    ensures Reports(Next(p, s, step), e)
  {
    hide Blobs;
    if step.Work? { WorkerFrames(s, step.w, step.a); }
  }

  lemma {:induction false} ReportStays(p: Plan, states: seq<State>, steps: seq<Step>, j: nat, k: nat, e: Error)
    requires Run(p, states, steps) && j <= k <= |steps| && Reports(states[j], e)
    ensures Reports(states[k], e)
    decreases k - j
  {
    hide Init, Enabled, Next, Reports;
    if j < k {
      ReportStays(p, states, steps, j, k - 1, e);
      ReportStep(p, states[k - 1], steps[k - 1], e);
    }
  }

  /** Once the caller has cancelled, a writer that is stopped or meets a blob with an
      error reports just that, whatever else has failed. */
  lemma {:induction false} CancellationWins(p: Plan, states: seq<State>, steps: seq<Step>, j: nat, k: nat)
    requires Run(p, states, steps) && j < k <= |steps| && states[j].outer
    requires steps[j] == Put(NextCancelled) ||
      (steps[j] == Put(Reject) && states[j].writer.job < |states[j].jobs| && states[j].jobs[states[j].writer.job].err.Some?)
    ensures Reports(states[k], OuterCancelled)
  {
    assert Enabled(p, states[j], steps[j]) && states[j + 1] == Next(p, states[j], steps[j]);
    assert Reports(states[j + 1], OuterCancelled);
    ReportStays(p, states, steps, j + 1, k, OuterCancelled);
  }
}
