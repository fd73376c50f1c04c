/**
  The worker pools as one state machine: any number of pools, each with creators, pollers and
  workers, share one table. Copies of rows travel through the job channels; they may be stale and
  there may be several of one job. Every event is one atomic step.
 */
module LeaseProtocol {
  import opened JobModel

  /** A goroutine that creates and schedules jobs. */
  type CreatorId = nat
  /** A worker goroutine of any pool. */
  type WorkerId = nat

  /**
    `pending` holds the copies of jobs inserted but not yet scheduled, `queue` the copies in the
    channels of all pools, and `held` the copies workers have accepted and are executing.
   */
  datatype State = State(
    now: nat,
    rows: map<JobId, JobRow>,
    pending: map<CreatorId, JobRow>,
    queue: multiset<JobRow>,
    held: map<WorkerId, JobRow>)

  datatype Event =
    | Tick(d: nat)
    | Create(p: CreatorId, id: JobId, typ: string, txId: string)
    | Annotate(p: CreatorId, id: JobId, result: string) // the second write of a status notification
    | Enqueue(p: CreatorId, id: JobId)
    | Defer(p: CreatorId, id: JobId)                    // the channel was full
    | Abandon(p: CreatorId, id: JobId)                  // system halted, failed write or crash
    | Poll(id: JobId)
    | Accept(w: WorkerId, copy: JobRow)
    | Refuse(copy: JobRow)                              // accept failed, or the pool stopped
    | NoExecutor(w: WorkerId, id: JobId)
    | Finish(w: WorkerId, id: JobId, x: Execution)
    | Release(w: WorkerId, id: JobId)                   // chain error, failed write or crash

  predicate IsPending(s: State, p: CreatorId, id: JobId) {
    p in s.pending && s.pending[p].id == id
  }

  predicate Holds(s: State, w: WorkerId, id: JobId) {
    w in s.held && s.held[w].id == id
  }

  predicate Enabled(c: Config, s: State, e: Event) {
    match e
    case Tick(_) => true
    case Create(p, id, _, _) => p !in s.pending && id !in s.rows
    case Annotate(p, id, _) => IsPending(s, p, id)
    case Enqueue(p, id) => IsPending(s, p, id)
    case Defer(p, id) => IsPending(s, p, id)
    case Abandon(p, id) => IsPending(s, p, id)
    case Poll(id) => id in s.rows && IsSchedulable(s.rows[id], c, s.now)
    case Accept(w, copy) =>
      && w !in s.held && copy in s.queue && copy.id in s.rows
      && IsAcceptable(copy, c.grace, s.now)
      && IsAcceptable(s.rows[copy.id], c.grace, s.now)
    case Refuse(copy) => copy in s.queue
    case NoExecutor(w, id) => Holds(s, w, id)
    case Finish(w, id, x) => Holds(s, w, id) && !x.err.ChainConnection?
    case Release(w, id) => Holds(s, w, id)
  }

  function Apply(c: Config, s: State, e: Event): State
    requires Enabled(c, s, e)
  {
    match e
    case Tick(d) => s.(now := s.now + d)
    case Create(p, id, typ, txId) =>
      var j := Created(id, typ, txId, s.now);
      s.(rows := s.rows[id := j], pending := s.pending[p := j])
    case Annotate(p, id, result) =>
      var j := Saved(s.pending[p].(result := result), s.now);
      s.(rows := s.rows[id := j], pending := s.pending[p := j])
    case Enqueue(p, id) =>
      s.(queue := s.queue + multiset{s.pending[p]}, pending := s.pending - {p})
    case Defer(p, id) =>
      s.(rows := s.rows[id := Deferred(s.pending[p], s.now)], pending := s.pending - {p})
    case Abandon(p, id) => s.(pending := s.pending - {p})
    case Poll(id) => s.(queue := s.queue + multiset{s.rows[id]})
    case Accept(w, copy) =>
      var j := AcceptedCopy(copy, s.rows[copy.id], s.now);
      s.(rows := s.rows[copy.id := j], queue := s.queue - multiset{copy}, held := s.held[w := j])
    case Refuse(copy) => s.(queue := s.queue - multiset{copy})
    case NoExecutor(w, id) =>
      s.(rows := s.rows[id := Deferred(s.held[w], s.now)], held := s.held - {w})
    case Finish(w, id, x) =>
      s.(rows := s.rows[id := Finished(s.held[w], x, c.maxJobErrorCount, s.now)], held := s.held - {w})
    case Release(w, id) => s.(held := s.held - {w})
  }

  const START := State(0, map[], map[], multiset{}, map[])

  predicate ValidRun(c: Config, es: seq<Event>)
    decreases |es|, 0
  {
    es == [] || (ValidRun(c, Front(es)) && Enabled(c, After(c, Front(es)), Last(es)))
  }

  function After(c: Config, es: seq<Event>): State
    requires ValidRun(c, es)
    decreases |es|, 1
  {
    if es == [] then START else Apply(c, After(c, Front(es)), Last(es))
  }

  function Front(es: seq<Event>): seq<Event>
    requires es != []
  {
    es[..|es| - 1]
  }

  function Last(es: seq<Event>): Event
    requires es != []
  {
    es[|es| - 1]
  }

  /** The writer of this copy still has its lease: its own last write of the row is younger than the grace period. */
  predicate Live(c: Config, s: State, j: JobRow) {
    s.now < j.updatedAt + c.grace
  }

  /** The event is not an `UpdateJob` issued after the writer's lease ran out. */
  predicate InTime(c: Config, s: State, e: Event)
    requires Enabled(c, s, e)
  {
    match e
    case Annotate(p, _, _) => Live(c, s, s.pending[p])
    case Defer(p, _) => Live(c, s, s.pending[p])
    case NoExecutor(w, _) => Live(c, s, s.held[w])
    case Finish(w, _, _) => Live(c, s, s.held[w])
    case _ => true
  }

  /**
    The hypothesis under which the pools are safe: the span between a process's accept (or insert)
    and each `UpdateJob` that follows it is shorter than the accepted grace period.
   */
  predicate NoOverrun(c: Config, es: seq<Event>)
    requires ValidRun(c, es)
  {
    es == [] || (NoOverrun(c, Front(es)) && InTime(c, After(c, Front(es)), Last(es)))
  }

  // Counting what happened to one job along a run

  function AcceptOf(e: Event, id: JobId): nat {
    if e.Accept? && e.copy.id == id then 1 else 0
  }

  function Accepts(es: seq<Event>, id: JobId): nat {
    if es == [] then 0 else Accepts(Front(es), id) + AcceptOf(Last(es), id)
  }

  function OrdinaryErrorOf(e: Event, id: JobId): nat {
    if e.Finish? && e.id == id && e.x.err.Ordinary? then 1 else 0
  }

  function OrdinaryErrors(es: seq<Event>, id: JobId): nat {
    if es == [] then 0 else OrdinaryErrors(Front(es), id) + OrdinaryErrorOf(Last(es), id)
  }

  // The invariant

  predicate RowOk(s: State, id: JobId)
    requires id in s.rows
  {
    s.rows[id].id == id && s.rows[id].updatedAt <= s.now
  }

  predicate Known(s: State, j: JobRow) {
    j.id in s.rows
  }

  /** This copy is what the table holds. */
  predicate Current(s: State, j: JobRow) {
    j.id in s.rows && s.rows[j.id] == j
  }

  predicate RowsOk(s: State) {
    forall id :: id in s.rows ==> RowOk(s, id)
  }

  predicate HeldKnown(s: State) {
    forall w :: w in s.held ==> Known(s, s.held[w])
  }

  predicate PendingKnown(s: State) {
    forall p :: p in s.pending ==> Known(s, s.pending[p])
  }

  predicate QueueKnown(s: State) {
    forall j :: j in s.queue ==> Known(s, j)
  }

  predicate CopiesKnown(s: State) {
    HeldKnown(s) && PendingKnown(s) && QueueKnown(s)
  }

  /** While a worker's lease lasts, the row is the worker's own copy. */
  predicate HoldersCurrent(c: Config, s: State) {
    forall w :: w in s.held && Live(c, s, s.held[w]) ==>
      Current(s, s.held[w]) && s.held[w].state == Accepted && 1 <= s.held[w].execCount
  }

  predicate OneLiveHolder(c: Config, s: State) {
    forall w, v ::
      w in s.held && v in s.held && Live(c, s, s.held[w]) && Live(c, s, s.held[v]) && w != v
      ==> s.held[w].id != s.held[v].id
  }

  /** While a creator's lease lasts, the row is still the one it inserted and nobody else knows the job. */
  predicate PendingCurrent(c: Config, s: State) {
    forall p :: p in s.pending && Live(c, s, s.pending[p]) ==>
      Current(s, s.pending[p]) && s.pending[p].state == Init && s.pending[p].execCount == 0
  }

  predicate PendingNotQueued(c: Config, s: State) {
    forall p, j :: p in s.pending && Live(c, s, s.pending[p]) && j in s.queue ==> j.id != s.pending[p].id
  }

  predicate PendingNotHeld(c: Config, s: State) {
    forall p, w :: p in s.pending && Live(c, s, s.pending[p]) && w in s.held ==> s.held[w].id != s.pending[p].id
  }

  predicate PendingOnce(c: Config, s: State) {
    forall p, q :: p in s.pending && Live(c, s, s.pending[p]) && q in s.pending && q != p
      ==> s.pending[q].id != s.pending[p].id
  }

  predicate Inv(c: Config, s: State) {
    && RowsOk(s) && CopiesKnown(s) && HoldersCurrent(c, s) && OneLiveHolder(c, s)
    && PendingCurrent(c, s) && PendingNotQueued(c, s) && PendingNotHeld(c, s) && PendingOnce(c, s)
  }

  /** The steps of worker goroutines; the others are those of creators, pollers and the clock. */
  predicate ByWorker(e: Event) {
    e.Accept? || e.Refuse? || e.NoExecutor? || e.Finish? || e.Release?
  }

  lemma {:induction false} WorkerKeepsRows(c: Config, s: State, e: Event)
    requires RowsOk(s) && Enabled(c, s, e) && ByWorker(e)
    ensures RowsOk(Apply(c, s, e))
  {
  }

  lemma {:induction false} OtherKeepsRows(c: Config, s: State, e: Event)
    requires RowsOk(s) && Enabled(c, s, e) && !ByWorker(e)
    ensures RowsOk(Apply(c, s, e))
  {
  }

  lemma {:induction false} StepKeepsRows(c: Config, s: State, e: Event)
    requires RowsOk(s) && Enabled(c, s, e)
    ensures RowsOk(Apply(c, s, e))
  {
    if ByWorker(e) {
      WorkerKeepsRows(c, s, e);
    } else {
      OtherKeepsRows(c, s, e);
    }
  }

  lemma {:induction false} StepKeepsHeldKnown(c: Config, s: State, e: Event)
    requires HeldKnown(s) && Enabled(c, s, e)
    ensures HeldKnown(Apply(c, s, e))
  {
  }

  lemma {:induction false} StepKeepsPendingKnown(c: Config, s: State, e: Event)
    requires PendingKnown(s) && Enabled(c, s, e)
    ensures PendingKnown(Apply(c, s, e))
  {
  }

  lemma {:induction false} StepKeepsQueueKnown(c: Config, s: State, e: Event)
    requires RowsOk(s) && PendingKnown(s) && QueueKnown(s) && Enabled(c, s, e)
    ensures QueueKnown(Apply(c, s, e))
  {
  }

  lemma {:induction false} StepKeepsCopiesKnown(c: Config, s: State, e: Event)
    requires RowsOk(s) && CopiesKnown(s) && Enabled(c, s, e)
    ensures CopiesKnown(Apply(c, s, e))
  {
    StepKeepsHeldKnown(c, s, e);
    StepKeepsPendingKnown(c, s, e);
    StepKeepsQueueKnown(c, s, e);
  }

  /** The row of a live holder is not acceptable. */
  lemma {:induction false} AcceptKeepsHoldersCurrent(c: Config, s: State, e: Event)
    requires HoldersCurrent(c, s) && e.Accept? && Enabled(c, s, e)
    ensures HoldersCurrent(c, Apply(c, s, e))
  {
  }

  /** No other worker of a live holder's row is in time. */
  lemma {:induction false} WorkerKeepsHoldersCurrent(c: Config, s: State, e: Event)
    requires HoldersCurrent(c, s) && OneLiveHolder(c, s)
    requires Enabled(c, s, e) && InTime(c, s, e) && ByWorker(e) && !e.Accept?
    ensures HoldersCurrent(c, Apply(c, s, e))
  {
  }

  /** Nor is the creator of a live holder's row. */
  lemma {:induction false} OtherKeepsHoldersCurrent(c: Config, s: State, e: Event)
    requires HoldersCurrent(c, s) && PendingNotHeld(c, s)
    requires Enabled(c, s, e) && InTime(c, s, e) && !ByWorker(e)
    ensures HoldersCurrent(c, Apply(c, s, e))
  {
  }

  lemma {:induction false} StepKeepsHoldersCurrent(c: Config, s: State, e: Event)
    requires RowsOk(s) && HoldersCurrent(c, s) && OneLiveHolder(c, s) && PendingNotHeld(c, s)
    requires Enabled(c, s, e) && InTime(c, s, e)
    ensures HoldersCurrent(c, Apply(c, s, e))
  {
    if e.Accept? {
      AcceptKeepsHoldersCurrent(c, s, e);
    } else if ByWorker(e) {
      WorkerKeepsHoldersCurrent(c, s, e);
    } else {
      OtherKeepsHoldersCurrent(c, s, e);
    }
  }

  lemma {:induction false} AcceptKeepsOneLiveHolder(c: Config, s: State, e: Event)
    requires HoldersCurrent(c, s) && OneLiveHolder(c, s) && e.Accept? && Enabled(c, s, e)
    ensures OneLiveHolder(c, Apply(c, s, e))
  {
  }

  lemma {:induction false} StepKeepsOneLiveHolder(c: Config, s: State, e: Event)
    requires HoldersCurrent(c, s) && OneLiveHolder(c, s) && Enabled(c, s, e)
    ensures OneLiveHolder(c, Apply(c, s, e))
  {
    if e.Accept? {
      AcceptKeepsOneLiveHolder(c, s, e);
    }
  }

  /** A worker only writes the row of the copy it holds or takes, which is no pending one. */
  lemma {:induction false} WorkerKeepsPendingCurrent(c: Config, s: State, e: Event)
    requires PendingCurrent(c, s) && PendingNotQueued(c, s) && PendingNotHeld(c, s)
    requires Enabled(c, s, e) && InTime(c, s, e) && ByWorker(e)
    ensures PendingCurrent(c, Apply(c, s, e))
  {
  }

  lemma {:induction false} OtherKeepsPendingCurrent(c: Config, s: State, e: Event)
    requires PendingCurrent(c, s) && PendingOnce(c, s)
    requires Enabled(c, s, e) && InTime(c, s, e) && !ByWorker(e)
    ensures PendingCurrent(c, Apply(c, s, e))
  {
  }

  lemma {:induction false} StepKeepsPendingCurrent(c: Config, s: State, e: Event)
    requires PendingCurrent(c, s) && PendingNotQueued(c, s) && PendingNotHeld(c, s) && PendingOnce(c, s)
    requires Enabled(c, s, e) && InTime(c, s, e)
    ensures PendingCurrent(c, Apply(c, s, e))
  {
    if ByWorker(e) {
      WorkerKeepsPendingCurrent(c, s, e);
    } else {
      OtherKeepsPendingCurrent(c, s, e);
    }
  }

  lemma {:induction false} WorkerKeepsPendingNotQueued(c: Config, s: State, e: Event)
    requires PendingNotQueued(c, s) && Enabled(c, s, e) && ByWorker(e)
    ensures PendingNotQueued(c, Apply(c, s, e))
  {
  }

  /** A row inserted less than a grace period ago is not polled. */
  lemma {:induction false} PollKeepsPendingNotQueued(c: Config, s: State, e: Event)
    requires RowsOk(s) && PendingCurrent(c, s) && PendingNotQueued(c, s)
    requires Enabled(c, s, e) && e.Poll?
    ensures PendingNotQueued(c, Apply(c, s, e))
  {
  }

  lemma {:induction false} OtherKeepsPendingNotQueued(c: Config, s: State, e: Event)
    requires QueueKnown(s) && PendingNotQueued(c, s) && PendingOnce(c, s)
    requires Enabled(c, s, e) && InTime(c, s, e) && !ByWorker(e) && !e.Poll?
    ensures PendingNotQueued(c, Apply(c, s, e))
  {
  }

  lemma {:induction false} StepKeepsPendingNotQueued(c: Config, s: State, e: Event)
    requires RowsOk(s) && CopiesKnown(s) && PendingCurrent(c, s) && PendingNotQueued(c, s) && PendingOnce(c, s)
    requires Enabled(c, s, e) && InTime(c, s, e)
    ensures PendingNotQueued(c, Apply(c, s, e))
  {
    if ByWorker(e) {
      WorkerKeepsPendingNotQueued(c, s, e);
    } else if e.Poll? {
      PollKeepsPendingNotQueued(c, s, e);
    } else {
      OtherKeepsPendingNotQueued(c, s, e);
    }
  }

  lemma {:induction false} WorkerKeepsPendingNotHeld(c: Config, s: State, e: Event)
    requires PendingNotQueued(c, s) && PendingNotHeld(c, s) && Enabled(c, s, e) && ByWorker(e)
    ensures PendingNotHeld(c, Apply(c, s, e))
  {
  }

  lemma {:induction false} OtherKeepsPendingNotHeld(c: Config, s: State, e: Event)
    requires HeldKnown(s) && PendingNotHeld(c, s) && Enabled(c, s, e) && InTime(c, s, e) && !ByWorker(e)
    ensures PendingNotHeld(c, Apply(c, s, e))
  {
  }

  lemma {:induction false} StepKeepsPendingNotHeld(c: Config, s: State, e: Event)
    requires CopiesKnown(s) && PendingNotQueued(c, s) && PendingNotHeld(c, s)
    requires Enabled(c, s, e) && InTime(c, s, e)
    ensures PendingNotHeld(c, Apply(c, s, e))
  {
    if ByWorker(e) {
      WorkerKeepsPendingNotHeld(c, s, e);
    } else {
      OtherKeepsPendingNotHeld(c, s, e);
    }
  }

  lemma {:induction false} StepKeepsPendingOnce(c: Config, s: State, e: Event)
    requires CopiesKnown(s) && PendingOnce(c, s) && Enabled(c, s, e) && InTime(c, s, e)
    ensures PendingOnce(c, Apply(c, s, e))
  {
  }

  lemma {:induction false} StepKeepsInv(c: Config, s: State, e: Event)
    requires Inv(c, s) && Enabled(c, s, e) && InTime(c, s, e)
    ensures Inv(c, Apply(c, s, e))
  {
    StepKeepsRows(c, s, e);
    StepKeepsCopiesKnown(c, s, e);
    StepKeepsHoldersCurrent(c, s, e);
    StepKeepsOneLiveHolder(c, s, e);
    StepKeepsPendingCurrent(c, s, e);
    StepKeepsPendingNotQueued(c, s, e);
    StepKeepsPendingNotHeld(c, s, e);
    StepKeepsPendingOnce(c, s, e);
  }

  lemma {:induction false} RunKeepsInv(c: Config, es: seq<Event>)
    requires ValidRun(c, es) && NoOverrun(c, es)
    ensures Inv(c, After(c, es))
    decreases |es|
  {
    if es == [] {
    } else {
      RunKeepsInv(c, Front(es));
      StepKeepsInv(c, After(c, Front(es)), Last(es));
    }
  }
}
