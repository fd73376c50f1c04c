/**
  What a job's row says about the executions the job has had, over whole runs.
 */
module LeaseOutcomes {
  import opened Prelude
  import opened JobModel
  import opened LeaseProtocol
  import opened LeaseResults

  // The last execution

  /** The last execution of the job that ended with a report. */
  function LastEnd(es: seq<Event>, id: JobId): Option<Execution> {
    if es == [] then None
    else if Last(es).Finish? && Last(es).id == id then Some(Last(es).x)
    else LastEnd(Front(es), id)
  }

  predicate Carries(row: JobRow, x: Execution) {
    row.result == x.result && row.transactionId == x.transactionId
  }

  /** What the state of a row says about the last execution that ended. */
  predicate Tells(c: Config, row: JobRow, last: Option<Execution>) {
    match row.state
    case Complete =>
      last.Some? && last.value.err == NoError && Carries(row, last.value) && row.error == ""
    case Error =>
      && last.Some? && last.value.err == Ordinary(row.error) && Carries(row, last.value)
      && row.execCount <= c.maxJobErrorCount
    case Failed =>
      && last.Some? && Carries(row, last.value)
      && (last.value.err == Permanent(row.error)
          || (last.value.err == Ordinary(row.error) && row.execCount > c.maxJobErrorCount))
    case _ => last.Some? ==> last.value.err.Ordinary?
  }

  predicate Told(c: Config, s: State, id: JobId, last: Option<Execution>) {
    if id in s.rows then Tells(c, s.rows[id], last) else last == None
  }

  lemma {:induction false} EndTells(c: Config, s: State, e: Event)
    requires HoldersCurrent(c, s) && Enabled(c, s, e) && InTime(c, s, e) && e.Finish?
    ensures Told(c, Apply(c, s, e), e.id, Some(e.x))
  {
  }

  lemma {:induction false} WorkerKeepsTold(c: Config, s: State, e: Event, id: JobId, last: Option<Execution>)
    requires HoldersCurrent(c, s) && Enabled(c, s, e) && InTime(c, s, e) && ByWorker(e)
    requires Told(c, s, id, last) && !(e.Finish? && e.id == id)
    ensures Told(c, Apply(c, s, e), id, last)
  {
  }

  lemma {:induction false} OtherKeepsTold(c: Config, s: State, e: Event, id: JobId, last: Option<Execution>)
    requires PendingCurrent(c, s) && Enabled(c, s, e) && InTime(c, s, e) && !ByWorker(e)
    requires Told(c, s, id, last)
    ensures Told(c, Apply(c, s, e), id, last)
  {
  }

  /**
    After any run without overruns, a COMPLETE row carries the result and the transaction of the last
    execution, which succeeded, and no error. An ERROR row carries those of the last execution, which failed
    with the row's error when executions were left; a FAILED row those of one that failed permanently, or when
    none were left. In any other state, whatever ended before failed with an ordinary error.
   */
  lemma {:induction false} OutcomeRecorded(c: Config, es: seq<Event>, id: JobId)
    requires ValidRun(c, es) && NoOverrun(c, es)
    ensures Told(c, After(c, es), id, LastEnd(es, id))
    decreases |es|
  {
    if es == [] {
    } else {
      var s, e := After(c, Front(es)), Last(es);
      OutcomeRecorded(c, Front(es), id);
      RunKeepsInv(c, Front(es));
      if e.Finish? && e.id == id {
        EndTells(c, s, e);
      } else if ByWorker(e) {
        WorkerKeepsTold(c, s, e, id, LastEnd(Front(es), id));
      } else {
        OtherKeepsTold(c, s, e, id, LastEnd(Front(es), id));
      }
    }
  }

  // Success and permanent failure

  function SuccessOf(e: Event, id: JobId): nat {
    if e.Finish? && e.id == id && e.x.err.NoError? then 1 else 0
  }

  function Successes(es: seq<Event>, id: JobId): nat {
    if es == [] then 0 else Successes(Front(es), id) + SuccessOf(Last(es), id)
  }

  function PermanentOf(e: Event, id: JobId): nat {
    if e.Finish? && e.id == id && e.x.err.Permanent? then 1 else 0
  }

  function Permanents(es: seq<Event>, id: JobId): nat {
    if es == [] then 0 else Permanents(Front(es), id) + PermanentOf(Last(es), id)
  }

  predicate IsIn(s: State, id: JobId, state: JobState) {
    id in s.rows && s.rows[id].state == state
  }

  predicate EndedOnce(s: State, id: JobId, successes: nat, permanents: nat) {
    && successes + permanents <= 1
    && (IsIn(s, id, Complete) <==> successes == 1)
    && (permanents == 1 ==> IsIn(s, id, Failed))
  }

  lemma {:induction false} EndStep(c: Config, s: State, e: Event, id: JobId, successes: nat, permanents: nat)
    requires HoldersCurrent(c, s) && Enabled(c, s, e) && InTime(c, s, e) && e.Finish? && e.id == id
    requires EndedOnce(s, id, successes, permanents)
    ensures EndedOnce(Apply(c, s, e), id, successes + SuccessOf(e, id), permanents + PermanentOf(e, id))
  {
  }

  lemma {:induction false} WorkerKeepsEnds(
      c: Config, s: State, e: Event, id: JobId, successes: nat, permanents: nat)
    requires HoldersCurrent(c, s) && Enabled(c, s, e) && InTime(c, s, e) && ByWorker(e)
    requires EndedOnce(s, id, successes, permanents) && !(e.Finish? && e.id == id)
    ensures EndedOnce(Apply(c, s, e), id, successes, permanents)
  {
  }

  lemma {:induction false} OtherKeepsEnds(
      c: Config, s: State, e: Event, id: JobId, successes: nat, permanents: nat)
    requires PendingCurrent(c, s) && Enabled(c, s, e) && InTime(c, s, e) && !ByWorker(e)
    requires EndedOnce(s, id, successes, permanents)
    ensures EndedOnce(Apply(c, s, e), id, successes, permanents)
  {
  }

  /**
    A job succeeds or fails permanently at most once: it is COMPLETE exactly when it has succeeded, and FAILED
    once it has failed permanently.
   */
  lemma {:induction false} EndsOnce(c: Config, es: seq<Event>, id: JobId)
    requires ValidRun(c, es) && NoOverrun(c, es)
    ensures EndedOnce(After(c, es), id, Successes(es, id), Permanents(es, id))
    decreases |es|
  {
    if es == [] {
    } else {
      var s, e := After(c, Front(es)), Last(es);
      var successes, permanents := Successes(Front(es), id), Permanents(Front(es), id);
      EndsOnce(c, Front(es), id);
      RunKeepsInv(c, Front(es));
      if e.Finish? && e.id == id {
        EndStep(c, s, e, id, successes, permanents);
      } else if ByWorker(e) {
        WorkerKeepsEnds(c, s, e, id, successes, permanents);
      } else {
        OtherKeepsEnds(c, s, e, id, successes, permanents);
      }
    }
  }

  // What a job was created with

  datatype Birth = Birth(typ: string, txId: string, at: nat)

  function BirthOf(c: Config, es: seq<Event>, id: JobId): Option<Birth>
    requires ValidRun(c, es)
  {
    if es == [] then None
    else
      var e := Last(es);
      if e.Create? && e.id == id then Some(Birth(e.typ, e.txId, After(c, Front(es)).now))
      else BirthOf(c, Front(es), id)
  }

  /** The report written into a notification after its creation. */
  function Annotation(es: seq<Event>, id: JobId): string {
    if es == [] then ""
    else if Last(es).Annotate? && Last(es).id == id then Last(es).result
    else Annotation(Front(es), id)
  }

  /** A row or copy is of the type and age the job was created with, and until an execution ends it has its content. */
  predicate Original(c: Config, es: seq<Event>, j: JobRow)
    requires ValidRun(c, es)
  {
    && BirthOf(c, es, j.id).Some?
    && var birth := BirthOf(c, es, j.id).value;
       && j.typ == birth.typ && j.createdAt == birth.at
       && (LastEnd(es, j.id) == None ==>
             j.transactionId == birth.txId && j.result == Annotation(es, j.id) && j.error == "" && j.errors == [])
  }

  predicate RowsOriginal(c: Config, es: seq<Event>, s: State)
    requires ValidRun(c, es)
  {
    forall id :: id in s.rows ==> Original(c, es, s.rows[id])
  }

  predicate HeldOriginal(c: Config, es: seq<Event>, s: State)
    requires ValidRun(c, es)
  {
    forall w :: w in s.held ==> Original(c, es, s.held[w])
  }

  predicate PendingOriginal(c: Config, es: seq<Event>, s: State)
    requires ValidRun(c, es)
  {
    forall p :: p in s.pending ==> Original(c, es, s.pending[p])
  }

  predicate QueueOriginal(c: Config, es: seq<Event>, s: State)
    requires ValidRun(c, es)
  {
    forall j :: j in s.queue ==> Original(c, es, j)
  }

  predicate AllOriginal(c: Config, es: seq<Event>, s: State)
    requires ValidRun(c, es)
  {
    RowsOriginal(c, es, s) && HeldOriginal(c, es, s) && PendingOriginal(c, es, s) && QueueOriginal(c, es, s)
  }

  /** Copies that differ in what schedules them alone. */
  predicate SameContent(j: JobRow, k: JobRow) {
    k == j.(state := k.state, execCount := k.execCount, updatedAt := k.updatedAt)
  }

  lemma SameIsOriginal(c: Config, es: seq<Event>, j: JobRow, k: JobRow)
    requires ValidRun(c, es) && Original(c, es, j) && SameContent(j, k)
    ensures Original(c, es, k)
  {
  }

  /** The event neither creates nor annotates this job. */
  predicate LeavesContent(e: Event, id: JobId) {
    !(e.Create? && e.id == id) && !(e.Annotate? && e.id == id)
  }

  /** Copies of other jobs than the one an event creates or annotates stay original. */
  lemma StaysOriginal(c: Config, es: seq<Event>, j: JobRow)
    requires es != [] && ValidRun(c, es) && Original(c, Front(es), j) && LeavesContent(Last(es), j.id)
    ensures Original(c, es, j)
  {
  }

  lemma AllStayOriginal(c: Config, es: seq<Event>)
    requires es != [] && ValidRun(c, es)
    requires var s := After(c, Front(es)); AllOriginal(c, Front(es), s) && RowsOk(s)
    requires forall id :: LeavesContent(Last(es), id)
    ensures AllOriginal(c, es, After(c, Front(es)))
  {
    forall j: JobRow | Original(c, Front(es), j)
      ensures Original(c, es, j)
    {
      StaysOriginal(c, es, j);
    }
  }

  lemma {:induction false} AcceptKeepsOriginal(c: Config, es: seq<Event>, s: State, e: Event)
    requires ValidRun(c, es) && AllOriginal(c, es, s) && Enabled(c, s, e) && e.Accept?
    ensures AllOriginal(c, es, Apply(c, s, e))
  {
    SameIsOriginal(c, es, e.copy, AcceptedCopy(e.copy, s.rows[e.copy.id], s.now));
  }

  lemma {:induction false} WorkerKeepsOriginal(c: Config, es: seq<Event>, s: State, e: Event)
    requires ValidRun(c, es) && AllOriginal(c, es, s) && Enabled(c, s, e)
    requires ByWorker(e) && !e.Accept? && !e.Finish?
    ensures AllOriginal(c, es, Apply(c, s, e))
  {
    if e.NoExecutor? {
      SameIsOriginal(c, es, s.held[e.w], Deferred(s.held[e.w], s.now));
    }
  }

  lemma {:induction false} OtherKeepsOriginal(c: Config, es: seq<Event>, s: State, e: Event)
    requires ValidRun(c, es) && AllOriginal(c, es, s) && Enabled(c, s, e)
    requires !ByWorker(e) && !e.Create? && !e.Annotate?
    ensures AllOriginal(c, es, Apply(c, s, e))
  {
    if e.Defer? {
      SameIsOriginal(c, es, s.pending[e.p], Deferred(s.pending[e.p], s.now));
    }
  }

  /** A step that writes, queues or accepts copies as they are keeps them original. */
  lemma {:induction false} StepKeepsOriginal(c: Config, es: seq<Event>, s: State, e: Event)
    requires ValidRun(c, es) && AllOriginal(c, es, s) && Enabled(c, s, e)
    requires !e.Create? && !e.Annotate? && !e.Finish?
    ensures AllOriginal(c, es, Apply(c, s, e))
  {
    if e.Accept? {
      AcceptKeepsOriginal(c, es, s, e);
    } else if ByWorker(e) {
      WorkerKeepsOriginal(c, es, s, e);
    } else {
      OtherKeepsOriginal(c, es, s, e);
    }
  }

  lemma {:induction false} EndKeepsOriginal(c: Config, es: seq<Event>, s: State, e: Event)
    requires ValidRun(c, es) && AllOriginal(c, es, s) && Enabled(c, s, e)
    requires e.Finish? && LastEnd(es, e.id).Some?
    ensures AllOriginal(c, es, Apply(c, s, e))
  {
    assert Original(c, es, s.held[e.w]);
  }

  /** Nothing happened to a job that has no row. */
  predicate Unborn(c: Config, es: seq<Event>, id: JobId)
    requires ValidRun(c, es)
  {
    id !in After(c, es).rows ==> LastEnd(es, id) == None && Annotation(es, id) == ""
  }

  lemma {:induction false} RunUnborn(c: Config, es: seq<Event>, id: JobId)
    requires ValidRun(c, es) && NoOverrun(c, es)
    ensures Unborn(c, es, id)
    decreases |es|
  {
    OutcomeRecorded(c, es, id);
    if es != [] {
      RunUnborn(c, Front(es), id);
    }
  }

  /** While its creator writes a job, there is no other copy of it. */
  lemma OnlyCopy(c: Config, s: State, e: Event)
    requires Inv(c, s) && Enabled(c, s, e) && InTime(c, s, e) && (e.Create? || e.Annotate?)
    ensures forall j :: j in s.queue ==> j.id != e.id
    ensures forall w :: w in s.held ==> s.held[w].id != e.id
    ensures forall p :: p in s.pending && p != e.p ==> s.pending[p].id != e.id
    ensures forall id :: id in s.rows && id != e.id ==> s.rows[id].id != e.id
  {
  }

  /** The copy a creator writes is original, and the others stay so. */
  lemma {:induction false} WrittenIsOriginal(c: Config, es: seq<Event>)
    requires es != [] && ValidRun(c, es) && (Last(es).Create? || Last(es).Annotate?)
    requires PendingOriginal(c, Front(es), After(c, Front(es))) && Unborn(c, Front(es), Last(es).id)
    ensures Last(es).id in After(c, es).rows && Original(c, es, After(c, es).rows[Last(es).id])
  {
  }

  lemma {:induction false} CreatorKeepsOriginal(c: Config, es: seq<Event>)
    requires es != [] && ValidRun(c, es) && (Last(es).Create? || Last(es).Annotate?)
    requires var s := After(c, Front(es));
             Inv(c, s) && InTime(c, s, Last(es)) && AllOriginal(c, Front(es), s)
    requires Unborn(c, Front(es), Last(es).id)
    ensures AllOriginal(c, es, After(c, es))
  {
    var s, e, t := After(c, Front(es)), Last(es), After(c, es);
    OnlyCopy(c, s, e);
    WrittenIsOriginal(c, es);
    forall j: JobRow | Original(c, Front(es), j) && j.id != e.id
      ensures Original(c, es, j)
    {
      StaysOriginal(c, es, j);
    }
    OthersOriginal(c, es, s, e, t.rows[e.id]);
  }

  /** All copies are the one written, or old ones of other jobs. */
  lemma {:induction false} OthersOriginal(c: Config, es: seq<Event>, s: State, e: Event, written: JobRow)
    requires ValidRun(c, es) && Enabled(c, s, e) && (e.Create? || e.Annotate?)
    requires e.id in Apply(c, s, e).rows && written == Apply(c, s, e).rows[e.id] && Original(c, es, written)
    requires forall j :: j in s.queue ==> Original(c, es, j)
    requires forall w :: w in s.held ==> Original(c, es, s.held[w])
    requires forall p :: p in s.pending && p != e.p ==> Original(c, es, s.pending[p])
    requires forall id :: id in s.rows && id != e.id ==> Original(c, es, s.rows[id])
    ensures AllOriginal(c, es, Apply(c, s, e))
  {
  }

  /**
    However stale, every row and every copy of a job has the type and the age the job was created with, and
    until an execution ends, the transaction and report its creator gave it and no error.
   */
  lemma {:induction false} ContentKept(c: Config, es: seq<Event>)
    requires ValidRun(c, es) && NoOverrun(c, es)
    ensures AllOriginal(c, es, After(c, es))
    decreases |es|
  {
    if es == [] {
    } else {
      var s, e := After(c, Front(es)), Last(es);
      ContentKept(c, Front(es));
      RunKeepsInv(c, Front(es));
      if e.Create? || e.Annotate? {
        RunUnborn(c, Front(es), e.id);
        CreatorKeepsOriginal(c, es);
      } else {
        AllStayOriginal(c, es);
        if e.Finish? {
          EndKeepsOriginal(c, es, s, e);
        } else {
          StepKeepsOriginal(c, es, s, e);
        }
      }
    }
  }
}
