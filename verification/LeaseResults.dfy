/**
  What the lease protocol guarantees over whole runs, and what it does not guarantee.
 */
module LeaseResults {
  import opened JobModel
  import opened LeaseProtocol

  function Holders(s: State, id: JobId): set<WorkerId> {
    set w | w in s.held && s.held[w].id == id
  }

  /** Two workers never hold unexpired leases on one job, whatever copies were queued and re-queued. */
  lemma LeaseExclusion(c: Config, es: seq<Event>, w: WorkerId, v: WorkerId, id: JobId)
    requires ValidRun(c, es) && NoOverrun(c, es)
    requires Holds(After(c, es), w, id) && Live(c, After(c, es), After(c, es).held[w])
    requires Holds(After(c, es), v, id) && Live(c, After(c, es), After(c, es).held[v])
    ensures w == v
  {
    RunKeepsInv(c, es);
  }

  /** If nobody overstays its lease, only one worker is executing the job. */
  lemma SoleHolder(c: Config, es: seq<Event>, id: JobId)
    requires ValidRun(c, es) && NoOverrun(c, es)
    requires forall w :: w in After(c, es).held && Holds(After(c, es), w, id) ==>
               Live(c, After(c, es), After(c, es).held[w])
    ensures |Holders(After(c, es), id)| <= 1
  {
    var holders := Holders(After(c, es), id);
    if holders != {} {
      var w :| w in holders;
      forall v | v in holders
        ensures v == w
      {
        LeaseExclusion(c, es, w, v, id);
      }
      assert holders == {w};
    }
  }

  // When two workers execute one job

  predicate AtMostOneHolder(s: State, id: JobId) {
    forall w, v :: w in s.held && v in s.held && Holds(s, w, id) && Holds(s, v, id) ==> w == v
  }

  /** This worker is still executing the job, although its lease has run out. */
  predicate HoldsExpired(c: Config, s: State, w: WorkerId, id: JobId) {
    Holds(s, w, id) && !Live(c, s, s.held[w])
  }

  /** The job is accepted while a worker whose lease has run out still executes it. */
  predicate Steals(c: Config, s: State, e: Event, id: JobId) {
    e.Accept? && e.copy.id == id && exists w :: w in s.held && HoldsExpired(c, s, w, id)
  }

  predicate NeverStolen(c: Config, es: seq<Event>, id: JobId)
    requires ValidRun(c, es)
  {
    es == [] || (NeverStolen(c, Front(es), id) && !Steals(c, After(c, Front(es)), Last(es), id))
  }

  /** At every point of the run at most one worker executes the job. */
  predicate NeverTwoHolders(c: Config, es: seq<Event>, id: JobId)
    requires ValidRun(c, es)
  {
    AtMostOneHolder(After(c, es), id) && (es == [] || NeverTwoHolders(c, Front(es), id))
  }

  /** An accept beside a holder steals, since no accept succeeds beside one whose lease is running. */
  lemma {:induction false} AcceptBesideHolder(c: Config, s: State, e: Event, w: WorkerId, id: JobId)
    requires HoldersCurrent(c, s) && Enabled(c, s, e) && e.Accept? && e.copy.id == id && Holds(s, w, id)
    ensures Steals(c, s, e, id) && !AtMostOneHolder(Apply(c, s, e), id)
  {
    assert HoldsExpired(c, s, w, id);
    var t := Apply(c, s, e);
    assert Holds(t, w, id) && Holds(t, e.w, id) && w != e.w;
  }

  lemma {:induction false} AcceptAlone(c: Config, s: State, e: Event, id: JobId)
    requires Enabled(c, s, e) && AcceptOf(e, id) == 1 && forall w :: w in s.held ==> !Holds(s, w, id)
    ensures AtMostOneHolder(Apply(c, s, e), id)
  {
  }

  /** Only an accept makes a holder. */
  lemma {:induction false} HolderWasHolder(c: Config, s: State, e: Event, w: WorkerId, id: JobId)
    requires Enabled(c, s, e) && AcceptOf(e, id) == 0 && Holds(Apply(c, s, e), w, id)
    ensures Holds(s, w, id)
  {
  }

  lemma OthersKeepAtMostOne(c: Config, s: State, e: Event, id: JobId)
    requires AtMostOneHolder(s, id) && Enabled(c, s, e) && AcceptOf(e, id) == 0
    ensures AtMostOneHolder(Apply(c, s, e), id)
  {
    var t := Apply(c, s, e);
    forall w, v | w in t.held && v in t.held && Holds(t, w, id) && Holds(t, v, id)
      ensures w == v
    {
      HolderWasHolder(c, s, e, w, id);
      HolderWasHolder(c, s, e, v, id);
    }
  }

  lemma {:induction false} StepStealsExactly(c: Config, s: State, e: Event, id: JobId)
    requires HoldersCurrent(c, s) && AtMostOneHolder(s, id) && Enabled(c, s, e)
    ensures AtMostOneHolder(Apply(c, s, e), id) <==> !Steals(c, s, e, id)
  {
    if AcceptOf(e, id) == 0 {
      OthersKeepAtMostOne(c, s, e, id);
    } else if w :| w in s.held && Holds(s, w, id) {
      AcceptBesideHolder(c, s, e, w, id);
    } else {
      AcceptAlone(c, s, e, id);
    }
  }

  /**
    In a run without overruns, at most one worker executes a job at any point if and only if the job is never
    accepted while a worker that outstayed its lease still executes it.
   */
  lemma {:induction false} TwoHoldersExactly(c: Config, es: seq<Event>, id: JobId)
    requires ValidRun(c, es) && NoOverrun(c, es)
    ensures NeverTwoHolders(c, es, id) <==> NeverStolen(c, es, id)
    decreases |es|
  {
    if es == [] {
    } else {
      TwoHoldersExactly(c, Front(es), id);
      RunKeepsInv(c, Front(es));
      if NeverTwoHolders(c, Front(es), id) {
        StepStealsExactly(c, After(c, Front(es)), Last(es), id);
      }
    }
  }

  // Terminal rows

  lemma WorkerKeepsTerminal(c: Config, s: State, e: Event, id: JobId)
    requires HoldersCurrent(c, s) && Enabled(c, s, e) && InTime(c, s, e) && ByWorker(e)
    requires id in s.rows && Terminal(s.rows[id].state)
    ensures id in Apply(c, s, e).rows && Apply(c, s, e).rows[id] == s.rows[id]
  {
  }

  lemma OtherKeepsTerminal(c: Config, s: State, e: Event, id: JobId)
    requires PendingCurrent(c, s) && Enabled(c, s, e) && InTime(c, s, e) && !ByWorker(e)
    requires id in s.rows && Terminal(s.rows[id].state)
    ensures id in Apply(c, s, e).rows && Apply(c, s, e).rows[id] == s.rows[id]
  {
  }

  lemma StepKeepsTerminal(c: Config, s: State, e: Event, id: JobId)
    requires Inv(c, s) && Enabled(c, s, e) && InTime(c, s, e)
    requires id in s.rows && Terminal(s.rows[id].state)
    ensures id in Apply(c, s, e).rows && Apply(c, s, e).rows[id] == s.rows[id]
  {
    if ByWorker(e) {
      WorkerKeepsTerminal(c, s, e, id);
    } else {
      OtherKeepsTerminal(c, s, e, id);
    }
  }

  lemma RunPrefix(c: Config, es: seq<Event>, more: seq<Event>)
    requires more != []
    ensures Front(es + more) == es + Front(more) && Last(es + more) == Last(more)
  {
  }

  lemma {:induction false} PrefixValid(c: Config, es: seq<Event>, more: seq<Event>)
    requires ValidRun(c, es + more)
    ensures ValidRun(c, es)
    ensures NoOverrun(c, es + more) ==> NoOverrun(c, es)
    decreases |more|
  {
    if more == [] {
      assert es + more == es;
    } else {
      RunPrefix(c, es, more);
      PrefixValid(c, es, Front(more));
    }
  }

  /** Once COMPLETE or FAILED, a row keeps every field for the rest of the run. */
  lemma {:induction false} TerminalForever(c: Config, es: seq<Event>, more: seq<Event>, id: JobId)
    requires ValidRun(c, es + more) && NoOverrun(c, es + more)
    requires ValidRun(c, es) && id in After(c, es).rows && Terminal(After(c, es).rows[id].state)
    ensures id in After(c, es + more).rows && After(c, es + more).rows[id] == After(c, es).rows[id]
    decreases |more|
  {
    if more == [] {
      assert es + more == es;
    } else {
      RunPrefix(c, es, more);
      TerminalForever(c, es, Front(more), id);
      RunKeepsInv(c, es + Front(more));
      StepKeepsTerminal(c, After(c, es + Front(more)), Last(more), id);
    }
  }

  // Which late write changes a terminal row

  /** A copy in a worker's hands is the row, or was accepted before the row was last accepted. */
  predicate BehindRow(s: State, j: JobRow) {
    j.id in s.rows && (s.rows[j.id] == j || j.execCount < s.rows[j.id].execCount)
  }

  /** What holds of all copies, whether their lease is running or not. */
  predicate HeldBehind(s: State) {
    forall w :: w in s.held ==> s.held[w].state == Accepted && BehindRow(s, s.held[w])
  }

  predicate PendingInit(s: State) {
    forall p :: p in s.pending ==> s.pending[p].state == Init
  }

  lemma {:induction false} StepKeepsPendingInit(c: Config, s: State, e: Event)
    requires PendingInit(s) && Enabled(c, s, e)
    ensures PendingInit(Apply(c, s, e))
  {
  }

  lemma {:induction false} AcceptKeepsHeldBehind(c: Config, s: State, e: Event)
    requires HeldBehind(s) && Enabled(c, s, e) && e.Accept?
    ensures HeldBehind(Apply(c, s, e))
  {
  }

  lemma {:induction false} WorkerKeepsHeldBehind(c: Config, s: State, e: Event)
    requires HoldersCurrent(c, s) && OneLiveHolder(c, s) && HeldBehind(s)
    requires Enabled(c, s, e) && InTime(c, s, e) && ByWorker(e) && !e.Accept?
    ensures HeldBehind(Apply(c, s, e))
  {
  }

  lemma {:induction false} OtherKeepsHeldBehind(c: Config, s: State, e: Event)
    requires HeldBehind(s) && PendingNotHeld(c, s)
    requires Enabled(c, s, e) && InTime(c, s, e) && !ByWorker(e)
    ensures HeldBehind(Apply(c, s, e))
  {
  }

  lemma {:induction false} RunKeepsBehind(c: Config, es: seq<Event>)
    requires ValidRun(c, es) && NoOverrun(c, es)
    ensures HeldBehind(After(c, es)) && PendingInit(After(c, es))
    decreases |es|
  {
    if es == [] {
    } else {
      var s, e := After(c, Front(es)), Last(es);
      RunKeepsBehind(c, Front(es));
      RunKeepsInv(c, Front(es));
      StepKeepsPendingInit(c, s, e);
      if e.Accept? {
        AcceptKeepsHeldBehind(c, s, e);
      } else if ByWorker(e) {
        WorkerKeepsHeldBehind(c, s, e);
      } else {
        OtherKeepsHeldBehind(c, s, e);
      }
    }
  }

  /** An `UpdateJob` of this job. */
  predicate Updates(e: Event, id: JobId) {
    match e
    case Annotate(_, j, _) => j == id
    case Defer(_, j) => j == id
    case NoExecutor(_, j) => j == id
    case Finish(_, j, _) => j == id
    case _ => false
  }

  /** A terminal row is changed by every update of its job, and by nothing else. */
  lemma {:induction false} UpdateClobbers(c: Config, s: State, e: Event, id: JobId)
    requires HeldBehind(s) && PendingInit(s) && Enabled(c, s, e)
    requires id in s.rows && Terminal(s.rows[id].state)
    ensures id in Apply(c, s, e).rows && (Apply(c, s, e).rows[id] != s.rows[id] <==> Updates(e, id))
  {
  }

  /**
    After a run without overruns, the next step changes a COMPLETE or FAILED row if and only if it is an
    `UpdateJob` of that job, and then its writer's lease has run out: exactly the overruns clobber.
   */
  lemma {:induction false} ClobbersExactly(c: Config, es: seq<Event>, e: Event, id: JobId)
    requires ValidRun(c, es) && NoOverrun(c, es) && Enabled(c, After(c, es), e)
    requires id in After(c, es).rows && Terminal(After(c, es).rows[id].state)
    ensures var s, t := After(c, es), Apply(c, After(c, es), e);
            && id in t.rows && (t.rows[id] != s.rows[id] <==> Updates(e, id))
            && (Updates(e, id) ==> !InTime(c, s, e))
  {
    RunKeepsInv(c, es);
    RunKeepsBehind(c, es);
    UpdateClobbers(c, After(c, es), e, id);
    if InTime(c, After(c, es), e) {
      StepKeepsTerminal(c, After(c, es), e, id);
    }
  }

  // The execution counter

  function ExecCount(s: State, id: JobId): nat {
    if id in s.rows then s.rows[id].execCount else 0
  }

  lemma {:induction false} StepCountsAccepts(c: Config, s: State, e: Event, id: JobId)
    requires Inv(c, s) && Enabled(c, s, e) && InTime(c, s, e)
    ensures ExecCount(Apply(c, s, e), id) == ExecCount(s, id) + AcceptOf(e, id)
  {
    if !ByWorker(e) {
      OtherWritesKeepCount(c, s, e, id);
    } else if !e.Accept? {
      WorkersKeepCount(c, s, e, id);
    }
  }

  lemma {:induction false} WorkersKeepCount(c: Config, s: State, e: Event, id: JobId)
    requires HoldersCurrent(c, s) && Enabled(c, s, e) && InTime(c, s, e) && ByWorker(e) && !e.Accept?
    ensures ExecCount(Apply(c, s, e), id) == ExecCount(s, id)
  {
  }

  /** Whoever else writes a row in time writes the counter it holds. */
  lemma {:induction false} OtherWritesKeepCount(c: Config, s: State, e: Event, id: JobId)
    requires Inv(c, s) && Enabled(c, s, e) && InTime(c, s, e) && !ByWorker(e)
    ensures ExecCount(Apply(c, s, e), id) == ExecCount(s, id)
  {
  }

  /** The stored counter is the number of accepts of the job, even when stale copies were accepted. */
  lemma {:induction false} ExecCountExact(c: Config, es: seq<Event>, id: JobId)
    requires ValidRun(c, es) && NoOverrun(c, es)
    ensures ExecCount(After(c, es), id) == Accepts(es, id)
    decreases |es|
  {
    if es == [] {
    } else {
      ExecCountExact(c, Front(es), id);
      RunKeepsInv(c, Front(es));
      StepCountsAccepts(c, After(c, Front(es)), Last(es), id);
    }
  }

  // The error log

  function ErrorLog(s: State, id: JobId): seq<string> {
    if id in s.rows then s.rows[id].errors else []
  }

  function MessageOf(e: Event, id: JobId): seq<string> {
    if e.Finish? && e.id == id && (e.x.err.Ordinary? || e.x.err.Permanent?) then [e.x.err.msg] else []
  }

  /** The messages of all failed executions of the job, in order. */
  function Messages(es: seq<Event>, id: JobId): seq<string> {
    if es == [] then [] else Messages(Front(es), id) + MessageOf(Last(es), id)
  }

  /** The step does not accept the job, or accepts a copy whose log is the locked row's. */
  predicate LogIsFresh(s: State, e: Event, id: JobId) {
    e.Accept? && e.copy.id == id ==> e.copy.errors == ErrorLog(s, id)
  }

  predicate AcceptsFreshLogs(c: Config, es: seq<Event>, id: JobId)
    requires ValidRun(c, es)
  {
    es == [] || (AcceptsFreshLogs(c, Front(es), id) && LogIsFresh(After(c, Front(es)), Last(es), id))
  }

  /** At every point of the run the row lists all messages so far. */
  predicate LogComplete(c: Config, es: seq<Event>, id: JobId)
    requires ValidRun(c, es)
  {
    ErrorLog(After(c, es), id) == Messages(es, id) && (es == [] || LogComplete(c, Front(es), id))
  }

  lemma {:induction false} WorkerLogs(c: Config, s: State, e: Event, id: JobId)
    requires HoldersCurrent(c, s) && Enabled(c, s, e) && InTime(c, s, e) && ByWorker(e)
    ensures ErrorLog(Apply(c, s, e), id)
         == if AcceptOf(e, id) == 1 then e.copy.errors else ErrorLog(s, id) + MessageOf(e, id)
  {
  }

  lemma {:induction false} OtherKeepsLog(c: Config, s: State, e: Event, id: JobId)
    requires PendingCurrent(c, s) && Enabled(c, s, e) && InTime(c, s, e) && !ByWorker(e)
    ensures ErrorLog(Apply(c, s, e), id) == ErrorLog(s, id)
  {
  }

  lemma {:induction false} StepLogs(c: Config, s: State, e: Event, id: JobId)
    requires Inv(c, s) && Enabled(c, s, e) && InTime(c, s, e)
    ensures ErrorLog(Apply(c, s, e), id)
         == if AcceptOf(e, id) == 1 then e.copy.errors else ErrorLog(s, id) + MessageOf(e, id)
  {
    if ByWorker(e) {
      WorkerLogs(c, s, e, id);
    } else {
      OtherKeepsLog(c, s, e, id);
    }
  }

  /**
    The error log is complete throughout a run if and only if every accept of the job takes a copy whose
    log is that of the row it locks, which `AcceptJob` could check.
   */
  lemma {:induction false} ErrorLogExactly(c: Config, es: seq<Event>, id: JobId)
    requires ValidRun(c, es) && NoOverrun(c, es)
    ensures LogComplete(c, es, id) <==> AcceptsFreshLogs(c, es, id)
    decreases |es|
  {
    if es == [] {
    } else {
      ErrorLogExactly(c, Front(es), id);
      RunKeepsInv(c, Front(es));
      StepLogs(c, After(c, Front(es)), Last(es), id);
    }
  }

  // The retry bound

  predicate LiveHolder(c: Config, s: State, w: WorkerId, id: JobId) {
    Holds(s, w, id) && Live(c, s, s.held[w])
  }

  /** Somebody is executing the job under an unexpired lease. */
  predicate UnderLease(c: Config, s: State, id: JobId) {
    exists w :: w in s.held && LiveHolder(c, s, w, id)
  }

  /** `maxJobErrorCount`, which may be configured negative, as a number of retries. */
  function Retries(c: Config): nat {
    if c.maxJobErrorCount < 0 then 0 else c.maxJobErrorCount
  }

  /** What a count of `n` ordinary errors means for the job's row. */
  predicate ErrorsPossible(c: Config, s: State, id: JobId, n: nat) {
    && n <= Retries(c) + 1
    && n <= ExecCount(s, id)
    && (UnderLease(c, s, id) ==> n < ExecCount(s, id))
    && (id in s.rows && !Terminal(s.rows[id].state) ==> n <= Retries(c))
  }

  lemma {:induction false} LeasesStartWithAccept(c: Config, s: State, e: Event, id: JobId, w: WorkerId)
    requires Enabled(c, s, e) && w in Apply(c, s, e).held && LiveHolder(c, Apply(c, s, e), w, id)
    ensures AcceptOf(e, id) == 1 || (w in s.held && LiveHolder(c, s, w, id))
  {
  }

  /** The write that ends an execution ends the only lease on the job. */
  lemma {:induction false} FinishEndsLease(c: Config, s: State, e: Event, id: JobId)
    requires Inv(c, s) && Enabled(c, s, e) && InTime(c, s, e) && e.Finish? && e.id == id
    ensures UnderLease(c, s, id) && !UnderLease(c, Apply(c, s, e), id)
  {
    assert LiveHolder(c, s, e.w, id);
    var t := Apply(c, s, e);
    forall v | v in t.held
      ensures !LiveHolder(c, t, v, id)
    {
      assert t.held[v] == s.held[v] && v != e.w;
    }
  }

  lemma {:induction false} OpenRowsStepwise(c: Config, s: State, e: Event, id: JobId)
    requires Enabled(c, s, e) && InTime(c, s, e) && Inv(c, s)
    requires id in Apply(c, s, e).rows && !Terminal(Apply(c, s, e).rows[id].state)
    ensures id in s.rows ==> !Terminal(s.rows[id].state)
    ensures id !in s.rows ==> OrdinaryErrorOf(e, id) == 0
    ensures OrdinaryErrorOf(e, id) == 1 ==> ExecCount(s, id) <= c.maxJobErrorCount
  {
    if id in s.rows && Terminal(s.rows[id].state) {
      StepKeepsTerminal(c, s, e, id);
    }
  }

  lemma {:induction false} StepKeepsErrorsPossible(c: Config, s: State, e: Event, id: JobId, n: nat)
    requires Inv(c, s) && Enabled(c, s, e) && InTime(c, s, e)
    requires ErrorsPossible(c, s, id, n)
    ensures ErrorsPossible(c, Apply(c, s, e), id, n + OrdinaryErrorOf(e, id))
  {
    var t := Apply(c, s, e);
    StepCountsAccepts(c, s, e, id);
    if id in t.rows && !Terminal(t.rows[id].state) {
      OpenRowsStepwise(c, s, e, id);
    }
    if e.Finish? && e.id == id {
      FinishEndsLease(c, s, e, id);
      assert id in s.rows && s.rows[id].state == Accepted;
    } else if UnderLease(c, t, id) {
      var w :| w in t.held && LiveHolder(c, t, w, id);
      LeasesStartWithAccept(c, s, e, id, w);
    }
  }

  /**
    However crashes, chain errors, missing executors and re-polls interleave, a job executes with an
    ordinary error at most `Retries + 1` times.
   */
  lemma {:induction false} RetryBound(c: Config, es: seq<Event>, id: JobId)
    requires ValidRun(c, es) && NoOverrun(c, es)
    ensures OrdinaryErrors(es, id) <= Retries(c) + 1
    ensures ErrorsPossible(c, After(c, es), id, OrdinaryErrors(es, id))
    decreases |es|
  {
    if es == [] {
    } else {
      RetryBound(c, Front(es), id);
      RunKeepsInv(c, Front(es));
      StepKeepsErrorsPossible(c, After(c, Front(es)), Last(es), id, OrdinaryErrors(Front(es), id));
    }
  }

  predicate EndsOrdinarily(e: Event, id: JobId) {
    match e
    case NoExecutor(_, j) => j != id
    case Release(_, j) => j != id
    case Finish(_, j, x) => j == id ==> x.err.Ordinary?
    case _ => true
  }

  /** Every execution of this job that ended, ended with an ordinary error. */
  predicate OnlyOrdinaryErrors(es: seq<Event>, id: JobId) {
    es == [] || (OnlyOrdinaryErrors(Front(es), id) && EndsOrdinarily(Last(es), id))
  }

  lemma HolderAdded(s: State, t: State, w: WorkerId, j: JobRow)
    requires w !in s.held && t.held == s.held[w := j]
    ensures |Holders(t, j.id)| == |Holders(s, j.id)| + 1
  {
    assert Holders(t, j.id) == Holders(s, j.id) + {w};
  }

  lemma HolderRemoved(s: State, t: State, w: WorkerId, id: JobId)
    requires Holds(s, w, id) && t.held == s.held - {w}
    ensures |Holders(t, id)| == |Holders(s, id)| - 1
  {
    assert Holders(t, id) == Holders(s, id) - {w};
  }

  lemma {:induction false} StepCountsHolders(c: Config, s: State, e: Event, id: JobId)
    requires Enabled(c, s, e) && EndsOrdinarily(e, id)
    ensures |Holders(Apply(c, s, e), id)| == |Holders(s, id)| + AcceptOf(e, id) - OrdinaryErrorOf(e, id)
  {
    if AcceptOf(e, id) == 1 {
      HolderAdded(s, Apply(c, s, e), e.w, AcceptedCopy(e.copy, s.rows[id], s.now));
    } else if OrdinaryErrorOf(e, id) == 1 {
      HolderRemoved(s, Apply(c, s, e), e.w, id);
    } else {
      OtherStepsKeepHolders(c, s, e, id);
    }
  }

  lemma {:induction false} OtherStepsKeepHolders(c: Config, s: State, e: Event, id: JobId)
    requires Enabled(c, s, e) && EndsOrdinarily(e, id) && AcceptOf(e, id) == 0 && OrdinaryErrorOf(e, id) == 0
    ensures Holders(Apply(c, s, e), id) == Holders(s, id)
  {
  }

  lemma {:induction false} AcceptsAreErrorsOrHolders(c: Config, es: seq<Event>, id: JobId)
    requires ValidRun(c, es) && OnlyOrdinaryErrors(es, id)
    ensures Accepts(es, id) == OrdinaryErrors(es, id) + |Holders(After(c, es), id)|
    decreases |es|
  {
    if es == [] {
    } else {
      AcceptsAreErrorsOrHolders(c, Front(es), id);
      StepCountsHolders(c, After(c, Front(es)), Last(es), id);
    }
  }

  /** The row is FAILED only after its counter went past the limit. */
  predicate FailedWhenExhausted(c: Config, s: State, id: JobId) {
    id in s.rows ==>
      s.rows[id].state != Complete && (s.rows[id].state == Failed ==> Retries(c) < s.rows[id].execCount)
  }

  /** A row only becomes terminal when an execution ends, by a worker whose copy is the row. */
  lemma {:induction false} OpenRowFailsWhenExhausted(c: Config, s: State, e: Event, id: JobId)
    requires HoldersCurrent(c, s) && PendingCurrent(c, s)
    requires Enabled(c, s, e) && InTime(c, s, e) && EndsOrdinarily(e, id)
    requires id in s.rows ==> !Terminal(s.rows[id].state)
    ensures FailedWhenExhausted(c, Apply(c, s, e), id)
  {
  }

  lemma {:induction false} StepKeepsFailedWhenExhausted(c: Config, s: State, e: Event, id: JobId)
    requires Inv(c, s) && Enabled(c, s, e) && InTime(c, s, e) && EndsOrdinarily(e, id)
    requires FailedWhenExhausted(c, s, id)
    ensures FailedWhenExhausted(c, Apply(c, s, e), id)
  {
    if id in s.rows && Terminal(s.rows[id].state) {
      StepKeepsTerminal(c, s, e, id);
    } else {
      OpenRowFailsWhenExhausted(c, s, e, id);
    }
  }

  lemma {:induction false} RunFailsWhenExhausted(c: Config, es: seq<Event>, id: JobId)
    requires ValidRun(c, es) && NoOverrun(c, es) && OnlyOrdinaryErrors(es, id)
    ensures FailedWhenExhausted(c, After(c, es), id)
    decreases |es|
  {
    if es == [] {
    } else {
      RunFailsWhenExhausted(c, Front(es), id);
      RunKeepsInv(c, Front(es));
      StepKeepsFailedWhenExhausted(c, After(c, Front(es)), Last(es), id);
    }
  }

  /**
    A job whose every execution fails ordinarily, and which nobody is executing, is FAILED exactly
    when it has failed `Retries + 1` times; until then it is not terminal.
   */
  lemma RetriesExactly(c: Config, es: seq<Event>, id: JobId)
    requires ValidRun(c, es) && NoOverrun(c, es)
    requires OnlyOrdinaryErrors(es, id) && Holders(After(c, es), id) == {}
    requires id in After(c, es).rows
    ensures After(c, es).rows[id].execCount == OrdinaryErrors(es, id)
    ensures After(c, es).rows[id].state == Failed <==> OrdinaryErrors(es, id) == Retries(c) + 1
    ensures After(c, es).rows[id].state != Complete
  {
    AcceptsAreErrorsOrHolders(c, es, id);
    ExecCountExact(c, es, id);
    RetryBound(c, es, id);
    RunFailsWhenExhausted(c, es, id);
  }

  // No job is lost

  lemma {:induction false} Extend(c: Config, es: seq<Event>, e: Event)
    requires ValidRun(c, es) && Enabled(c, After(c, es), e)
    ensures ValidRun(c, es + [e]) && After(c, es + [e]) == Apply(c, After(c, es), e)
    ensures NoOverrun(c, es + [e]) <==> NoOverrun(c, es) && InTime(c, After(c, es), e)
  {
    assert Front(es + [e]) == es && Last(es + [e]) == e;
  }

  /**
    From every reachable state, once an unfinished row has been left alone for its grace period, one
    poll and any idle worker suffice to execute the job again.
   */
  lemma {:induction false} NoJobLost(c: Config, es: seq<Event>, id: JobId, w: WorkerId, d: nat)
    requires ValidRun(c, es) && NoOverrun(c, es)
    requires id in After(c, es).rows && !Terminal(After(c, es).rows[id].state)
    requires w !in After(c, es).held
    requires After(c, es).rows[id].updatedAt + PollGrace(After(c, es).rows[id].state, c) < After(c, es).now + d
    ensures var more := es + [Tick(d)] + [Poll(id)] + [Accept(w, After(c, es).rows[id])];
            && ValidRun(c, more) && NoOverrun(c, more)
            && Holds(After(c, more), w, id)
            && After(c, more).held[w].execCount == After(c, es).rows[id].execCount + 1
  {
    var row := After(c, es).rows[id];
    RunKeepsInv(c, es);
    assert RowOk(After(c, es), id);
    SchedulableExactly(row, c, After(c, es).now + d);
    SchedulableStaysAcceptable(row, c, After(c, es).now + d, After(c, es).now + d);
    Extend(c, es, Tick(d));
    Extend(c, es + [Tick(d)], Poll(id));
    Extend(c, es + [Tick(d)] + [Poll(id)], Accept(w, row));
  }

  // What does not hold

  const WORKED := Execution("done", "", false, NoError)
  const BROKE := Execution("", "", false, Ordinary("broken"))

  /** Job 0 as it is created, as worker 1 accepts it, and as worker 2 accepts it. */
  function Fresh(): JobRow {
    Created(0, "t", "", 0)
  }

  function FirstAccept(): JobRow {
    AcceptedCopy(Fresh(), Fresh(), 0)
  }

  function SecondAccept(c: Config): JobRow {
    AcceptedCopy(FirstAccept(), FirstAccept(), c.grace + 1)
  }

  const SCHEDULED_RUN: seq<Event> := [Create(0, 0, "t", "")] + [Enqueue(0, 0)]

  lemma {:induction false} JobScheduled(c: Config)
    ensures ValidRun(c, SCHEDULED_RUN) && NoOverrun(c, SCHEDULED_RUN)
    ensures After(c, SCHEDULED_RUN) == State(0, map[0 := Fresh()], map[], multiset{Fresh()}, map[])
  {
    assert [] + [Create(0, 0, "t", "")] == [Create(0, 0, "t", "")];
    Extend(c, [], Create(0, 0, "t", ""));
    Extend(c, [Create(0, 0, "t", "")], Enqueue(0, 0));
  }

  function ExpiredRun(c: Config): seq<Event> {
    SCHEDULED_RUN + [Accept(1, Fresh())] + [Tick(c.grace + 1)] + [Poll(0)]
  }

  lemma {:induction false} LeaseExpired(c: Config)
    ensures ValidRun(c, ExpiredRun(c)) && NoOverrun(c, ExpiredRun(c))
    ensures After(c, ExpiredRun(c))
         == State(c.grace + 1, map[0 := FirstAccept()], map[], multiset{FirstAccept()}, map[1 := FirstAccept()])
  {
    JobScheduled(c);
    var e3 := SCHEDULED_RUN + [Accept(1, Fresh())];
    Extend(c, SCHEDULED_RUN, Accept(1, Fresh()));
    assert After(c, e3) == State(0, map[0 := FirstAccept()], map[], multiset{}, map[1 := FirstAccept()]);
    Extend(c, e3, Tick(c.grace + 1));
    Extend(c, e3 + [Tick(c.grace + 1)], Poll(0));
  }

  function StealingRun(c: Config): seq<Event> {
    ExpiredRun(c) + [Accept(2, FirstAccept())] + [Finish(2, 0, WORKED)]
  }

  lemma {:induction false} LeaseStolen(c: Config)
    ensures var es := ExpiredRun(c) + [Accept(2, FirstAccept())];
            && ValidRun(c, es) && NoOverrun(c, es) && 0 in After(c, es).rows
            && After(c, es).now == c.grace + 1
            && After(c, es).held == map[1 := FirstAccept(), 2 := SecondAccept(c)]
  {
    LeaseExpired(c);
    var s := State(c.grace + 1, map[0 := FirstAccept()], map[], multiset{FirstAccept()}, map[1 := FirstAccept()]);
    Extend(c, ExpiredRun(c), Accept(2, FirstAccept()));
    assert Apply(c, s, Accept(2, FirstAccept())).held == map[1 := FirstAccept(), 2 := SecondAccept(c)];
  }

  lemma {:induction false} StolenAndCompleted(c: Config)
    requires 0 < c.grace
    ensures var es := StealingRun(c);
            && ValidRun(c, es) && NoOverrun(c, es) && 0 in After(c, es).rows
            && After(c, es).now == c.grace + 1
            && After(c, es).rows[0].state == Complete
            && After(c, es).held == map[1 := FirstAccept()]
  {
    LeaseStolen(c);
    var es := ExpiredRun(c) + [Accept(2, FirstAccept())];
    Extend(c, es, Finish(2, 0, WORKED));
    assert After(c, es).held - {2} == map[1 := FirstAccept()];
  }

  /**
    Without the overrun hypothesis a terminal row changes: a slow worker loses its lease, a second
    worker completes the job, and the first one's late write replaces COMPLETE by ERROR or FAILED.
   */
  lemma {:induction false} OverrunClobbers(c: Config)
    requires 0 < c.grace
    ensures var es := StealingRun(c);
            var late := es + [Finish(1, 0, BROKE)];
            && ValidRun(c, es) && NoOverrun(c, es) && ValidRun(c, late) && !NoOverrun(c, late)
            && 0 in After(c, es).rows && After(c, es).rows[0].state == Complete
            && 0 in After(c, late).rows && After(c, late).rows[0].state in {Error, Failed}
  {
    StolenAndCompleted(c);
    Extend(c, StealingRun(c), Finish(1, 0, BROKE));
  }

  function RequeuedRun(c: Config): seq<Event> {
    SCHEDULED_RUN + [Tick(c.grace + 1)] + [Poll(0)] + [Accept(1, Fresh())] + [Finish(1, 0, BROKE)]
  }

  lemma {:induction false} JobRequeued(c: Config)
    ensures var es := SCHEDULED_RUN + [Tick(c.grace + 1)] + [Poll(0)];
            && ValidRun(c, es) && NoOverrun(c, es)
            && After(c, es) == State(c.grace + 1, map[0 := Fresh()], map[], multiset{Fresh(), Fresh()}, map[])
  {
    JobScheduled(c);
    Extend(c, SCHEDULED_RUN, Tick(c.grace + 1));
    Extend(c, SCHEDULED_RUN + [Tick(c.grace + 1)], Poll(0));
  }

  lemma {:induction false} RequeuedAndFailed(c: Config)
    requires 0 < c.grace && 1 <= c.maxJobErrorCount
    ensures var es := RequeuedRun(c);
            && ValidRun(c, es) && NoOverrun(c, es) && 0 in After(c, es).rows
            && After(c, es).rows[0].errors == ["broken"] && After(c, es).rows[0].state == Error
            && After(c, es).rows[0].execCount == 1
            && After(c, es).now == c.grace + 1 && Fresh() in After(c, es).queue && After(c, es).held == map[]
  {
    JobRequeued(c);
    var es := SCHEDULED_RUN + [Tick(c.grace + 1)] + [Poll(0)];
    var j := AcceptedCopy(Fresh(), Fresh(), c.grace + 1);
    Extend(c, es, Accept(1, Fresh()));
    assert After(c, es + [Accept(1, Fresh())])
        == State(c.grace + 1, map[0 := j], map[], multiset{Fresh()}, map[1 := j]);
    Extend(c, es + [Accept(1, Fresh())], Finish(1, 0, BROKE));
  }

  /**
    The error log, unlike the counter, is not complete: the poller re-queues a row whose copy is
    still in the channel, and accepting the second copy erases the errors recorded in between.
   */
  lemma {:induction false} ErrorLogCanBeLost(c: Config)
    requires 0 < c.grace && 1 <= c.maxJobErrorCount
    ensures var es := RequeuedRun(c);
            var again := es + [Accept(2, Fresh())];
            && ValidRun(c, again) && NoOverrun(c, again) && ValidRun(c, es)
            && 0 in After(c, es).rows && After(c, es).rows[0].errors == ["broken"]
            && 0 in After(c, again).rows && After(c, again).rows[0].errors == []
            && After(c, again).rows[0].execCount == 2
  {
    RequeuedAndFailed(c);
    Extend(c, RequeuedRun(c), Accept(2, Fresh()));
  }
}
