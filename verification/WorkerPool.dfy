/**
  The job store and the worker pool as the objects they are: jobs are mutated in memory and written
  back as whole rows. Every method is tied to the row functions the lease protocol is made of, and
  `process` to three protocol events in a row.
 */
module WorkerPool {
  import opened JobModel
  import P = LeaseProtocol

  const SEND_JOB_STATUS_JOB_TYPE := "send_job_status"

  /** An in-memory job; `shouldSendNotification` has no column. */
  class Job {
    var id: JobId
    var typ: string
    var state: JobState
    var error: string
    var errors: seq<string>
    var result: string
    var transactionId: string
    var execCount: nat
    var createdAt: nat
    var updatedAt: nat
    var shouldSendNotification: bool

    function Row(): JobRow
      reads this
    {
      JobRow(id, typ, state, error, errors, result, transactionId, execCount, createdAt, updatedAt)
    }

    constructor (typ: string, txId: string)
      ensures Row() == JobRow(0, typ, Init, "", [], "", txId, 0, 0, 0)
      ensures !shouldSendNotification
    {
      this.typ, this.transactionId := typ, txId;
      state, error, errors, result := Init, "", [], "";
      id, execCount, createdAt, updatedAt := 0, 0, 0, 0;
      shouldSendNotification := false;
    }
  }

  /** The `jobs` table and the clock its writes are stamped with. */
  class JobStore {
    var rows: map<JobId, JobRow>
    var now: nat

    /** `uuid` is the identifier drawn for the new row; a collision is a primary key error. */
    method InsertJob(j: Job, uuid: JobId) returns (ok: bool)
      modifies this`rows, j`id, j`createdAt, j`updatedAt
      ensures ok <==> uuid !in old(rows)
      ensures j.id == uuid
      ensures ok ==> j.Row() == old(j.Row()).(id := uuid, createdAt := now, updatedAt := now)
      ensures ok ==> rows == old(rows)[uuid := j.Row()]
      ensures !ok ==> rows == old(rows)
    {
      j.id := uuid;
      if uuid in rows {
        return false;
      }
      j.createdAt, j.updatedAt := now, now;
      rows := rows[uuid := j.Row()];
      ok := true;
    }

    /** A failed write leaves the row as it was. */
    method UpdateJob(j: Job, fails: bool) returns (ok: bool)
      modifies this`rows, j`updatedAt
      ensures ok == !fails
      ensures j.Row() == Saved(old(j.Row()), now)
      ensures rows == if ok then old(rows)[old(j.id) := j.Row()] else old(rows)
    {
      j.updatedAt := now;
      if fails {
        return false;
      }
      rows := rows[j.id := j.Row()];
      ok := true;
    }

    /** Succeeds when both the caller's copy and the locked row are acceptable and the write does not fail. */
    method AcceptJob(j: Job, grace: nat, fails: bool) returns (ok: bool)
      modifies this`rows, j`state, j`execCount, j`updatedAt
      ensures ok <==> CanAccept(old(rows), old(j.Row()), grace, now) && !fails
      ensures j.Row() == if CanAccept(old(rows), old(j.Row()), grace, now)
                         then AcceptedCopy(old(j.Row()), old(rows)[old(j.id)], now) else old(j.Row())
      ensures rows == if ok then old(rows)[old(j.id) := j.Row()] else old(rows)
      ensures ok ==>
        && j.state == Accepted && j.execCount == old(rows)[j.id].execCount + 1 && j.updatedAt == now
        && !Terminal(old(rows)[j.id].state)
        && (old(rows)[j.id].state == Accepted ==> old(rows)[j.id].updatedAt + grace <= now)
    {
      if !IsAcceptable(j.Row(), grace, now) {
        return false;
      }
      if j.id !in rows {
        return false; // record not found
      }
      var job := rows[j.id];
      if !IsAcceptable(job, grace, now) {
        return false;
      }
      j.state := Accepted;
      j.execCount := job.execCount + 1;
      ok := UpdateJob(j, fails);
    }
  }

  /** The row of a job whose execution has ended carries what the executor left, in the state its error implies. */
  predicate Reports(row: JobRow, errors: seq<string>, x: Execution, maxJobErrorCount: int) {
    && row.result == x.result && row.transactionId == x.transactionId
    && match x.err
       case NoError => row.state == Complete && row.error == "" && row.errors == errors
       case Ordinary(msg) =>
         && row.state == (if row.execCount <= maxJobErrorCount then Error else Failed)
         && row.error == msg && row.errors == errors + [msg]
       case Permanent(msg) => row.state == Failed && row.error == msg && row.errors == errors + [msg]
       case ChainConnection(_) => false
  }

  predicate CanAccept(rows: map<JobId, JobRow>, copy: JobRow, grace: nat, now: nat) {
    && copy.id in rows
    && IsAcceptable(copy, grace, now)
    && IsAcceptable(rows[copy.id], grace, now)
  }

  /**
    Which database writes of one worker's turn fail: the accept, the one that ends it, and those for a
    notification.
   */
  datatype Writes = Writes(acceptFails: bool, endFails: bool, reportFails: bool, deferFails: bool)

  /** What the query of the halted flag answers. */
  datatype System = Running | Halted | Unknown

  /** The table after `process(copy)`, when the executor ran from `t` to `u`; notifications aside. */
  function Processed(
      rows: map<JobId, JobRow>, copy: JobRow, c: Config, known: bool, x: Execution, writes: Writes, t: nat, u: nat)
    : map<JobId, JobRow>
  {
    if !CanAccept(rows, copy, c.grace, t) || writes.acceptFails then rows
    else
      var j := AcceptedCopy(copy, rows[copy.id], t);
      if writes.endFails || (known && x.err.ChainConnection?) then rows[j.id := j]
      else if !known then rows[j.id := Deferred(j, t)]
      else rows[j.id := Finished(j, x, c.maxJobErrorCount, u)]
  }

  class WorkerPool {
    const store: JobStore
    const config: Config
    const capacity: nat
    const sendsJobStatus: bool
    var jobChan: seq<Job>
    var executors: set<string>

    constructor (store: JobStore, config: Config, capacity: nat, sendsJobStatus: bool)
      ensures this.store == store && this.config == config && this.capacity == capacity
      ensures this.sendsJobStatus == sendsJobStatus
      ensures jobChan == [] && executors == {SEND_JOB_STATUS_JOB_TYPE}
    {
      this.store, this.config, this.capacity, this.sendsJobStatus := store, config, capacity, sendsJobStatus;
      jobChan, executors := [], {SEND_JOB_STATUS_JOB_TYPE};
    }

    method RegisterExecutor(jobType: string)
      modifies this`executors
      ensures executors == old(executors) + {jobType}
    {
      executors := executors + {jobType};
    }

    /** The non-blocking send. After a stop the runtime may pick either ready case. */
    method TryEnqueue(job: Job, stopped: bool) returns (ok: bool)
      modifies this`jobChan
      ensures ok ==> old(|jobChan|) < capacity && jobChan == old(jobChan) + [job]
      ensures !ok ==> jobChan == old(jobChan) && (stopped || old(|jobChan|) >= capacity)
    {
      var pickStop: bool := *;
      if stopped && pickStop {
        return false;
      }
      if |jobChan| < capacity {
        jobChan := jobChan + [job];
        return true;
      }
      return false;
    }

    method CreateJob(jobType: string, txId: string, uuid: JobId) returns (ok: bool, job: Job)
      modifies store`rows
      ensures fresh(job)
      ensures ok <==> uuid !in old(store.rows)
      ensures ok ==> job.Row() == Created(uuid, jobType, txId, store.now)
      ensures ok ==>
        && job.id == uuid && job.typ == jobType && job.transactionId == txId
        && job.state == Init && job.execCount == 0 && job.createdAt == job.updatedAt == store.now
      ensures ok ==> store.rows == old(store.rows)[uuid := job.Row()]
      ensures !ok ==> store.rows == old(store.rows)
    {
      job := new Job(jobType, txId);
      ok := store.InsertJob(job, uuid);
    }

    /** A job that does not fit in the channel is left in the table for the poller. */
    method Schedule(j: Job, system: System, stopped: bool, deferFails: bool) returns (ok: bool)
      modifies this`jobChan, store`rows, j`state, j`updatedAt
      ensures system != Running ==>
        && ok == system.Halted?
        && jobChan == old(jobChan) && store.rows == old(store.rows) && j.Row() == old(j.Row())
      ensures jobChan == old(jobChan) || jobChan == old(jobChan) + [j]
      ensures |jobChan| > old(|jobChan|) ==> ok && store.rows == old(store.rows) && j.Row() == old(j.Row())
      ensures system == Running && |jobChan| == old(|jobChan|) ==>
        && (stopped || |jobChan| >= capacity)
        && ok == !deferFails
        && j.Row() == Deferred(old(j.Row()), store.now)
        && store.rows == if ok then old(store.rows)[old(j.id) := j.Row()] else old(store.rows)
    {
      if system != Running {
        return system.Halted?;
      }
      var queued := TryEnqueue(j, stopped);
      if queued {
        return true;
      }
      j.state := NoAvailableWorkers;
      ok := store.UpdateJob(j, deferFails);
    }

    /**
      The notification is a job of its own, carrying the report in its result; a failed write leaves a
      job without one.
     */
    method ScheduleJobStatusNotification(report: string, uuid: JobId, writes: Writes, system: System, stopped: bool)
      returns (ok: bool)
      modifies this`jobChan, store`rows
      ensures ok ==> uuid !in old(store.rows) && !writes.reportFails && system != Unknown
      ensures uuid !in old(store.rows) && !writes.reportFails ==>
        && uuid in store.rows && store.rows[uuid].typ == "send_job_status" && store.rows[uuid].result == report
        && !Terminal(store.rows[uuid].state) && store.rows == old(store.rows)[uuid := store.rows[uuid]]
      ensures NotificationAttempted(old(store.rows), store.rows, report, uuid, writes, store.now)
      ensures system != Running || writes.reportFails || uuid in old(store.rows) ==> jobChan == old(jobChan)
      ensures
        || jobChan == old(jobChan)
        || (|jobChan| == |old(jobChan)| + 1 && jobChan[..|old(jobChan)|] == old(jobChan)
            && fresh(jobChan[|old(jobChan)|])
            && jobChan[|old(jobChan)|].Row() == NotificationRow(report, uuid, Init, store.now))
    {
      var job;
      ok, job := CreateJob(SEND_JOB_STATUS_JOB_TYPE, "", uuid);
      if !ok {
        return;
      }
      job.result := report;
      ok := store.UpdateJob(job, writes.reportFails);
      if !ok {
        return;
      }
      ok := Schedule(job, system, stopped, writes.deferFails);
      assert store.rows == old(store.rows)[uuid := NotificationRow(report, uuid, store.rows[uuid].state, store.now)];
    }

    /** The fields `process` sets on the job once the executor has returned. */
    method RecordOutcome(job: Job, x: Execution)
      requires !x.err.ChainConnection?
      requires job.result == x.result && job.transactionId == x.transactionId
      modifies job`state, job`error, job`errors
      ensures forall u :: Saved(job.Row(), u) == Finished(old(job.Row()), x, config.maxJobErrorCount, u)
      ensures Reports(job.Row(), old(job.errors), x, config.maxJobErrorCount)
    {
      if !x.err.NoError? {
        if job.execCount > config.maxJobErrorCount || x.err.Permanent? {
          job.state := Failed;
        } else {
          job.state := Error;
        }
        job.error := x.err.msg;
        job.errors := job.errors + [x.err.msg];
      } else {
        job.state := Complete;
        job.error := "";
      }
    }

    /** The part of `process` from the executor's return to the write. */
    method Finish(job: Job, x: Execution, fails: bool) returns (ok: bool)
      requires !x.err.ChainConnection?
      modifies store`rows
      modifies job`result, job`transactionId, job`shouldSendNotification
      modifies job`state, job`error, job`errors, job`updatedAt
      ensures ok == !fails
      ensures job.Row() == Finished(old(job.Row()), x, config.maxJobErrorCount, store.now)
      ensures store.rows == if ok then old(store.rows)[old(job.id) := job.Row()] else old(store.rows)
      ensures Reports(job.Row(), old(job.errors), x, config.maxJobErrorCount)
      ensures job.shouldSendNotification == x.notify
    {
      job.result, job.transactionId, job.shouldSendNotification := x.result, x.transactionId, x.notify;
      RecordOutcome(job, x);
      ok := store.UpdateJob(job, fails);
    }

    /**
      One worker's handling of a dequeued copy. `x` is what the executor does if it is called, and
      `elapsed` how long that takes; no other process writes meanwhile. `critical` is the error case
      that leaves the job as accepted, `notifies` that a status notification is attempted.
     */
    method Process(
        job: Job, x: Execution, elapsed: nat, report: string, uuid: JobId,
        writes: Writes, system: System, stopped: bool)
      returns (critical: bool, notifies: bool)
      modifies this`jobChan, store, job
      ensures var acceptable := CanAccept(old(store.rows), old(job.Row()), config.grace, old(store.now));
              var accepted := acceptable && !writes.acceptFails;
              var known := old(job.typ) in executors;
              && store.now == old(store.now) + (if accepted && known then elapsed else 0)
              && (critical <==> accepted && (writes.endFails || (known && x.err.ChainConnection?)))
              && (notifies <==> && accepted && known && !critical
                                && Terminal(job.state) && x.notify && sendsJobStatus)
              && (!acceptable ==> job.Row() == old(job.Row()))
      ensures var after := Processed(old(store.rows), old(job.Row()), config, old(job.typ) in executors, x, writes,
                                     old(store.now), store.now);
              && (!notifies ==> store.rows == after)
              && (notifies ==> NotificationAttempted(after, store.rows, report, uuid, writes, store.now)
                               && old(job.id) in after && after[old(job.id)] == job.Row())
      ensures
        && CanAccept(old(store.rows), old(job.Row()), config.grace, old(store.now)) && !writes.acceptFails
        && !critical ==>
          && old(job.id) in store.rows
          && var row := store.rows[old(job.id)];
             && row.execCount == old(store.rows)[old(job.id)].execCount + 1 && row.updatedAt == store.now
             && if old(job.typ) in executors then Reports(row, old(job.errors), x, config.maxJobErrorCount)
                else row.state == NoAvailableWorkers
      ensures !notifies || uuid in old(store.rows) || writes.reportFails || system != Running ==>
        jobChan == old(jobChan)
      ensures old(jobChan) <= jobChan && |jobChan| <= |old(jobChan)| + 1
    {
      critical, notifies := false, false;
      var ok := store.AcceptJob(job, config.grace, writes.acceptFails);
      if !ok {
        return;
      }
      ghost var held := job.Row();
      assert held == AcceptedCopy(old(job.Row()), old(store.rows)[old(job.id)], store.now);
      if job.typ !in executors {
        job.state := NoAvailableWorkers;
        ok := store.UpdateJob(job, writes.endFails);
        assert ok ==> store.rows == old(store.rows)[held.id := Deferred(held, store.now)];
        return !ok, false;
      }
      store.now := store.now + elapsed;
      if x.err.ChainConnection? {
        return true, false;
      }
      ok := Finish(job, x, writes.endFails);
      if !ok {
        return true, false;
      }
      assert store.rows == old(store.rows)[held.id := Finished(held, x, config.maxJobErrorCount, store.now)];
      if (job.state == Failed || job.state == Complete) && job.shouldSendNotification && sendsJobStatus {
        notifies := true;
        var _ := ScheduleJobStatusNotification(report, uuid, writes, system, stopped);
      }
    }
  }

  function NotificationRow(report: string, uuid: JobId, state: JobState, now: nat): JobRow {
    Created(uuid, SEND_JOB_STATUS_JOB_TYPE, "", now).(result := report, state := state)
  }

  /**
    The table gained a notification job, scheduled or left to the poller, or one without its report, or none
    if its identifier was taken.
   */
  predicate NotificationAttempted(
      before: map<JobId, JobRow>, after: map<JobId, JobRow>, report: string, uuid: JobId, writes: Writes, now: nat)
  {
    if uuid in before then after == before
    else if writes.reportFails then after == before[uuid := Created(uuid, SEND_JOB_STATUS_JOB_TYPE, "", now)]
    else || after == before[uuid := NotificationRow(report, uuid, Init, now)]
         || after == before[uuid := NotificationRow(report, uuid, NoAvailableWorkers, now)]
  }

  /**
    What `process` does to the table is what the protocol's events do: a refusal, or an accept, the time the
    execution takes, and the end of the execution. The last write is in time exactly when the execution is
    shorter than the grace period.
   */
  lemma ProcessFollowsProtocol(
      s: P.State, c: Config, w: P.WorkerId, copy: JobRow, known: bool, x: Execution, writes: Writes, elapsed: nat)
    requires w !in s.held && copy in s.queue
    ensures P.Enabled(c, s, P.Accept(w, copy)) <==> CanAccept(s.rows, copy, c.grace, s.now)
    ensures !CanAccept(s.rows, copy, c.grace, s.now) || writes.acceptFails ==>
      && P.Enabled(c, s, P.Refuse(copy))
      && P.Apply(c, s, P.Refuse(copy)).rows == Processed(s.rows, copy, c, known, x, writes, s.now, s.now)
    ensures CanAccept(s.rows, copy, c.grace, s.now) && !writes.acceptFails ==>
      var s1 := P.Apply(c, s, P.Accept(w, copy));
      var s2 := if known then P.Apply(c, s1, P.Tick(elapsed)) else s1;
      var end := if writes.endFails || (known && x.err.ChainConnection?) then P.Release(w, copy.id)
                 else if !known then P.NoExecutor(w, copy.id)
                 else P.Finish(w, copy.id, x);
      && P.Enabled(c, s2, end)
      && P.Apply(c, s2, end).rows == Processed(s.rows, copy, c, known, x, writes, s.now, s2.now)
      && P.Apply(c, s2, end).held == s.held
      && (end.Finish? ==> (P.InTime(c, s2, end) <==> elapsed < c.grace))
  {
    if CanAccept(s.rows, copy, c.grace, s.now) {
      var s1 := P.Apply(c, s, P.Accept(w, copy));
      assert s1.held - {w} == s.held;
    }
  }
}
