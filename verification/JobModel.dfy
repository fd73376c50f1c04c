/**
  The persisted job, the two predicates the store evaluates on it, and the effect of each write.
  Times are natural numbers; a duration is the number of clock units it lasts.
 */
module JobModel {

  type JobId = nat

  datatype JobState = Init | Accepted | NoAvailableWorkers | Error | Complete | Failed

  /** A row of the `jobs` table, and equally an in-memory copy of one. */
  datatype JobRow = JobRow(
    id: JobId,
    typ: string,
    state: JobState,
    error: string,
    errors: seq<string>,
    result: string,
    transactionId: string,
    execCount: nat,
    createdAt: nat,
    updatedAt: nat)

  /** The pool options that matter to scheduling. */
  datatype Config = Config(grace: nat, reschedulableGrace: nat, maxJobErrorCount: int)

  /** What an executor returned, in the order `process` distinguishes the cases. */
  datatype ExecError = NoError | ChainConnection(msg: string) | Ordinary(msg: string) | Permanent(msg: string)

  /** One executor call: the fields it left on its job, and its error. */
  datatype Execution = Execution(result: string, transactionId: string, notify: bool, err: ExecError)

  predicate Terminal(state: JobState) {
    state == Complete || state == Failed
  }

  /** A job may be accepted unless it is terminal or somebody accepted it within the grace period. */
  predicate IsAcceptable(j: JobRow, grace: nat, now: nat) {
    if j.state == Accepted && now < j.updatedAt + grace then false
    else if j.state == Complete || j.state == Failed then false
    else true
  }

  /** The WHERE clause of the poller's query. */
  predicate IsSchedulable(j: JobRow, c: Config, now: nat) {
    || (j.state in {Init, Accepted} && j.updatedAt + c.grace < now)
    || (j.state in {Error, NoAvailableWorkers} && j.updatedAt + c.reschedulableGrace < now)
  }

  function Created(id: JobId, typ: string, txId: string, now: nat): JobRow {
    JobRow(id, typ, Init, "", [], "", txId, 0, now, now)
  }

  /** A whole-row write stamps the copy it writes. */
  function Saved(j: JobRow, now: nat): JobRow {
    j.(updatedAt := now)
  }

  /** The row left by an accept: the caller's copy, except for the state and the re-read counter. */
  function AcceptedCopy(copy: JobRow, row: JobRow, now: nat): JobRow {
    Saved(copy.(state := Accepted, execCount := row.execCount + 1), now)
  }

  function Deferred(j: JobRow, now: nat): JobRow {
    Saved(j.(state := NoAvailableWorkers), now)
  }

  /** The row left when a worker reports an execution that is not a chain connection error. */
  function Finished(j: JobRow, x: Execution, maxJobErrorCount: int, now: nat): JobRow
    requires !x.err.ChainConnection?
  {
    var touched := j.(result := x.result, transactionId := x.transactionId);
    var reported :=
      match x.err
      case NoError => touched.(state := Complete, error := "")
      case Ordinary(msg) =>
        touched.(state := if j.execCount > maxJobErrorCount then Failed else Error,
                 error := msg, errors := j.errors + [msg])
      case Permanent(msg) => touched.(state := Failed, error := msg, errors := j.errors + [msg]);
    Saved(reported, now)
  }

  /** The grace period after which an untouched row in this state is polled again. */
  function PollGrace(state: JobState, c: Config): nat {
    if state in {Init, Accepted} then c.grace else c.reschedulableGrace
  }

  /** An untouched row is offered by the poller exactly when it is not terminal and its grace period is over. */
  lemma SchedulableExactly(j: JobRow, c: Config, now: nat)
    ensures IsSchedulable(j, c, now) <==> !Terminal(j.state) && j.updatedAt + PollGrace(j.state, c) < now
  {
    match j.state
    case Init =>
    case Accepted =>
    case NoAvailableWorkers =>
    case Error =>
    case Complete =>
    case Failed =>
  }

  /** A row the poller returned can be accepted at every later moment, as long as nobody writes it. */
  lemma SchedulableStaysAcceptable(j: JobRow, c: Config, polled: nat, now: nat)
    requires IsSchedulable(j, c, polled) && polled <= now
    ensures IsAcceptable(j, c.grace, now)
  {
    SchedulableExactly(j, c, polled);
  }
}
