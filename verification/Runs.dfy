/**
  The queue of review runs: the statements of internal/db/review_runs.sql.go
  and review_runs_custom.go, composed into the transactions of internal/runs,
  internal/scheduler, internal/adminapi, internal/llm/persist.go and
  internal/manualtrigger.

  A run's id is its position in the table, which only grows.  Every action is
  one serial transaction; the clock only moves by `Tick`.
 */
module Runs {
  import opened Text

  datatype Status = Pending | Running | Failed | Completed | RequestedChanges | ParserError | Cancelled

  datatype Run = Run(
    mr: int,
    key: string,
    createdAt: int,
    status: Status,
    errorCode: string,
    supersededBy: Option<nat>,
    retryCount: int,
    maxRetries: int,
    nextRetryAt: Option<int>,
    claimedBy: string,
    claimedAt: Option<int>)

  datatype Db = Db(runs: seq<Run>, now: int)

  const DEFAULT_MAX_RETRIES := 3
  const REAP_RETRY_SECONDS := 30
  const SUPERSEDED_CODE := "superseded_by_new_head"

  /** What the cancelling and superseding statements call active: retry-scheduled failures included. */
  predicate Active(r: Run) { r.status == Pending || r.status == Running || (r.status == Failed && r.nextRetryAt.Some?) }

  predicate HasKey(runs: seq<Run>, key: string) { exists i :: 0 <= i < |runs| && runs[i].key == key }

  // ----- Statements that update one row

  function Claimed(r: Run, worker: string, now: int): Run {
    r.(status := Running, claimedBy := worker, claimedAt := Some(now), nextRetryAt := None, errorCode := "")
  }

  function RetryableFailed(r: Run, code: string, count: int, at: int): Run {
    if r.status == Running then r.(status := Failed, errorCode := code, retryCount := count,
      nextRetryAt := Some(at)) else r
  }

  function TerminallyFailed(r: Run, code: string, count: int): Run {
    if r.status == Running then r.(status := Failed, errorCode := code, retryCount := count, nextRetryAt := None) else r
  }

  function CompletedIfRunning(r: Run): Run {
    if r.status == Running then r.(status := Completed, errorCode := "", nextRetryAt := None) else r
  }

  /** UpdateReviewRunStatus has no guard on the current status and leaves next_retry_at alone. */
  function StatusWritten(r: Run, status: Status, code: string): Run { r.(status := status, errorCode := code) }

  function RetryNow(r: Run, now: int): Run {
    r.(status := Failed, nextRetryAt := Some(now), claimedBy := "", claimedAt := None)
  }

  function CancelledRun(r: Run, code: string): Run {
    r.(status := Cancelled, errorCode := code, supersededBy := None, nextRetryAt := None)
  }

  function Requeued(r: Run): Run {
    r.(status := Pending, errorCode := "", supersededBy := None, nextRetryAt := None, claimedBy := "",
      claimedAt := None)
  }

  function SupersededRun(r: Run, newer: nat): Run {
    r.(status := Cancelled, errorCode := SUPERSEDED_CODE, supersededBy := Some(newer), nextRetryAt := None)
  }

  function ReapedRun(r: Run, now: int): Run {
    r.(status := Failed, errorCode := "worker_timeout", retryCount := r.retryCount + 1,
    nextRetryAt := Some(now + REAP_RETRY_SECONDS))
  }

  // ----- Statements over the whole table

  function PendingRun(mr: int, key: string, maxRetries: int, now: int): Run {
    Run(mr, key, now, Pending, "", None, 0, maxRetries, None, "", None)
  }

  function Insert(db: Db, mr: int, key: string, maxRetries: int): Db {
    db.(runs := db.runs + [PendingRun(mr, key, maxRetries, db.now)])
  }

  function SupersedeActive(runs: seq<Run>, mr: int, newer: nat): (r: seq<Run>)
    ensures |r| == |runs|
  {
    seq(|runs|, i requires 0 <= i < |runs| =>
      if runs[i].mr == mr && i != newer && Active(runs[i]) then SupersededRun(runs[i], newer) else runs[i])
  }

  function CancelActive(runs: seq<Run>, mr: int): (r: seq<Run>)
    ensures |r| == |runs|
  {
    seq(|runs|, i requires 0 <= i < |runs| =>
      if runs[i].mr == mr && Active(runs[i]) then CancelledRun(runs[i], "") else runs[i])
  }

  predicate StaleClaim(r: Run, now: int, timeout: nat) {
    r.status == Running && r.claimedAt.Some? && r.claimedAt.value < now - timeout
  }

  function Reap(runs: seq<Run>, now: int, timeout: nat): (r: seq<Run>)
    ensures |r| == |runs|
  {
    seq(|runs|, i requires 0 <= i < |runs| => if StaleClaim(runs[i], now, timeout) then ReapedRun(runs[i], now)
      else runs[i])
  }

  /** How many runs hold a stale claim. */
  function StaleCount(runs: seq<Run>, now: int, timeout: nat): nat {
    if runs == [] then 0
    else StaleCount(runs[..|runs| - 1], now, timeout) + if StaleClaim(runs[|runs| - 1], now, timeout) then 1 else 0
  }

  // ----- Choosing the next run

  predicate Claimable(r: Run, now: int) {
    r.status == Pending || (r.status == Failed && r.nextRetryAt.Some? && r.nextRetryAt.value <= now)
  }

  function Due(r: Run): int { if r.nextRetryAt.Some? then r.nextRetryAt.value else r.createdAt }

  function Bucket(r: Run): int { if r.status == Pending then 0 else 1 }

  /** The ORDER BY of GetNextClaimableReviewRun. */
  predicate Before(runs: seq<Run>, i: nat, j: nat)
    requires i < |runs| && j < |runs|
  {
    var a, b := runs[i], runs[j];
    || Bucket(a) < Bucket(b)
    || (Bucket(a) == Bucket(b) && Due(a) < Due(b))
    || (Bucket(a) == Bucket(b) && Due(a) == Due(b) && a.createdAt < b.createdAt)
    || (Bucket(a) == Bucket(b) && Due(a) == Due(b) && a.createdAt == b.createdAt && i < j)
  }

  /** The first claimable run among the first n in that order. */
  function NextAmong(runs: seq<Run>, now: int, n: nat): (next: Option<nat>)
    requires n <= |runs|
    ensures next.Some? ==> next.value < n && Claimable(runs[next.value], now)
    ensures next.None? ==> forall j :: 0 <= j < n ==> !Claimable(runs[j], now)
    ensures next.Some? ==>
              forall j :: 0 <= j < n && Claimable(runs[j], now) && j != next.value ==> Before(runs, next.value, j)
  {
    if n == 0 then None
    else
      var best := NextAmong(runs, now, n - 1);
      if !Claimable(runs[n - 1], now) then best
      else if best.Some? && Before(runs, best.value, n - 1) then best
      else Some(n - 1)
  }

  function Next(db: Db): Option<nat> { NextAmong(db.runs, db.now, |db.runs|) }

  // ----- Transactions

  /** canonicalRunStatus: the only statuses a review result is stored with. */
  function ResultStatus(parserError: bool, liveFindings: nat): Status {
    if parserError then ParserError else if liveFindings > 0 then RequestedChanges else Completed
  }

  datatype Action =
    | Tick(seconds: nat)
      // webhook events
    | Open(mr: int, key: string)
    | Update(mr: int, key: string)
    | Close(mr: int)
      // the scheduler's workers and reaper
    | Claim(worker: string)
    | ReapStale(timeout: nat)
    | FailRetryable(id: nat, code: string, count: int, at: int)
    | FailTerminally(id: nat, code: string, count: int)
    | Complete(id: nat)
      // unguarded status writes of the processors
    | StoreResult(id: nat, parserError: bool, liveFindings: nat)
    | ManualProcessFailed(id: nat)
      // guarded admin actions
    | RetryRun(id: nat)
    | CancelRun(id: nat)
    | RequeueRun(id: nat)
    | RerunRun(id: nat, key: string)

  predicate CanRetry(r: Run) { r.status == Failed && r.supersededBy.None? }

  predicate CanRequeue(r: Run) {
    r.supersededBy.None? && r.errorCode != SUPERSEDED_CODE && r.status in {Cancelled, Failed}
  }

  predicate CanRerun(r: Run) { r.status in {Completed, Failed, Cancelled} }

  /** Replaces one row; an id that is not in the table matches no row. */
  function At(db: Db, id: nat, f: Run -> Run): Db {
    if id < |db.runs| then db.(runs := db.runs[id := f(db.runs[id])]) else db
  }

  function Guarded(db: Db, id: nat, guard: Run -> bool, f: Run -> Run): Db {
    if id < |db.runs| && guard(db.runs[id]) then At(db, id, f) else db
  }

  function ApplyUpdate(db: Db, mr: int, key: string): Db {
    if HasKey(db.runs, key) then db
    else
      var created := Insert(db, mr, key, DEFAULT_MAX_RETRIES);
      created.(runs := SupersedeActive(created.runs, mr, |db.runs|))
  }

  function ApplyRerun(db: Db, id: nat, key: string): Db {
    if id < |db.runs| && CanRerun(db.runs[id]) && !HasKey(db.runs, key)
    then Insert(db, db.runs[id].mr, key, db.runs[id].maxRetries) else db
  }

  function ApplyClaim(db: Db, worker: string): Db {
    var next := Next(db);
    if next.None? then db else db.(runs := db.runs[next.value := Claimed(db.runs[next.value], worker, db.now)])
  }

  function Apply(db: Db, a: Action): Db {
    match a
    case Tick(seconds) => db.(now := db.now + seconds)
    case Open(mr, key) => if HasKey(db.runs, key) then db else Insert(db, mr, key, DEFAULT_MAX_RETRIES)
    case Update(mr, key) => ApplyUpdate(db, mr, key)
    case Close(mr) => db.(runs := CancelActive(db.runs, mr))
    case Claim(worker) => ApplyClaim(db, worker)
    case ReapStale(timeout) => db.(runs := Reap(db.runs, db.now, timeout))
    case FailRetryable(id, code, count, at) => At(db, id, r => RetryableFailed(r, code, count, at))
    case FailTerminally(id, code, count) => At(db, id, r => TerminallyFailed(r, code, count))
    case Complete(id) => At(db, id, CompletedIfRunning)
    case StoreResult(id, parserError, live) => At(db, id, r => StatusWritten(r, ResultStatus(parserError, live), ""))
    case ManualProcessFailed(id) => At(db, id, r => StatusWritten(r, Failed, "manual_trigger_process_failed"))
    case RetryRun(id) => Guarded(db, id, CanRetry, r => RetryNow(r, db.now))
    case CancelRun(id) => Guarded(db, id, Active, r => CancelledRun(r, "cancelled_by_operator"))
    case RequeueRun(id) => Guarded(db, id, CanRequeue, Requeued)
    case RerunRun(id, key) => ApplyRerun(db, id, key)
  }

  /** Every state of a serial history follows from the one before by its action. */
  ghost predicate History(states: seq<Db>, actions: seq<Action>) {
    |states| == |actions| + 1 && forall k :: 0 <= k < |actions| ==> states[k + 1] == Apply(states[k], actions[k])
  }
}
