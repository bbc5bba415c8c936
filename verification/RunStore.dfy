/** The review_runs table as an object: SQL statements, and the services that issue them in order. */
module RunStores {
  import opened Text
  import opened Runs

  /** What runs.Service.ProcessEvent does for the action named in a normalised event. */
  function EventAction(action: string, mr: int, key: string): Action {
    var a := ToLower(action);
    if a == "open" || a == "reopen" then Open(mr, key)
    else if a == "update" || a == "ci_trigger" || a == "manual_trigger" then Update(mr, key)
    else if a == "close" || a == "merge" then Close(mr)
    else Tick(0)
  }

  /** The answer of an admin action. */
  datatype Answer = NotFound | Conflict | Performed(target: nat)

  class RunStore {
    var runs: seq<Run>
    var now: int

    ghost function Model(): Db
      reads this
    {
      Db(runs, now)
    }

    constructor ()
      ensures Model() == Db([], 0)
    {
      runs, now := [], 0;
    }

    // ----- Statements

    method GetReviewRunByIdempotencyKey(key: string) returns (id: Option<nat>)
      ensures id.Some? <==> HasKey(runs, key)
      ensures id.Some? ==> id.value < |runs| && runs[id.value].key == key
    {
      for i := 0 to |runs|
        invariant forall j :: 0 <= j < i ==> runs[j].key != key
      {
        if runs[i].key == key {
          return Some(i);
        }
      }
      return None;
    }

    /** INSERT under the UNIQUE idempotency_key; a duplicate is reported and changes nothing. */
    method InsertReviewRun(mr: int, key: string, maxRetries: int) returns (id: Option<nat>)
      modifies this`runs
      ensures id == if HasKey(old(runs), key) then None else Some(|old(runs)|)
      ensures Model() == if HasKey(old(runs), key) then old(Model()) else Insert(old(Model()), mr, key, maxRetries)
    {
      var existing := GetReviewRunByIdempotencyKey(key);
      if existing.Some? {
        return None;
      }
      id := Some(|runs|);
      runs := runs + [PendingRun(mr, key, maxRetries, now)];
    }

    method SupersedeActiveRunsForMR(newer: nat, mr: int)
      modifies this`runs
      ensures runs == SupersedeActive(old(runs), mr, newer)
    {
      for i := 0 to |runs|
        invariant |runs| == |old(runs)|
        invariant forall j :: 0 <= j < i ==> runs[j] == SupersedeActive(old(runs), mr, newer)[j]
        invariant forall j :: i <= j < |runs| ==> runs[j] == old(runs)[j]
      {
        if runs[i].mr == mr && i != newer && Active(runs[i]) {
          runs := runs[i := SupersededRun(runs[i], newer)];
        }
      }
    }

    method CancelPendingRunsForMR(mr: int)
      modifies this`runs
      ensures runs == CancelActive(old(runs), mr)
    {
      for i := 0 to |runs|
        invariant |runs| == |old(runs)|
        invariant forall j :: 0 <= j < i ==> runs[j] == CancelActive(old(runs), mr)[j]
        invariant forall j :: i <= j < |runs| ==> runs[j] == old(runs)[j]
      {
        if runs[i].mr == mr && Active(runs[i]) {
          runs := runs[i := CancelledRun(runs[i], "")];
        }
      }
    }

    method ReapStaleRunningRuns(timeout: nat) returns (reaped: nat)
      modifies this`runs
      ensures Model() == Apply(old(Model()), ReapStale(timeout))
      ensures reaped == StaleCount(old(runs), now, timeout)
    {
      reaped := 0;
      for i := 0 to |runs|
        invariant |runs| == |old(runs)|
        invariant forall j :: 0 <= j < i ==> runs[j] == Reap(old(runs), now, timeout)[j]
        invariant forall j :: i <= j < |runs| ==> runs[j] == old(runs)[j]
        invariant reaped == StaleCount(old(runs)[..i], now, timeout)
      {
        assert old(runs)[..i + 1][..i] == old(runs)[..i];
        if StaleClaim(runs[i], now, timeout) {
          runs := runs[i := ReapedRun(runs[i], now)];
          reaped := reaped + 1;
        }
      }
      assert old(runs)[..|runs|] == old(runs);
    }

    /** MarkReviewRunRetryableFailureIfRunning; the answer is whether a row was updated. */
    method MarkRetryableFailureIfRunning(id: nat, code: string, count: int, at: int) returns (updated: bool)
      modifies this`runs
      ensures Model() == Apply(old(Model()), FailRetryable(id, code, count, at))
      ensures updated == (id < |old(runs)| && old(runs)[id].status == Running)
    {
      updated := id < |runs| && runs[id].status == Running;
      if updated {
        var failed := runs[id].(status := Failed, errorCode := code, retryCount := count, nextRetryAt := Some(at));
        runs := runs[id := failed];
      }
    }

    /** MarkReviewRunFailedIfRunning. */
    method MarkFailedIfRunning(id: nat, code: string, count: int) returns (updated: bool)
      modifies this`runs
      ensures Model() == Apply(old(Model()), FailTerminally(id, code, count))
      ensures updated == (id < |old(runs)| && old(runs)[id].status == Running)
    {
      updated := id < |runs| && runs[id].status == Running;
      if updated {
        runs := runs[id := runs[id].(status := Failed, errorCode := code, retryCount := count, nextRetryAt := None)];
      }
    }

    /** UpdateReviewRunCompletedIfRunning. */
    method UpdateCompletedIfRunning(id: nat) returns (updated: bool)
      modifies this`runs
      ensures Model() == Apply(old(Model()), Complete(id))
      ensures updated == (id < |old(runs)| && old(runs)[id].status == Running)
    {
      updated := id < |runs| && runs[id].status == Running;
      if updated {
        runs := runs[id := runs[id].(status := Completed, errorCode := "", nextRetryAt := None)];
      }
    }

    /** UpdateReviewRunStatus, which has no guard. */
    method UpdateReviewRunStatus(id: nat, status: Status, code: string)
      modifies this`runs
      ensures Model() == At(old(Model()), id, r => StatusWritten(r, status, code))
    {
      if id < |runs| {
        runs := runs[id := runs[id].(status := status, errorCode := code)];
      }
    }

    method GetNextClaimableReviewRun() returns (next: Option<nat>)
      ensures next == Next(Model())
    {
      next := None;
      for i := 0 to |runs|
        invariant next == NextAmong(runs, now, i)
      {
        if Claimable(runs[i], now) && (next.None? || !Before(runs, next.value, i)) {
          next := Some(i);
        }
      }
    }

    // ----- Transactions

    method ClaimNextRun(worker: string) returns (id: Option<nat>)
      modifies this`runs
      ensures id == Next(old(Model()))
      ensures Model() == Apply(old(Model()), Claim(worker))
    {
      id := GetNextClaimableReviewRun();
      if id.Some? {
        runs := runs[id.value := Claimed(runs[id.value], worker, now)];
      }
    }

    /**
      createPendingRun: the idempotency check and the insertion.  In this and the
      next methods `fault` is the number of statements that succeed before the
      database fails, if it does; what they have written by then stays.
     */
    method CreatePendingRun(mr: int, key: string, fault: Option<nat>) returns (created: bool, ok: bool)
      modifies this`runs
      ensures ok ==> created == !HasKey(old(runs), key) && Model() == Apply(old(Model()), Open(mr, key))
      ensures fault.None? || fault.value > 1 ==> ok
      ensures !ok ==> runs == old(runs)
    {
      if fault == Some(0) {
        return false, false;
      }
      var existing := GetReviewRunByIdempotencyKey(key);
      if existing.Some? {
        return false, true;
      }
      if fault == Some(1) {
        return false, false;
      }
      var id := InsertReviewRun(mr, key, DEFAULT_MAX_RETRIES);
      return id.Some?, true;
    }

    /** handleUpdate: a fault behind the insertion leaves the older runs active. */
    method HandleUpdate(mr: int, key: string, fault: Option<nat>) returns (ok: bool)
      modifies this`runs
      ensures ok ==> Model() == Apply(old(Model()), Update(mr, key))
      ensures fault.None? ==> ok
      ensures !ok ==> runs == old(runs) || Model() == Apply(old(Model()), Open(mr, key))
    {
      var created;
      created, ok := CreatePendingRun(mr, key, fault);
      if !ok || !created {
        return;
      }
      if fault == Some(2) {
        return false;
      }
      assert runs[|old(runs)|].key == key;
      var newRun := GetReviewRunByIdempotencyKey(key);
      assert newRun == Some(|old(runs)|);
      if fault == Some(3) {
        return false;
      }
      SupersedeActiveRunsForMR(newRun.value, runs[newRun.value].mr);
    }

    method ProcessEvent(action: string, mr: int, key: string, fault: Option<nat>) returns (ok: bool)
      modifies this`runs
      ensures ok ==> Model() == Apply(old(Model()), EventAction(action, mr, key))
      ensures fault.None? ==> ok
      ensures !ok ==>
        runs == old(runs) || (EventAction(action, mr, key).Update? && Model() == Apply(old(Model()), Open(mr, key)))
    {
      var a := ToLower(action);
      ok := true;
      if a == "open" || a == "reopen" {
        var created;
        created, ok := CreatePendingRun(mr, key, fault);
      } else if a == "update" || a == "ci_trigger" || a == "manual_trigger" {
        ok := HandleUpdate(mr, key, fault);
      } else if a == "close" || a == "merge" {
        if fault == Some(0) {
          return false;
        }
        CancelPendingRunsForMR(mr);
      }
    }

    method RetryRun(id: nat) returns (answer: Answer)
      modifies this`runs
      ensures Model() == Apply(old(Model()), Action.RetryRun(id))
      ensures answer == if id >= |old(runs)| then NotFound else if CanRetry(old(runs)[id]) then Performed(id)
        else Conflict
    {
      if id >= |runs| {
        return NotFound;
      }
      if runs[id].status != Failed || runs[id].supersededBy.Some? {
        return Conflict;
      }
      runs := runs[id := RetryNow(runs[id], now)];
      return Performed(id);
    }

    method CancelRun(id: nat) returns (answer: Answer)
      modifies this`runs
      ensures Model() == Apply(old(Model()), Action.CancelRun(id))
      ensures answer == if id >= |old(runs)| then NotFound else if Active(old(runs)[id]) then Performed(id)
        else Conflict
    {
      if id >= |runs| {
        return NotFound;
      }
      var run := runs[id];
      if run.status == Failed {
        if run.nextRetryAt.None? {
          return Conflict;
        }
      } else if run.status != Pending && run.status != Running {
        return Conflict;
      }
      runs := runs[id := CancelledRun(run, "cancelled_by_operator")];
      return Performed(id);
    }

    method RequeueRun(id: nat) returns (answer: Answer)
      modifies this`runs
      ensures Model() == Apply(old(Model()), Action.RequeueRun(id))
      ensures answer == if id >= |old(runs)| then NotFound else if CanRequeue(old(runs)[id]) then Performed(id)
        else Conflict
    {
      if id >= |runs| {
        return NotFound;
      }
      var run := runs[id];
      if run.supersededBy.Some? || run.errorCode == SUPERSEDED_CODE {
        return Conflict;
      }
      if run.status != Cancelled && run.status != Failed {
        return Conflict;
      }
      runs := runs[id := Requeued(run)];
      return Performed(id);
    }

    method RerunRun(id: nat, key: string) returns (answer: Answer)
      modifies this`runs
      ensures Model() == Apply(old(Model()), Action.RerunRun(id, key))
      ensures answer.Performed? <==> id < |old(runs)| && CanRerun(old(runs)[id]) && !HasKey(old(runs), key)
      ensures answer.Performed? ==> answer.target == |old(runs)|
    {
      if id >= |runs| {
        return NotFound;
      }
      if runs[id].status !in {Completed, Failed, Cancelled} {
        return Conflict;
      }
      var newId := InsertReviewRun(runs[id].mr, key, runs[id].maxRetries);
      return if newId.Some? then Performed(newId.value) else Conflict;
    }
  }
}
