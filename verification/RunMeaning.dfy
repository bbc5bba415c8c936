/** What each event, worker step and operator action does to a run, and for how long. */
module RunMeaning {
  import opened Text
  import opened TextProofs
  import opened Runs
  import opened RunProofs
  import opened RunStores

  // ----- Events

  const OPENING := ["open", "reopen"]
  const UPDATING := ["update", "ci_trigger", "manual_trigger"]
  const CLOSING := ["close", "merge"]

  /** A new run of the merge request, waiting to be claimed. */
  predicate Waiting(r: Run, mr: int, key: string, now: int) {
    && r.mr == mr && r.key == key && r.createdAt == now && r.status == Pending && r.errorCode == ""
    && r.supersededBy.None? && r.retryCount == 0 && r.maxRetries == 3 && r.nextRetryAt.None?
    && r.claimedBy == "" && r.claimedAt.None?
  }

  /** One waiting run is added, unless its key is known. */
  ghost predicate OpensRun(db: Db, db': Db, mr: int, key: string) {
    if HasKey(db.runs, key) then db' == db
    else
      && db'.now == db.now && |db'.runs| == |db.runs| + 1 && Waiting(db'.runs[|db.runs|], mr, key, db.now)
      && db'.runs[..|db.runs|] == db.runs
  }

  /** One waiting run is added and supersedes the active ones of its merge request, unless its key is known. */
  ghost predicate ReplacesRuns(db: Db, db': Db, mr: int, key: string) {
    if HasKey(db.runs, key) then db' == db
    else
      && db'.now == db.now && |db'.runs| == |db.runs| + 1 && Waiting(db'.runs[|db.runs|], mr, key, db.now)
      && (forall i: nat :: i < |db.runs| ==> if ActiveFor(db.runs, mr, i)
        then db'.runs[i].status == Cancelled && db'.runs[i].supersededBy == Some(|db.runs|)
        else db'.runs[i] == db.runs[i])
  }

  /** The active runs of the merge request are cancelled. */
  ghost predicate CancelsRuns(db: Db, db': Db, mr: int) {
    && db'.now == db.now && |db'.runs| == |db.runs|
    && (forall i: nat :: i < |db.runs| ==> if ActiveFor(db.runs, mr, i)
      then db'.runs[i].status == Cancelled && db'.runs[i].supersededBy.None?
      else db'.runs[i] == db.runs[i])
  }

  /** The action is one of the words, in any case. */
  ghost predicate Spells(action: string, words: seq<string>) {
    exists i :: 0 <= i < |words| && FoldsTo(action, words[i])
  }

  predicate AllLower(words: seq<string>) { forall i :: 0 <= i < |words| ==> LowerCase(words[i]) }

  lemma {:induction false} WordsAreLower()
    ensures AllLower(OPENING) && AllLower(UPDATING) && AllLower(CLOSING)
  {
    assert LowerCase("open") && LowerCase("reopen");
    assert LowerCase("update") && LowerCase("ci_trigger") && LowerCase("manual_trigger");
    assert LowerCase("close") && LowerCase("merge");
  }

  lemma {:induction false} SpelledAction(action: string, words: seq<string>)
    requires Spells(action, words) && AllLower(words)
    ensures ToLower(action) in words
  {
    var i :| 0 <= i < |words| && FoldsTo(action, words[i]);
    FoldedLowers(action, words[i]);
  }

  lemma {:induction false} SpelledEvent(action: string, mr: int, key: string)
    ensures Spells(action, OPENING) ==> EventAction(action, mr, key) == Open(mr, key)
    ensures Spells(action, UPDATING) ==> EventAction(action, mr, key) == Update(mr, key)
    ensures Spells(action, CLOSING) ==> EventAction(action, mr, key) == Close(mr)
    ensures ToLower(action) !in OPENING + UPDATING + CLOSING ==> EventAction(action, mr, key) == Tick(0)
  {
    WordsAreLower();
    if Spells(action, OPENING) {
      SpelledAction(action, OPENING);
    } else if Spells(action, UPDATING) {
      SpelledAction(action, UPDATING);
    } else if Spells(action, CLOSING) {
      SpelledAction(action, CLOSING);
    }
  }

  lemma {:induction false} OpenMeaning(db: Db, mr: int, key: string)
    ensures OpensRun(db, Apply(db, Open(mr, key)), mr, key)
  {
  }

  lemma {:induction false} UpdateMeaning(db: Db, mr: int, key: string)
    ensures ReplacesRuns(db, Apply(db, Update(mr, key)), mr, key)
  {
  }

  lemma {:induction false} CloseMeaning(db: Db, mr: int)
    ensures CancelsRuns(db, Apply(db, Close(mr)), mr)
  {
  }

  /** Opening words add a run, updating words replace the active ones, closing words cancel them, others do nothing. */
  lemma {:induction false} EventMeaning(db: Db, action: string, mr: int, key: string)
    ensures
      var db' := Apply(db, EventAction(action, mr, key));
      && (Spells(action, OPENING) ==> OpensRun(db, db', mr, key))
      && (Spells(action, UPDATING) ==> ReplacesRuns(db, db', mr, key))
      && (Spells(action, CLOSING) ==> CancelsRuns(db, db', mr))
      && (ToLower(action) !in OPENING + UPDATING + CLOSING ==> db' == db)
  {
    SpelledEvent(action, mr, key);
    OpenMeaning(db, mr, key);
    UpdateMeaning(db, mr, key);
    CloseMeaning(db, mr);
  }

  // ----- Columns that few actions write

  /** The retry count of a run after an action: what a failing worker reports, one more when reaped, else as before. */
  function RetriesAfter(db: Db, a: Action, i: nat): int
    requires i < |db.runs|
  {
    var r := db.runs[i];
    match a
    case FailRetryable(id, _, count, _) => if id == i && r.status == Running then count else r.retryCount
    case FailTerminally(id, _, count) => if id == i && r.status == Running then count else r.retryCount
    case ReapStale(timeout) =>
      if r.status == Running && r.claimedAt.Some? && r.claimedAt.value + timeout < db.now
      then r.retryCount + 1 else r.retryCount
    case _ => r.retryCount
  }

  /** Retries are counted by workers and the reaper alone, and no action changes the limit on them. */
  lemma {:induction false} RetriesCounted(db: Db, a: Action, i: nat)
    requires i < |db.runs|
    ensures i < |Apply(db, a).runs|
    ensures Apply(db, a).runs[i].retryCount == RetriesAfter(db, a, i)
    ensures Apply(db, a).runs[i].maxRetries == db.runs[i].maxRetries
  {
    RowsStay(db, a, i);
  }

  /** The reaper reports how many runs it took back. */
  lemma {:induction false} StaleCounted(runs: seq<Run>, now: int, timeout: nat)
    ensures StaleCount(runs, now, timeout) == |set i: nat | i < |runs| && StaleClaim(runs[i], now, timeout)|
  {
    if runs != [] {
      var n: nat := |runs| - 1;
      StaleCounted(runs[..n], now, timeout);
      assert (set i: nat | i < |runs| && StaleClaim(runs[i], now, timeout))
          == (set i: nat | i < n && StaleClaim(runs[..n][i], now, timeout))
             + if StaleClaim(runs[n], now, timeout) then {n} else {};
    }
  }

  // ----- Claims

  /** The run is at work for this worker since then. */
  predicate Held(r: Run, worker: string, since: int) {
    r.status == Running && r.claimedBy == worker && r.claimedAt == Some(since)
  }

  /** A claim hands one run to the worker and touches no other; it fails only if no run is claimable. */
  lemma {:induction false} ClaimMeaning(db: Db, worker: string)
    ensures
      var db', next := Apply(db, Claim(worker)), Next(db);
      && (next.None? <==> forall i: nat :: i < |db.runs| ==> !Claimable(db.runs[i], db.now))
      && (next.None? ==> db' == db)
      && (next.Some? ==>
            && next.value < |db.runs| == |db'.runs| && db'.now == db.now
            && Claimable(db.runs[next.value], db.now) && Held(db'.runs[next.value], worker, db.now)
            && db'.runs[next.value].retryCount == db.runs[next.value].retryCount
            && forall i: nat :: i < |db.runs| && i != next.value ==> db'.runs[i] == db.runs[i])
  {
  }

  /** A retry is claimed only if no run is pending, and then the one that is due first, the older of two. */
  lemma {:induction false} RetryOrder(db: Db, i: nat, j: nat)
    requires Next(db) == Some(i) && i < |db.runs| && j < |db.runs| && i != j && Claimable(db.runs[j], db.now)
    requires db.runs[i].status != Pending
    ensures db.runs[j].status == Failed && db.runs[i].nextRetryAt.Some? && db.runs[j].nextRetryAt.Some?
    ensures db.runs[i].nextRetryAt.value <= db.runs[j].nextRetryAt.value
    ensures db.runs[i].nextRetryAt == db.runs[j].nextRetryAt ==>
      db.runs[i].createdAt < db.runs[j].createdAt || (db.runs[i].createdAt == db.runs[j].createdAt && i < j)
  {
    assert Before(db.runs, i, j);
  }

  /** What takes a run away from its worker. */
  predicate Ends(db: Db, a: Action, i: nat)
    requires i < |db.runs|
  {
    match a
    case FailRetryable(id, _, _, _) => id == i
    case FailTerminally(id, _, _) => id == i
    case Complete(id) => id == i
    case StoreResult(id, _, _) => id == i
    case ManualProcessFailed(id) => id == i
    case CancelRun(id) => id == i
    case Update(mr, key) => mr == db.runs[i].mr
    case Close(mr) => mr == db.runs[i].mr
    case ReapStale(timeout) => db.runs[i].claimedAt.Some? && db.runs[i].claimedAt.value + timeout < db.now
    case _ => false
  }

  lemma {:induction false} HeldStep(db: Db, a: Action, i: nat, worker: string, since: int)
    requires i < |db.runs| && Held(db.runs[i], worker, since) && !Ends(db, a, i)
    ensures i < |Apply(db, a).runs| && Held(Apply(db, a).runs[i], worker, since) && Next(db) != Some(i)
  {
    RowsStay(db, a, i);
  }

  /**
    A claimed run belongs to its worker alone: until its worker reports, an
    operator or a newer head cancels it or its claim has timed out, it is running
    for that worker in every state and no other claim takes it.
   */
  lemma {:induction false} ClaimHolds(states: seq<Db>, actions: seq<Action>, i: nat, worker: string, k: nat)
    requires History(states, actions) && 0 < k < |states| && actions[0] == Claim(worker) && Next(states[0]) == Some(i)
    requires forall j :: 1 <= j < k ==> i < |states[j].runs| && !Ends(states[j], actions[j], i)
    ensures i < |states[k].runs| && Held(states[k].runs[i], worker, states[0].now) && Next(states[k]) != Some(i)
  {
    assert states[1] == Apply(states[0], actions[0]);
    ClaimMeaning(states[0], worker);
    if k > 1 {
      ClaimHolds(states, actions, i, worker, k - 1);
      assert states[k] == Apply(states[k - 1], actions[k - 1]);
      HeldStep(states[k - 1], actions[k - 1], i, worker, states[0].now);
    }
  }

  // ----- Timeouts

  /**
    The reaper takes back exactly the claims older than the timeout: such a run
    counts one more retry and is claimable from thirty seconds later, not before.
   */
  lemma {:induction false} ReapMeaning(db: Db, timeout: nat, i: nat)
    requires i < |db.runs|
    ensures
      var r, r' := db.runs[i], Apply(db, ReapStale(timeout)).runs[i];
      && |Apply(db, ReapStale(timeout)).runs| == |db.runs| && Apply(db, ReapStale(timeout)).now == db.now
      && (if r.status == Running && r.claimedAt.Some? && r.claimedAt.value + timeout < db.now
          then
            && r'.status == Failed && r'.errorCode == "worker_timeout" && r'.retryCount == r.retryCount + 1
            && (forall now: int :: Claimable(r', now) <==> db.now + 30 <= now)
          else r' == r)
  {
  }

  /** A reaped run is not claimed for thirty seconds, unless an operator retries or requeues it. */
  lemma {:induction false} ReapedRests(
      db: Db, timeout: nat, i: nat, states: seq<Db>, actions: seq<Action>, k: nat)
    requires i < |db.runs| && StaleClaim(db.runs[i], db.now, timeout)
    requires History(states, actions) && k < |states| && states[0] == Apply(db, ReapStale(timeout))
    requires states[k].now < db.now + 30 && forall j :: 0 <= j < |actions| ==> !Revives(actions[j], i)
    ensures i < |states[k].runs| && Next(states[k]) != Some(i)
  {
    ReapMeaning(db, timeout, i);
    assert Resting(states[0].runs[i], Some(db.now + 30));
    RestsOn(states, actions, i, Some(db.now + 30), k);
  }

  // ----- The end of a run

  /** The action ends the run for good: it is finished, given up, cancelled, closed or superseded. */
  predicate Finishes(db: Db, a: Action, i: nat)
    requires i < |db.runs|
  {
    match a
    case FailTerminally(id, _, _) => id == i && db.runs[i].status == Running
    case Complete(id) => id == i && db.runs[i].status == Running
    case StoreResult(id, _, _) => id == i && db.runs[i].nextRetryAt.None?
    case CancelRun(id) => id == i && Active(db.runs[i])
    case Close(mr) => mr == db.runs[i].mr && Active(db.runs[i])
    case Update(mr, key) => mr == db.runs[i].mr && Active(db.runs[i]) && !HasKey(db.runs, key)
    case _ => false
  }

  /** What a run that has ended is recorded as. */
  predicate Recorded(a: Action, r: Run) {
    match a
    case FailTerminally(_, code, count) => r.status == Failed && r.errorCode == code && r.retryCount == count
    case Complete(_) => r.status == Completed && r.errorCode == ""
    case StoreResult(_, parserError, live) =>
      && r.errorCode == "" && r.status in {ParserError, RequestedChanges, Completed}
      && (r.status == ParserError <==> parserError) && (r.status == Completed <==> !parserError && live == 0)
    case CancelRun(_) => r.status == Cancelled && r.errorCode == "cancelled_by_operator" && r.supersededBy.None?
    case Close(_) => r.status == Cancelled && r.errorCode == "" && r.supersededBy.None?
    case Update(_, _) => r.status == Cancelled && r.errorCode == "superseded_by_new_head" && r.supersededBy.Some?
    case _ => true
  }

  /**
    A run that has ended is recorded as such, is never active again and is never
    claimed again, in any history in which no operator retries or requeues it.
   */
  lemma {:induction false} EndedForGood(db: Db, a: Action, i: nat, states: seq<Db>, actions: seq<Action>, k: nat)
    requires i < |db.runs| && Finishes(db, a, i)
    requires History(states, actions) && k < |states| && states[0] == Apply(db, a)
    requires forall j :: 0 <= j < |actions| ==> !Revives(actions[j], i)
    ensures i < |states[0].runs| && Recorded(a, states[0].runs[i])
    ensures i < |states[k].runs| && !Active(states[k].runs[i]) && Next(states[k]) != Some(i)
  {
    RowsStay(db, a, i);
    assert Resting(states[0].runs[i], None);
    RestsOn(states, actions, i, None, k);
  }

  // ----- Operators

  /** Nothing changes but run i. */
  ghost predicate OnlyRun(db: Db, db': Db, i: nat)
    requires i < |db.runs|
  {
    && db'.now == db.now && |db'.runs| == |db.runs|
    && forall j: nat :: j < |db.runs| && j != i ==> db'.runs[j] == db.runs[j]
  }

  /** The run is free for any worker, now and later. */
  ghost predicate Freed(r: Run, now: int) {
    r.claimedBy == "" && r.claimedAt.None? && r.supersededBy.None? && forall t: int :: now <= t ==> Claimable(r, t)
  }

  /** An operator's retry frees a failed run that was not superseded, and does nothing else. */
  lemma {:induction false} RetryMeaning(db: Db, id: nat)
    ensures
      var db' := Apply(db, RetryRun(id));
      if id < |db.runs| && db.runs[id].status == Failed && db.runs[id].supersededBy.None?
      then OnlyRun(db, db', id) && db'.runs[id].status == Failed && Freed(db'.runs[id], db.now)
      else db' == db
  {
  }

  /** A requeue makes a cancelled or failed run pending again, unless a newer head replaced it. */
  lemma {:induction false} RequeueMeaning(db: Db, id: nat)
    ensures
      var db' := Apply(db, RequeueRun(id));
      if id < |db.runs| && db.runs[id].status in {Cancelled, Failed} && db.runs[id].supersededBy.None?
        && db.runs[id].errorCode != "superseded_by_new_head"
      then
        && OnlyRun(db, db', id) && db'.runs[id].status == Pending && db'.runs[id].nextRetryAt.None?
        && db'.runs[id].errorCode == "" && Freed(db'.runs[id], db.now)
      else db' == db
  {
  }

  /** A cancellation touches the run exactly while it is active. */
  lemma {:induction false} CancelMeaning(db: Db, id: nat)
    ensures
      var db' := Apply(db, CancelRun(id));
      if id < |db.runs| && Active(db.runs[id])
      then OnlyRun(db, db', id) && db'.runs[id].status == Cancelled && !Active(db'.runs[id])
      else db' == db
  {
  }

  /** A failed manual trigger records the failure and leaves an old retry time in place, which then counts again. */
  lemma {:induction false} ManualFailureMeaning(db: Db, id: nat)
    requires id < |db.runs|
    ensures
      var db', r := Apply(db, ManualProcessFailed(id)), db.runs[id];
      && OnlyRun(db, db', id)
      && db'.runs[id].status == Failed && db'.runs[id].errorCode == "manual_trigger_process_failed"
      && db'.runs[id].(status := r.status, errorCode := r.errorCode) == r
      && (Active(db'.runs[id]) <==> r.nextRetryAt.Some?)
  {
  }

  /** A rerun adds a run of the same merge request and retry limit, for a finished run and a new key. */
  lemma {:induction false} RerunMeaning(db: Db, id: nat, key: string)
    ensures
      var db' := Apply(db, RerunRun(id, key));
      if id < |db.runs| && db.runs[id].status in {Completed, Failed, Cancelled} && !HasKey(db.runs, key)
      then
        && db'.now == db.now && |db'.runs| == |db.runs| + 1 && db'.runs[..|db.runs|] == db.runs
        && db'.runs[|db.runs|].maxRetries == db.runs[id].maxRetries
        && Waiting(db'.runs[|db.runs|].(maxRetries := 3), db.runs[id].mr, key, db.now)
      else db' == db
  {
  }
}
