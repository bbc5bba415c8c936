/** What holds of the queue of review runs in every serial history. */
module RunProofs {
  import opened Text
  import opened Runs

  /** Rows are appended, never removed, and keep their merge request, key and creation time. */
  lemma {:induction false} RowsStay(db: Db, a: Action, i: nat)
    requires i < |db.runs|
    ensures
      var db' := Apply(db, a);
      && |db.runs| <= |db'.runs|
      && db'.runs[i].mr == db.runs[i].mr
      && db'.runs[i].key == db.runs[i].key
      && db'.runs[i].createdAt == db.runs[i].createdAt
  {
  }

  /** At most one row is appended, and it is pending and unsuperseded. */
  lemma {:induction false} AppendedRun(db: Db, a: Action)
    ensures
      var db' := Apply(db, a);
      && |db.runs| <= |db'.runs| <= |db.runs| + 1
      && db.now <= db'.now
      && (|db'.runs| > |db.runs| ==>
            var r := db'.runs[|db.runs|];
            && r.status == Pending && r.nextRetryAt.None? && r.supersededBy.None?
            && r.createdAt == db.now && !HasKey(db.runs, r.key))
  {
  }

  // ----- Superseded runs stay out of the queue

  /** A superseded run is dormant, and its pointer names a newer run of the same merge request. */
  predicate Dormant(runs: seq<Run>, i: nat)
    requires i < |runs|
  {
    var r := runs[i];
    r.supersededBy.Some? ==>
      && !Active(r) && r.nextRetryAt.None?
      && i < r.supersededBy.value < |runs|
      && runs[r.supersededBy.value].mr == r.mr
  }

  predicate AllDormant(runs: seq<Run>) { forall i :: 0 <= i < |runs| ==> Dormant(runs, i) }

  lemma {:induction false} DormantStep(db: Db, a: Action, i: nat)
    requires AllDormant(db.runs) && i < |Apply(db, a).runs|
    ensures Dormant(Apply(db, a).runs, i)
    ensures i < |db.runs| && db.runs[i].supersededBy.Some? ==>
      Apply(db, a).runs[i].supersededBy == db.runs[i].supersededBy
  {
    var db' := Apply(db, a);
    if i < |db.runs| {
      assert Dormant(db.runs, i);
      RowsStay(db, a, i);
      if db.runs[i].supersededBy.Some? {
        RowsStay(db, a, db.runs[i].supersededBy.value);
      }
    } else {
      AppendedRun(db, a);
    }
  }

  lemma {:induction false} AlwaysDormant(states: seq<Db>, actions: seq<Action>, k: nat)
    requires History(states, actions) && AllDormant(states[0].runs) && k < |states|
    ensures AllDormant(states[k].runs)
  {
    if k > 0 {
      AlwaysDormant(states, actions, k - 1);
      var db, a := states[k - 1], actions[k - 1];
      assert states[k - 1 + 1] == Apply(db, a);
      forall i | 0 <= i < |states[k].runs| ensures Dormant(states[k].runs, i) {
        DormantStep(db, a, i);
      }
    }
  }

  /**
    Once a run is superseded it is never pending, running or retry-scheduled
    again, and its pointer never changes, under any interleaving of actions.
   */
  lemma {:induction false} SupersededForever(states: seq<Db>, actions: seq<Action>, k: nat, l: nat, i: nat)
    requires History(states, actions) && AllDormant(states[0].runs) && k <= l < |states|
    requires i < |states[k].runs| && states[k].runs[i].supersededBy.Some?
    ensures i < |states[l].runs|
    ensures states[l].runs[i].supersededBy == states[k].runs[i].supersededBy
    ensures !Active(states[l].runs[i])
    decreases l
  {
    AlwaysDormant(states, actions, l);
    if k < l {
      SupersededForever(states, actions, k, l - 1, i);
      AlwaysDormant(states, actions, l - 1);
      assert states[l - 1 + 1] == Apply(states[l - 1], actions[l - 1]);
      RowsStay(states[l - 1], actions[l - 1], i);
      DormantStep(states[l - 1], actions[l - 1], i);
    }
    assert Dormant(states[l].runs, i);
  }

  /** Following the pointers always ends, at an unsuperseded run of the same merge request. */
  lemma {:induction false} ChainEnds(runs: seq<Run>, i: nat) returns (last: nat)
    requires AllDormant(runs) && i < |runs|
    ensures i <= last < |runs| && runs[last].supersededBy.None? && runs[last].mr == runs[i].mr
    ensures runs[i].supersededBy.Some? ==> runs[i].supersededBy.value <= last
    decreases |runs| - i
  {
    assert Dormant(runs, i);
    if runs[i].supersededBy.None? {
      last := i;
    } else {
      last := ChainEnds(runs, runs[i].supersededBy.value);
    }
  }

  // ----- At most one active run per merge request

  predicate ActiveFor(runs: seq<Run>, mr: int, i: int) { 0 <= i < |runs| && runs[i].mr == mr && Active(runs[i]) }

  predicate OneActive(runs: seq<Run>) {
    forall i, j :: 0 <= i < j < |runs| && Active(runs[i]) && Active(runs[j]) ==> runs[i].mr != runs[j].mr
  }

  predicate Busy(runs: seq<Run>, mr: int) { exists i :: 0 <= i < |runs| && ActiveFor(runs, mr, i) }

  /** Whether the action would make a run active on a merge request that already has an active one. */
  predicate AddsSecond(db: Db, a: Action) {
    match a
    case Open(mr, key) => !HasKey(db.runs, key) && Busy(db.runs, mr)
    case RerunRun(id, key) =>
      id < |db.runs| && CanRerun(db.runs[id]) && !HasKey(db.runs, key) && Busy(db.runs, db.runs[id].mr)
    case RetryRun(id) =>
      id < |db.runs| && CanRetry(db.runs[id]) && !Active(db.runs[id]) && Busy(db.runs, db.runs[id].mr)
    case RequeueRun(id) =>
      id < |db.runs| && CanRequeue(db.runs[id]) && !Active(db.runs[id]) && Busy(db.runs, db.runs[id].mr)
    case ManualProcessFailed(id) =>
      id < |db.runs| && db.runs[id].nextRetryAt.Some? && !Active(db.runs[id]) && Busy(db.runs, db.runs[id].mr)
    case _ => false
  }

  /** The row an action may newly activate. */
  function Activated(db: Db, a: Action): nat {
    if a.RetryRun? || a.RequeueRun? || a.ManualProcessFailed? then a.id else |db.runs|
  }

  /** Every row that is active after the action was active before, or is the one the action activates. */
  lemma {:induction false} ActiveOrigin(db: Db, a: Action, i: nat)
    requires i < |Apply(db, a).runs| && Active(Apply(db, a).runs[i])
    ensures i == Activated(db, a) || (i < |db.runs| && Active(db.runs[i]))
  {
    AppendedRun(db, a);
  }

  /** A creating update leaves the new run as the only active one of its merge request. */
  lemma {:induction false} UpdateLeavesOnlyNew(db: Db, mr: int, key: string, i: nat)
    requires !HasKey(db.runs, key)
    ensures
      var runs' := Apply(db, Update(mr, key)).runs;
      && |runs'| == |db.runs| + 1
      && (ActiveFor(runs', mr, i) <==> i == |db.runs|)
      && (ActiveFor(db.runs, mr, i) ==> runs'[i].supersededBy == Some(|db.runs|) && runs'[i].status == Cancelled)
      && (i < |db.runs| && !ActiveFor(db.runs, mr, i) ==> runs'[i] == db.runs[i])
  {
  }

  /** A close leaves none, and cancels nothing else. */
  lemma {:induction false} CloseLeavesNone(db: Db, mr: int, i: nat)
    ensures
      var runs' := Apply(db, Close(mr)).runs;
      && |runs'| == |db.runs|
      && !ActiveFor(runs', mr, i)
      && (ActiveFor(db.runs, mr, i) ==> runs'[i].status == Cancelled)
      && (i < |db.runs| && !ActiveFor(db.runs, mr, i) ==> runs'[i] == db.runs[i])
  {
  }

  lemma {:induction false} SecondActive(db: Db, a: Action)
    requires AddsSecond(db, a)
    ensures !OneActive(Apply(db, a).runs)
  {
    var runs', j := Apply(db, a).runs, Activated(db, a);
    var mr := if j < |db.runs| then db.runs[j].mr else runs'[j].mr;
    assert Busy(db.runs, mr);
    var i :| 0 <= i < |db.runs| && ActiveFor(db.runs, mr, i);
    assert runs'[i] == db.runs[i] && Active(runs'[j]) && runs'[j].mr == mr;
    if i < j {
      assert Active(runs'[i]) && Active(runs'[j]);
    } else {
      assert Active(runs'[j]) && Active(runs'[i]);
    }
  }

  /** Two open events of one merge request with different keys leave two active runs. */
  lemma {:induction false} OpenTwice(mr: int, first: string, second: string, now: int)
    requires first != second
    ensures !OneActive(Apply(Apply(Db([], now), Open(mr, first)), Open(mr, second)).runs)
  {
    var db := Apply(Db([], now), Open(mr, first));
    assert ActiveFor(db.runs, mr, 0);
    SecondActive(db, Open(mr, second));
  }

  lemma {:induction false} FirstActive(db: Db, a: Action, i: nat, j: nat)
    requires OneActive(db.runs) && !AddsSecond(db, a)
    requires i < |Apply(db, a).runs| && j < |Apply(db, a).runs| && i != j
    requires Active(Apply(db, a).runs[i]) && Active(Apply(db, a).runs[j])
    ensures Apply(db, a).runs[i].mr != Apply(db, a).runs[j].mr
  {
    var runs' := Apply(db, a).runs;
    ActiveOrigin(db, a, i);
    ActiveOrigin(db, a, j);
    if runs'[i].mr == runs'[j].mr {
      if i < |db.runs| && j < |db.runs| && Active(db.runs[i]) && Active(db.runs[j]) {
        RowsStay(db, a, i);
        RowsStay(db, a, j);
        assert false;
      } else {
        var added, other := if i == Activated(db, a) then i else j, if i == Activated(db, a) then j else i;
        RowsStay(db, a, other);
        assert ActiveFor(db.runs, runs'[added].mr, other);
        if a.Update? {
          UpdateLeavesOnlyNew(db, a.mr, a.key, other);
        }
        assert false;
      }
    }
  }

  /**
    Starting from at most one active run per merge request, an action keeps it
    that way if and only if it does not activate a run beside an active one.
    Updates, closes, worker and reaper steps and result writes never do.
   */
  lemma {:induction false} OneActiveIff(db: Db, a: Action)
    requires OneActive(db.runs)
    ensures OneActive(Apply(db, a).runs) <==> !AddsSecond(db, a)
  {
    if AddsSecond(db, a) {
      SecondActive(db, a);
    } else {
      var runs' := Apply(db, a).runs;
      forall i, j | 0 <= i < j < |runs'| && Active(runs'[i]) && Active(runs'[j]) ensures runs'[i].mr != runs'[j].mr {
        ActiveOrigin(db, a, i);
        FirstActive(db, a, i, j);
      }
    }
  }

  /** The actions of webhook updates and closes, workers, the reaper and cancelling operators. */
  predicate Ordinary(a: Action) {
    a.Tick? || a.Update? || a.Close? || a.Claim? || a.ReapStale? || a.FailRetryable? || a.FailTerminally?
    || a.Complete? || a.StoreResult? || a.CancelRun?
  }

  lemma {:induction false} OneActiveAlways(states: seq<Db>, actions: seq<Action>, k: nat)
    requires History(states, actions) && OneActive(states[0].runs) && k < |states|
    requires forall j :: 0 <= j < |actions| ==> Ordinary(actions[j])
    ensures OneActive(states[k].runs)
  {
    if k > 0 {
      OneActiveAlways(states, actions, k - 1);
      assert states[k - 1 + 1] == Apply(states[k - 1], actions[k - 1]);
      OneActiveIff(states[k - 1], actions[k - 1]);
    }
  }

  predicate UniqueKeys(runs: seq<Run>) { forall i, j :: 0 <= i < j < |runs| ==> runs[i].key != runs[j].key }

  /** Idempotency keys stay unique, and an event whose key is known changes nothing. */
  lemma {:induction false} KeysStayUnique(db: Db, a: Action)
    requires UniqueKeys(db.runs)
    ensures UniqueKeys(Apply(db, a).runs)
    ensures (a.Open? || a.Update?) && HasKey(db.runs, a.key) ==> Apply(db, a) == db
  {
    var runs' := Apply(db, a).runs;
    AppendedRun(db, a);
    forall i, j | 0 <= i < j < |runs'| ensures runs'[i].key != runs'[j].key {
      RowsStay(db, a, i);
      if j < |db.runs| {
        RowsStay(db, a, j);
      }
    }
  }

  // ----- Bounded overtaking

  /** Pending runs carry no retry time, and rows are in the order of their creation. */
  predicate Orderly(db: Db) {
    && (forall i :: 0 <= i < |db.runs| ==> (db.runs[i].status == Pending ==> db.runs[i].nextRetryAt.None?))
    && (forall i, j :: 0 <= i < j < |db.runs| ==> db.runs[i].createdAt <= db.runs[j].createdAt)
    && (forall i :: 0 <= i < |db.runs| ==> db.runs[i].createdAt <= db.now)
  }

  lemma {:induction false} OrderlyRow(db: Db, a: Action, i: nat)
    requires Orderly(db) && i < |Apply(db, a).runs|
    ensures
      var r, db' := Apply(db, a).runs[i], Apply(db, a);
      && (r.status == Pending ==> r.nextRetryAt.None?) && r.createdAt <= db'.now && db.now <= db'.now
      && (if i < |db.runs| then r.createdAt == db.runs[i].createdAt else i == |db.runs| && r.createdAt == db.now)
  {
    AppendedRun(db, a);
    if i < |db.runs| {
      RowsStay(db, a, i);
    }
  }

  lemma {:induction false} OrderlyStep(db: Db, a: Action)
    requires Orderly(db)
    ensures Orderly(Apply(db, a))
  {
    OrderlyRows(db, Apply(db, a), a);
  }

  lemma {:induction false} OrderlyRows(db: Db, db': Db, a: Action)
    requires Orderly(db) && db' == Apply(db, a)
    ensures Orderly(db')
  {
    forall i | 0 <= i < |db'.runs|
      ensures db'.runs[i].status == Pending ==> db'.runs[i].nextRetryAt.None?
      ensures db'.runs[i].createdAt <= db'.now
      ensures i < |db.runs| ==> db'.runs[i].createdAt == db.runs[i].createdAt
      ensures i >= |db.runs| ==> i == |db.runs| && db'.runs[i].createdAt == db.now
    {
      OrderlyRow(db, a, i);
    }
  }

  /** The pending runs that are ahead of run i. */
  function Ahead(runs: seq<Run>, i: nat): set<nat> {
    set j: nat | j < i && j < |runs| && runs[j].status == Pending
  }

  /** A claim takes the run itself or one that is ahead of it: never a retry, never a later insert. */
  lemma {:induction false} ClaimTakesHead(db: Db, worker: string, i: nat)
    requires Orderly(db) && i < |db.runs| && db.runs[i].status == Pending
    ensures
      var next := Next(db);
      && next.Some? && db.runs[next.value].status == Pending && next.value <= i
      && Apply(db, Claim(worker)).runs[next.value].status == Running
      && Ahead(Apply(db, Claim(worker)).runs, i) == Ahead(db.runs, i) - {next.value}
  {
    assert Claimable(db.runs[i], db.now);
  }

  /** Nothing but a requeue or an insertion makes a run pending, and an insertion is behind. */
  lemma {:induction false} AheadShrinks(db: Db, a: Action, i: nat)
    requires !a.RequeueRun? && i < |db.runs|
    ensures Ahead(Apply(db, a).runs, i) <= Ahead(db.runs, i)
    ensures Apply(db, a).runs[i].status == Pending ==> db.runs[i].status == Pending
  {
  }

  function Claims(actions: seq<Action>): nat {
    if actions == [] then 0 else Claims(actions[..|actions| - 1]) + if actions[|actions| - 1].Claim? then 1 else 0
  }

  /**
    In any stretch without a requeue, a run that is still pending has seen at
    most as many claims as there were pending runs ahead of it: it leaves the
    queue within one claim more.
   */
  lemma {:induction false} BoundedOvertaking(states: seq<Db>, actions: seq<Action>, i: nat)
    requires History(states, actions) && Orderly(states[0])
    requires forall k :: 0 <= k < |actions| ==> !actions[k].RequeueRun?
    requires i < |states[0].runs| <= |states[|actions|].runs| && states[|actions|].runs[i].status == Pending
    ensures Claims(actions) + |Ahead(states[|actions|].runs, i)| <= |Ahead(states[0].runs, i)|
    decreases |actions|
  {
    if |actions| > 0 {
      var k := |actions| - 1;
      var before, a := states[k], actions[k];
      StretchKeeps(states, actions, k);
      assert states[k + 1] == Apply(before, a);
      RowsStay(before, a, i);
      AheadShrinks(before, a, i);
      BoundedOvertaking(states[..k + 1], actions[..k], i);
      if a.Claim? {
        ClaimTakesHead(before, a.worker, i);
        assert Next(before).value in Ahead(before.runs, i);
      } else {
        CardinalityMonotone(Ahead(Apply(before, a).runs, i), Ahead(before.runs, i));
      }
    }
  }

  lemma {:induction false} StretchKeeps(states: seq<Db>, actions: seq<Action>, k: nat)
    requires History(states, actions) && Orderly(states[0]) && k < |states|
    ensures Orderly(states[k]) && |states[0].runs| <= |states[k].runs|
  {
    if k > 0 {
      StretchKeeps(states, actions, k - 1);
      assert states[k - 1 + 1] == Apply(states[k - 1], actions[k - 1]);
      OrderlyStep(states[k - 1], actions[k - 1]);
      AppendedRun(states[k - 1], actions[k - 1]);
    }
  }

  lemma {:induction false} CardinalityMonotone(a: set<nat>, b: set<nat>)
    requires a <= b
    ensures |a| <= |b|
  {
    assert a + (b - a) == b;
  }

  /** How a pending run leaves the queue: claimed, cancelled or superseded, or its status overwritten. */
  lemma {:induction false} LeavesQueue(db: Db, a: Action, i: nat)
    requires Orderly(db) && i < |db.runs| && db.runs[i].status == Pending
    requires Apply(db, a).runs[i].status != Pending
    ensures
      var r' := Apply(db, a).runs[i];
      || (a.Claim? && Next(db) == Some(i) && r'.status == Running)
      || ((a.Close? || a.Update?) && a.mr == db.runs[i].mr && r'.status == Cancelled)
      || (a.CancelRun? && a.id == i && r'.status == Cancelled)
      || ((a.StoreResult? || a.ManualProcessFailed?) && a.id == i && !Active(r'))
  {
  }

  // ----- Runs that are given up, finished or waiting for a retry

  /** Neither queued nor at work, and with no retry before `until`; without a bound, with no retry at all. */
  predicate Resting(r: Run, until: Option<int>) {
    && r.status != Pending && r.status != Running
    && (r.nextRetryAt.None? || (until.Some? && r.nextRetryAt.value >= until.value))
  }

  /** An operator puts the run back. */
  predicate Revives(a: Action, id: nat) { (a.RetryRun? || a.RequeueRun?) && a.id == id }

  predicate TooEarly(db: Db, until: Option<int>) { until.None? || db.now < until.value }

  /** A resting run is not claimed before its time. */
  lemma {:induction false} RestingNotNext(db: Db, i: nat, until: Option<int>)
    requires i < |db.runs| && Resting(db.runs[i], until) && TooEarly(db, until)
    ensures Next(db) != Some(i)
  {
  }

  lemma {:induction false} RestingStep(db: Db, a: Action, i: nat, until: Option<int>)
    requires i < |db.runs| && Resting(db.runs[i], until) && TooEarly(db, until) && !Revives(a, i)
    ensures i < |Apply(db, a).runs| && Resting(Apply(db, a).runs[i], until)
  {
    RowsStay(db, a, i);
    RestingNotNext(db, i, until);
  }

  lemma {:induction false} ClockStep(db: Db, a: Action)
    ensures db.now <= Apply(db, a).now
  {
  }

  /**
    In any stretch in which no operator retries or requeues the run, and which
    ends before its time, a resting run rests in every state and no claim takes it.
   */
  lemma {:induction false} RestsOn(states: seq<Db>, actions: seq<Action>, i: nat, until: Option<int>, k: nat)
    requires History(states, actions) && k < |states| && TooEarly(states[k], until)
    requires i < |states[0].runs| && Resting(states[0].runs[i], until)
    requires forall j :: 0 <= j < |actions| ==> !Revives(actions[j], i)
    ensures i < |states[k].runs| && Resting(states[k].runs[i], until) && Next(states[k]) != Some(i)
  {
    if k > 0 {
      assert states[k] == Apply(states[k - 1], actions[k - 1]);
      ClockStep(states[k - 1], actions[k - 1]);
      RestsOn(states, actions, i, until, k - 1);
      RestingStep(states[k - 1], actions[k - 1], i, until);
    }
    RestingNotNext(states[k], i, until);
  }

  predicate IfRunning(a: Action) { a.FailRetryable? || a.FailTerminally? || a.Complete? }

  /** The guarded updates change only a running run, and only that one. */
  lemma {:induction false} GuardedUpdate(db: Db, a: Action)
    requires IfRunning(a)
    ensures a.id >= |db.runs| || db.runs[a.id].status != Running ==> Apply(db, a) == db
    ensures |Apply(db, a).runs| == |db.runs|
    ensures forall i :: 0 <= i < |db.runs| && i != a.id ==> Apply(db, a).runs[i] == db.runs[i]
  {
    if a.id < |db.runs| && db.runs[a.id].status != Running {
      assert db.runs[a.id := db.runs[a.id]] == db.runs;
    }
  }

  /**
    A run that is completed or failed for good while it is running is no longer
    active, and stays so, and is never claimed again, until an operator retries or
    requeues it.
   */
  lemma {:induction false} GivenUp(db: Db, a: Action, states: seq<Db>, actions: seq<Action>, k: nat)
    requires (a.FailTerminally? || a.Complete?) && a.id < |db.runs| && db.runs[a.id].status == Running
    requires History(states, actions) && k < |states| && states[0] == Apply(db, a)
    requires forall j :: 0 <= j < |actions| ==> !Revives(actions[j], a.id)
    ensures a.id < |states[k].runs| && !Active(states[k].runs[a.id]) && Next(states[k]) != Some(a.id)
  {
    assert Resting(states[0].runs[a.id], None);
    RestsOn(states, actions, a.id, None, k);
  }

  /** A run that failed with a retry is not claimed before the retry is due, and is claimable from then on. */
  lemma {:induction false} RetriedWhenDue(db: Db, a: Action, states: seq<Db>, actions: seq<Action>, k: nat)
    requires a.FailRetryable? && a.id < |db.runs| && db.runs[a.id].status == Running
    requires History(states, actions) && k < |states| && states[0] == Apply(db, a)
    requires forall j :: 0 <= j < |actions| ==> !Revives(actions[j], a.id)
    ensures states[k].now < a.at ==> a.id < |states[k].runs| && Next(states[k]) != Some(a.id)
    ensures forall now: int :: Claimable(states[0].runs[a.id], now) <==> a.at <= now
    ensures
      var r := states[0].runs[a.id];
      Active(r) && r.status == Failed && r.errorCode == a.code && r.retryCount == a.count
  {
    assert Resting(states[0].runs[a.id], Some(a.at));
    if states[k].now < a.at {
      RestsOn(states, actions, a.id, Some(a.at), k);
    }
  }
}
