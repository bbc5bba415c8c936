/**
  Webhook intake (internal/hooks/handler.go over internal/db/tx.go): the
  delivery-key lookup and the transaction that inserts the hook row and
  processes the event, for any number of requests in flight.
 */
module Webhooks {
  import opened Text
  import opened Runs
  import opened RunStores

  /** A normalised merge-request delivery. */
  datatype Delivery = Delivery(key: string, action: string, mr: int, runKey: string)

  datatype Tables = Tables(hooks: seq<string>, db: Db)

  function Effect(d: Delivery): Action { EventAction(d.action, d.mr, d.runKey) }

  /** The committed effect of one delivery on both tables. */
  function Commit(t: Tables, d: Delivery): Tables { Tables(t.hooks + [d.key], Apply(t.db, Effect(d))) }

  // ----- The protocol

  datatype Reply = Duplicate | Accepted | ServerError

  /** What is serialised in the store: a committed delivery, or another transaction on the runs. */
  datatype Entry = Delivered(d: Delivery) | Other(a: Action)

  datatype Server = Server(tables: Tables, inFlight: map<nat, Delivery>, replies: map<nat, (Delivery, Reply)>,
    log: seq<Entry>)

  datatype Event =
    | Arrive(request: nat, d: Delivery, lookupFails: bool)   // step 3: the lookup outside the transaction
    | Transact(request: nat, aborts: bool)                   // step 6: insert and process, or roll back
    | Background(a: Action)                                  // workers, the reaper, operators

  function Step(s: Server, e: Event): Server {
    match e
    case Arrive(request, d, lookupFails) =>
      if request in s.inFlight || request in s.replies then s
      else if !lookupFails && d.key in s.tables.hooks then s.(replies := s.replies[request := (d, Duplicate)])
      else s.(inFlight := s.inFlight[request := d])
    case Transact(request, aborts) =>
      if request !in s.inFlight then s
      else
        var d := s.inFlight[request];
        var s' := s.(inFlight := s.inFlight - {request});
        if d.key in s.tables.hooks then s'.(replies := s.replies[request := (d, Duplicate)])
        else if aborts then s'.(replies := s.replies[request := (d, ServerError)])
        else s'.(
          tables := Commit(s.tables, d), replies := s.replies[request := (d, Accepted)], log := s.log + [Delivered(d)])
    case Background(a) => s.(tables := s.tables.(db := Apply(s.tables.db, a)), log := s.log + [Other(a)])
  }

  function Run(s: Server, events: seq<Event>): Server {
    if events == [] then s else Step(Run(s, events[..|events| - 1]), events[|events| - 1])
  }

  /** The tables that result from the log alone, each entry applied once and in order. */
  function Replay(t: Tables, log: seq<Entry>): Tables {
    if log == [] then t
    else
      var before := Replay(t, log[..|log| - 1]);
      match log[|log| - 1]
      case Delivered(d) => Commit(before, d)
      case Other(a) => before.(db := Apply(before.db, a))
  }

  function Keys(log: seq<Entry>): seq<string> {
    if log == [] then []
    else
      var e := log[|log| - 1];
      Keys(log[..|log| - 1]) + if e.Delivered? then [e.d.key] else []
  }

  predicate Distinct(keys: seq<string>) { forall i, j :: 0 <= i < j < |keys| ==> keys[i] != keys[j] }

  /**
    One hook row per key, the tables are the replayed log, every acknowledged
    delivery is committed, and an answered request is no longer in flight.
   */
  ghost predicate Consistent(t: Tables, s: Server) {
    && s.tables == Replay(t, s.log)
    && s.tables.hooks == t.hooks + Keys(s.log)
    && Distinct(s.tables.hooks)
    && (forall r :: r in s.replies && s.replies[r].1 != ServerError ==> s.replies[r].0.key in s.tables.hooks)
    && (forall r :: r in s.replies ==> r !in s.inFlight)
  }

  function Idle(t: Tables): Server { Server(t, map[], map[], []) }

  lemma {:induction false} StepConsistent(t: Tables, s: Server, e: Event)
    requires Consistent(t, s)
    ensures Consistent(t, Step(s, e))
    ensures s.tables.hooks <= Step(s, e).tables.hooks
  {
    var s' := Step(s, e);
    if s'.log != s.log {
      assert s'.log[..|s.log|] == s.log;
    }
  }

  /**
    Over any interleaving of deliveries, redeliveries, aborted transactions and
    other work, there is at most one hook row per delivery key and the tables
    equal applying each committed delivery once in commit order.
   */
  lemma {:induction false} IntakeExactlyOnce(t: Tables, events: seq<Event>)
    requires Distinct(t.hooks)
    ensures Consistent(t, Run(Idle(t), events))
  {
    if events != [] {
      IntakeExactlyOnce(t, events[..|events| - 1]);
      StepConsistent(t, Run(Idle(t), events[..|events| - 1]), events[|events| - 1]);
    }
  }

  predicate Handles(e: Event, request: nat) { e.Transact? && e.request == request }

  /** Replies are never taken back, and a request stays in flight until its own transaction. */
  lemma {:induction false} StepKeepsRequest(t: Tables, s: Server, e: Event, r: nat)
    requires Consistent(t, s)
    ensures r in s.replies ==> r in Step(s, e).replies && Step(s, e).replies[r] == s.replies[r]
    ensures r in s.inFlight && !Handles(e, r) ==> r in Step(s, e).inFlight && Step(s, e).inFlight[r] == s.inFlight[r]
  {
  }

  lemma {:induction false} RunKeepsRequest(t: Tables, s: Server, events: seq<Event>, r: nat)
    requires Consistent(t, s)
    ensures Consistent(t, Run(s, events)) && s.tables.hooks <= Run(s, events).tables.hooks
    ensures r in s.replies ==> r in Run(s, events).replies && Run(s, events).replies[r] == s.replies[r]
    ensures r in s.inFlight && (forall i :: 0 <= i < |events| ==> !Handles(events[i], r)) ==>
      r in Run(s, events).inFlight && Run(s, events).inFlight[r] == s.inFlight[r]
  {
    if events != [] {
      var before, e := events[..|events| - 1], events[|events| - 1];
      RunKeepsRequest(t, s, before, r);
      StepConsistent(t, Run(s, before), e);
      StepKeepsRequest(t, Run(s, before), e, r);
      assert forall i :: 0 <= i < |before| ==> before[i] == events[i];
    }
  }

  /** An aborted transaction leaves nothing but the answer. */
  lemma {:induction false} AbortLeavesNothing(t: Tables, s: Server, d: Delivery, r: nat)
    requires Consistent(t, s) && r in s.inFlight && s.inFlight[r] == d && d.key !in s.tables.hooks
    ensures
      var failed := Step(s, Transact(r, true));
      failed.tables == s.tables && failed.log == s.log && r in failed.replies && failed.replies[r] == (d, ServerError)
  {
  }

  /** How a request with the delivery ends when its transaction does not abort. */
  lemma {:induction false} Answered(t: Tables, s: Server, d: Delivery, r: nat)
    requires Consistent(t, s) && r in s.inFlight && s.inFlight[r] == d
    ensures
      var s', known := Step(s, Transact(r, false)), d.key in s.tables.hooks;
      && r in s'.replies && s'.replies[r] == (d, if known then Duplicate else Accepted)
      && s'.tables == if known then s.tables else Commit(s.tables, d)
  {
  }

  /**
    A failed delivery leaves nothing that would block its retry.  Whatever
    happens before the retry arrives and while it is in flight, the retry is
    answered as committed: applied then and there unless the key was committed in
    the meantime, and only in that case a duplicate.
   */
  lemma {:induction false} RetryAfterAbort(
    t: Tables, s: Server, d: Delivery, first: nat, between: seq<Event>, retry: nat, lookupFails: bool,
      during: seq<Event>)
    requires Consistent(t, s) && first in s.inFlight && s.inFlight[first] == d && d.key !in s.tables.hooks
    requires
      var before := Run(Step(s, Transact(first, true)), between);
      retry !in before.inFlight && retry !in before.replies
    requires forall i :: 0 <= i < |during| ==> !Handles(during[i], retry)
    ensures
      var failed := Step(s, Transact(first, true));
      var before := Run(failed, between);
      var later := Run(Step(before, Arrive(retry, d, lookupFails)), during);
      var done := Step(later, Transact(retry, false));
      && failed.tables == s.tables && failed.log == s.log
      && first in failed.replies && failed.replies[first] == (d, ServerError)
      && Consistent(t, done) && d.key in done.tables.hooks
      && retry in done.replies && done.replies[retry].0 == d
      && done.replies[retry].1 == (if d.key in later.tables.hooks then Duplicate else Accepted)
      && done.tables == if d.key in later.tables.hooks then later.tables else Commit(later.tables, d)
  {
    var failed := Step(s, Transact(first, true));
    AbortLeavesNothing(t, s, d, first);
    StepConsistent(t, s, Transact(first, true));
    RunKeepsRequest(t, failed, between, retry);
    var before := Run(failed, between);
    var arrived := Step(before, Arrive(retry, d, lookupFails));
    StepConsistent(t, before, Arrive(retry, d, lookupFails));
    RunKeepsRequest(t, arrived, during, retry);
    var later := Run(arrived, during);
    StepConsistent(t, later, Transact(retry, false));
    if retry in arrived.inFlight {
      Answered(t, later, d, retry);
    }
  }

  /** What the log did to the runs, in order. */
  function LogActions(log: seq<Entry>): (actions: seq<Action>)
    ensures |actions| == |log|
  {
    seq(|log|, i requires 0 <= i < |log| => if log[i].Delivered? then Effect(log[i].d) else log[i].a)
  }

  lemma {:induction false} ReplayIsHistory(t: Tables, log: seq<Entry>) returns (states: seq<Db>)
    ensures History(states, LogActions(log)) && states[0] == t.db && states[|log|] == Replay(t, log).db
  {
    if log == [] {
      states := [t.db];
    } else {
      var before := log[..|log| - 1];
      var so := ReplayIsHistory(t, before);
      states := so + [Replay(t, log).db];
      forall k | 0 <= k < |log| ensures states[k + 1] == Apply(states[k], LogActions(log)[k]) {
        if k < |before| {
          assert so[k + 1] == Apply(so[k], LogActions(before)[k]) && log[k] == before[k];
        }
      }
    }
  }

  /**
    The runs of the server, after any events, are those of a serial history
    that performs each committed delivery and each other transaction once: what
    holds in every history of runs holds in the server.
   */
  lemma {:induction false} ServedHistory(t: Tables, events: seq<Event>) returns (states: seq<Db>)
    requires Distinct(t.hooks)
    ensures
      var s := Run(Idle(t), events);
      History(states, LogActions(s.log)) && states[0] == t.db && states[|s.log|] == s.tables.db
  {
    IntakeExactlyOnce(t, events);
    states := ReplayIsHistory(t, Run(Idle(t), events).log);
  }

  /**
    A delivery that was acknowledged once is answered as a duplicate whenever it
    arrives again, and changes nothing: at once if the lookup works, and
    otherwise when its transaction finds the row.
   */
  lemma {:induction false} RedeliveryIsDuplicate(
    t: Tables, s: Server, first: nat, between: seq<Event>, again: nat, d: Delivery, lookupFails: bool)
    requires Consistent(t, s) && first in s.replies && s.replies[first].1 != ServerError
    requires d.key == s.replies[first].0.key
    requires again !in Run(s, between).inFlight && again !in Run(s, between).replies
    ensures
      var before := Run(s, between);
      var arrived := Step(before, Arrive(again, d, lookupFails));
      var done := if lookupFails then Step(arrived, Transact(again, false)) else arrived;
      && again in done.replies && done.replies[again] == (d, Duplicate)
      && done.tables == before.tables && done.log == before.log && again !in done.inFlight
  {
    RunKeepsRequest(t, s, between, first);
    assert s.replies[first].0.key in s.tables.hooks;
  }

  // ----- The transaction

  /** RunTxWithStore around the intake: all statements commit together or none does. */
  class Intake {
    var hooks: seq<string>
    const store: RunStore

    ghost function Model(): Tables
      reads this, store
    {
      Tables(hooks, store.Model())
    }

    constructor (s: RunStore)
      ensures store == s && hooks == []
    {
      store := s;
      hooks := [];
    }

    /** `fault` is the number of statements that succeed before the database fails, if it does. */
    method Transact(d: Delivery, fault: Option<nat>) returns (reply: Reply)
      modifies this, store
      ensures d.key in old(hooks) ==> Model() == old(Model()) && reply != Accepted
      ensures d.key !in old(hooks) ==> Model() == if reply == Accepted then Commit(old(Model()), d) else old(Model())
      ensures fault.None? ==> reply == if d.key in old(hooks) then Duplicate else Accepted
      ensures reply == Duplicate ==> d.key in hooks
    {
      if fault == Some(0) {
        return ServerError;
      }
      if d.key in hooks {
        return Duplicate;
      }
      var savedHooks, savedRuns := hooks, store.runs;
      hooks := hooks + [d.key];
      var ok := store.ProcessEvent(d.action, d.mr, d.runKey, if fault.None? then None else Some(fault.value - 1));
      if !ok {
        hooks := savedHooks;
        store.runs := savedRuns;
        return ServerError;
      }
      return Accepted;
    }
  }
}
