/** What one reconciliation run, and any sequence of runs, does to the table of findings. */
module FindingProofs {
  import opened Text
  import opened Findings

  lemma {:induction false} ReportsAppend(cs: seq<Candidate>, c: Candidate, a: AnchorPrint)
    ensures Reports(cs + [c], a) <==> Reports(cs, a) || AnchorOf(c.f) == a
  {
    var longer := cs + [c];
    assert longer[|cs|] == c;
    if i :| 0 <= i < |cs| && AnchorOf(cs[i].f) == a {
      assert longer[i] == cs[i];
    }
  }

  // ----- The invariant between the stale list and the live table

  /** A row of kind "deleted" was fingerprinted as such; all rows the code writes are. */
  predicate Plain(r: Row) { r.kind == "deleted" ==> r.anchor.kind == r.kind }

  ghost predicate PlainLive(rows: seq<Row>) {
    forall i :: 0 <= i < |rows| && Live(rows[i]) ==> Plain(rows[i])
  }

  /** No two live rows of one merge request share an anchor fingerprint. */
  ghost predicate DistinctLive(rows: seq<Row>) {
    forall i, j :: 0 <= i < j < |rows| && Live(rows[i]) && Live(rows[j]) && rows[i].mr == rows[j].mr ==>
      rows[i].anchor != rows[j].anchor
  }

  ghost predicate Ready(fr: Frame) {
    ValidFrame(fr) && PlainLive(fr.snap) && DistinctLive(fr.snap)
  }

  /** The anchor belongs to one of the first n candidates that were kept as new. */
  ghost predicate Claimed(fr: Frame, n: nat, a: AnchorPrint)
    requires n <= |fr.cs|
  {
    exists k :: 0 <= k < n && fr.cs[k].verdict == AsNew && AnchorOf(fr.cs[k].f) == a
  }

  /** How a row of the table under update relates to the stale copy of it. */
  ghost predicate OldRow(fr: Frame, r: Row, i: nat)
    requires i < |fr.snap|
  {
    && r.mr == fr.snap[i].mr
    && r.run == fr.snap[i].run
    && (Live(r) ==> r.state == fr.snap[i].state)
    && (!Live(r) ==> r.state == fr.snap[i].state || (r.state == Superseded && i in fr.order))
    && (r.lastSeen == fr.snap[i].lastSeen || r.lastSeen == Some(fr.run))
    && (i !in fr.order ==> r == fr.snap[i])
  }

  /** What is known of a live row's anchor: claimed in this run, or still the listed one. */
  ghost predicate LiveRow(fr: Frame, n: nat, w: Work, i: nat)
    requires n <= |fr.cs| && i < |w.rows|
  {
    var r := w.rows[i];
    && Plain(r)
    && (Claimed(fr, n, r.anchor) || (i < |fr.snap| && r.anchor == fr.snap[i].anchor))
    && (i >= |fr.snap| || i in w.hits ==> Claimed(fr, n, r.anchor))
    && (Claimed(fr, n, r.anchor) ==> SeenBy(r, fr.run))
  }

  ghost predicate RowSound(fr: Frame, n: nat, w: Work, i: nat)
    requires n <= |fr.cs| && i < |w.rows|
  {
    && (i < |fr.snap| ==> OldRow(fr, w.rows[i], i))
    && (i >= |fr.snap| ==> w.rows[i].mr == fr.mr && w.rows[i].run == fr.run && w.rows[i].state in {New, Filtered})
    && (LiveIn(w.rows, fr.mr, i) ==> LiveRow(fr, n, w, i))
  }

  ghost predicate Sound(fr: Frame, n: nat)
    requires n <= |fr.cs|
  {
    var w := Process(fr, n);
    && (forall id :: id in w.hits ==> id in fr.order)
    && (forall i :: 0 <= i < |w.rows| ==> RowSound(fr, n, w, i))
    && DistinctIn(w.rows, fr.mr)
  }

  ghost predicate DistinctIn(rows: seq<Row>, mr: int) {
    forall i, j :: LiveIn(rows, mr, i) && LiveIn(rows, mr, j) && i != j ==> rows[i].anchor != rows[j].anchor
  }

  predicate Recognises(m: Match) { m.AlreadySeen? || m.Touch? }

  /** What a match says about the stale row. */
  lemma {:induction false} MatchFacts(fr: Frame, k: nat)
    requires ValidFrame(fr) && k < |fr.cs|
    ensures
      var m, hit := MatchAt(fr, k), AnchorHit(fr.snap, fr.order, fr.cs[k]);
      && (Recognises(m) <==> hit.Some?)
      && (Recognises(m) ==> m.id == hit.value && fr.snap[m.id].anchor == AnchorOf(fr.cs[k].f))
      && (m.AlreadySeen? ==> SeenBy(fr.snap[m.id], fr.run))
      && (!m.Unmatched? && !m.AlreadySeen? ==> !SeenBy(fr.snap[m.id], fr.run))
      && (m.Relocate? ==> Relocatable(fr.snap[m.id], fr.cs[k].f))
      && (m.Relocate? || (m.Supersede? && fr.oracle.None?) ==> fr.snap[m.id].semantic == SemanticOf(fr.cs[k].f))
  {
    assert Planned(fr, k);
  }

  /** The anchor pass misses no listed row with the candidate's anchor. */
  lemma {:induction false} AnchorPassExact(fr: Frame, k: nat)
    requires Ready(fr) && k < |fr.cs| && fr.cs[k].verdict == AsNew
    ensures
      var m := MatchAt(fr, k);
      forall id :: id in fr.order && fr.snap[id].anchor == AnchorOf(fr.cs[k].f) ==> Recognises(m) && m.id == id
  {
    var c := fr.cs[k];
    MatchFacts(fr, k);
    forall id | id in fr.order
      && fr.snap[id].anchor == AnchorOf(c.f) ensures AnchorHit(fr.snap, fr.order, c) == Some(id) {
      assert LiveIn(fr.snap, fr.mr, id);
      assert !NeverPaired(fr.snap[id], c);
      FirstFinds(fr.order, (x: RowId) => x < |fr.snap| && !NeverPaired(fr.snap[x], c)
        && fr.snap[x].anchor == AnchorOf(c.f), id);
      var hit := AnchorHit(fr.snap, fr.order, c);
      assert hit.Some? && LiveIn(fr.snap, fr.mr, hit.value);
    }
  }

  lemma {:induction false} ClaimedGrows(fr: Frame, n: nat, a: AnchorPrint)
    requires n < |fr.cs|
    ensures Claimed(fr, n + 1, a) <==> Claimed(fr, n, a) || (fr.cs[n].verdict == AsNew && AnchorOf(fr.cs[n].f) == a)
  {
  }

  lemma {:induction false} NotYetClaimed(fr: Frame, n: nat)
    requires n < |fr.cs| && DistinctAnchors(fr.cs)
    ensures !Claimed(fr, n, AnchorOf(fr.cs[n].f))
  {
  }

  /** A live row that already carries the candidate's anchor is the row the anchor pass hits. */
  lemma {:induction false} CarrierIsHit(fr: Frame, n: nat, i: nat)
    requires Ready(fr) && n < |fr.cs| && fr.cs[n].verdict == AsNew && Sound(fr, n)
    requires LiveIn(Process(fr, n).rows, fr.mr, i) && Process(fr, n).rows[i].anchor == AnchorOf(fr.cs[n].f)
    ensures Recognises(MatchAt(fr, n)) && MatchAt(fr, n).id == i
  {
    var w := Process(fr, n);
    assert RowSound(fr, n, w, i);
    NotYetClaimed(fr, n);
    assert OldRow(fr, w.rows[i], i);
    assert LiveIn(fr.snap, fr.mr, i);
    AnchorPassExact(fr, n);
  }

  /** Whether candidate n is reconciled with row i. */
  ghost predicate Hits(fr: Frame, n: nat, i: nat)
    requires n < |fr.cs|
  {
    fr.cs[n].verdict == AsNew && !MatchAt(fr, n).Unmatched? && MatchAt(fr, n).id == i
  }

  /** One step, row by row: the hit row is updated, other rows stay, at most one row is appended. */
  lemma {:induction false} StepRows(fr: Frame, n: nat)
    requires n < |fr.cs|
    ensures
      var w, w' := Process(fr, n), Process(fr, n + 1);
      && |w.rows| <= |w'.rows| <= |w.rows| + 1
      && (forall i :: 0 <= i < |w.rows| ==>
            w'.rows[i] == if Hits(fr, n, i) then Updated(w.rows[i], fr.run, fr.cs[n].f, MatchAt(fr, n), |w.rows|)
                          else w.rows[i])
      && (forall i :: |w.rows| <= i < |w'.rows| ==>
            w'.rows[i] == NewRow(fr.run, fr.mr, fr.cs[n]) && fr.cs[n].verdict != AsDeleted)
      && (forall i :: i in w'.hits <==> i in w.hits || Hits(fr, n, i))
      && (|w.rows| < |w'.rows| <==>
        fr.cs[n].verdict == AsFiltered || (fr.cs[n].verdict == AsNew && Inserts(MatchAt(fr, n))))
  {
  }

  lemma {:induction false} RowStep(fr: Frame, n: nat, i: nat)
    requires Ready(fr) && n < |fr.cs| && Sound(fr, n) && i < |Process(fr, n + 1).rows|
    ensures RowSound(fr, n + 1, Process(fr, n + 1), i)
  {
    var w, w' := Process(fr, n), Process(fr, n + 1);
    StepRows(fr, n);
    ClaimedGrows(fr, n, w'.rows[i].anchor);
    if i < |w.rows| {
      assert RowSound(fr, n, w, i);
      if Hits(fr, n, i) {
        HitRowStep(fr, n, i);
      } else if LiveIn(w.rows, fr.mr, i) && fr.cs[n].verdict == AsNew && w.rows[i].anchor == AnchorOf(fr.cs[n].f) {
        CarrierIsHit(fr, n, i);
      }
    }
  }

  lemma {:induction false} HitRowStep(fr: Frame, n: nat, i: nat)
    requires Ready(fr) && n < |fr.cs| && Sound(fr, n) && Hits(fr, n, i)
    ensures RowSound(fr, n + 1, Process(fr, n + 1), i)
  {
    var w, w' := Process(fr, n), Process(fr, n + 1);
    StepRows(fr, n);
    assert RowSound(fr, n, w, i);
    MatchFacts(fr, n);
    ClaimedGrows(fr, n, w'.rows[i].anchor);
    assert OldRow(fr, w'.rows[i], i);
  }

  lemma {:induction false} ProcessSound(fr: Frame, n: nat)
    requires Ready(fr) && n <= |fr.cs|
    ensures Sound(fr, n)
  {
    if n > 0 {
      ProcessSound(fr, n - 1);
      var w, w' := Process(fr, n - 1), Process(fr, n);
      forall i | 0 <= i < |w'.rows| ensures RowSound(fr, n, w', i) {
        RowStep(fr, n - 1, i);
      }
      forall i, j | LiveIn(w'.rows, fr.mr, i) && LiveIn(w'.rows, fr.mr, j) && i != j
        ensures w'.rows[i].anchor != w'.rows[j].anchor
      {
        DistinctStep(fr, n - 1, i, j);
      }
    }
  }

  lemma {:induction false} DistinctStep(fr: Frame, n: nat, i: nat, j: nat)
    requires Ready(fr) && n < |fr.cs| && Sound(fr, n)
    requires LiveIn(Process(fr, n + 1).rows, fr.mr, i) && LiveIn(Process(fr, n + 1).rows, fr.mr, j) && i != j
    ensures Process(fr, n + 1).rows[i].anchor != Process(fr, n + 1).rows[j].anchor
  {
    var w, w' := Process(fr, n), Process(fr, n + 1);
    var c := fr.cs[n];
    if w'.rows[i].anchor == w'.rows[j].anchor {
      if c.verdict == AsNew {
        if i < |w.rows| && w.rows[i] == w'.rows[i] && w.rows[i].anchor == AnchorOf(c.f) {
          CarrierIsHit(fr, n, i);
        }
        if j < |w.rows| && w.rows[j] == w'.rows[j] && w.rows[j].anchor == AnchorOf(c.f) {
          CarrierIsHit(fr, n, j);
        }
      }
    }
  }

  // ----- The fate of every listed row

  predicate InScope(r: Row, s: Scope) {
    || NormalizePath(r.path) in s.reviewed
    || (NormalizePath(r.path) in s.deleted && NormalizeKind(r.kind) == "old_line")
  }

  function Retired(r: Row, s: Scope): Row {
    if InScope(r, s) then r.(state := Fixed, matched := None)
    else if EmptyScope(s) then r
    else r.(state := Stale, matched := None)
  }

  ghost predicate EverHit(fr: Frame, n: nat, i: nat)
    requires n <= |fr.cs|
  {
    exists k :: 0 <= k < n && Hits(fr, k, i)
  }

  ghost predicate Displaced(fr: Frame, n: nat, i: nat)
    requires n <= |fr.cs|
  {
    exists k :: 0 <= k < n && Hits(fr, k, i) && MatchAt(fr, k).Supersede?
  }

  /** The rows appended for the first n candidates. */
  function Appended(fr: Frame, n: nat): seq<Row>
    requires n <= |fr.cs|
  {
    if n == 0 then []
    else
      var c := fr.cs[n - 1];
      Appended(fr, n - 1)
      + if c.verdict == AsFiltered || (c.verdict == AsNew && Inserts(MatchAt(fr, n - 1)))
        then [NewRow(fr.run, fr.mr, c)] else []
  }

  lemma {:induction false} AppendedRows(fr: Frame, n: nat)
    requires n <= |fr.cs|
    ensures Process(fr, n).rows[|fr.snap|..] == Appended(fr, n)
  {
    if n > 0 {
      AppendedRows(fr, n - 1);
      StepRows(fr, n - 1);
      var w, w' := Process(fr, n - 1), Process(fr, n);
      assert w'.rows[|fr.snap|..] == w.rows[|fr.snap|..] + w'.rows[|w.rows|..];
    }
  }

  /** A row that existed before is hit only if it was listed, and changes only if it is hit. */
  lemma {:induction false} ProcessHits(fr: Frame, n: nat, i: nat)
    requires n <= |fr.cs| && i < |fr.snap|
    ensures
      var w := Process(fr, n);
      && (i in w.hits <==> EverHit(fr, n, i))
      && (i in w.hits ==> i in fr.order)
      && (i !in w.hits ==> w.rows[i] == fr.snap[i])
  {
    if n > 0 {
      ProcessHits(fr, n - 1, i);
      StepRow(fr, n - 1, i);
      HitGrows(fr, n - 1, i);
    }
  }

  /** During the pass over the candidates the state changes only by being superseded. */
  lemma {:induction false} ProcessState(fr: Frame, n: nat, i: nat)
    requires n <= |fr.cs| && i < |fr.snap|
    ensures Process(fr, n).rows[i].mr == fr.snap[i].mr
    ensures Process(fr, n).rows[i].state == if Displaced(fr, n, i) then Superseded else fr.snap[i].state
  {
    if n > 0 {
      ProcessState(fr, n - 1, i);
      StepRow(fr, n - 1, i);
      HitGrows(fr, n - 1, i);
    }
  }

  lemma {:induction false} StepRow(fr: Frame, n: nat, i: nat)
    requires n < |fr.cs| && i < |Process(fr, n).rows|
    ensures
      var w, w' := Process(fr, n), Process(fr, n + 1);
      && i < |w'.rows|
      && w'.rows[i] == (if Hits(fr, n, i) then Updated(w.rows[i], fr.run, fr.cs[n].f, MatchAt(fr, n), |w.rows|)
                        else w.rows[i])
      && (i in w'.hits <==> i in w.hits || Hits(fr, n, i))
  {
  }

  lemma {:induction false} AppendedRow(fr: Frame, n: nat, i: nat)
    requires n < |fr.cs| && |Process(fr, n).rows| <= i < |Process(fr, n + 1).rows|
    ensures i == |Process(fr, n).rows| && Process(fr, n + 1).rows[i] == NewRow(fr.run, fr.mr, fr.cs[n])
    ensures fr.cs[n].verdict == AsFiltered || (fr.cs[n].verdict == AsNew && Inserts(MatchAt(fr, n)))
  {
  }

  lemma {:induction false} HitGrows(fr: Frame, n: nat, i: nat)
    requires n < |fr.cs|
    ensures EverHit(fr, n + 1, i) <==> EverHit(fr, n, i) || Hits(fr, n, i)
    ensures Displaced(fr, n + 1, i) <==> Displaced(fr, n, i) || (Hits(fr, n, i) && MatchAt(fr, n).Supersede?)
  {
  }

  lemma {:induction false} MissingTransition(r: Row, s: Scope)
    requires Live(r)
    ensures TransitionMissing(r, s, false)
         == if Retired(r, s).state == r.state then Keep else Move(Retired(r, s).state)
  {
  }

  /** One trip round the retiring loop, on a row that is still as it was listed. */
  lemma {:induction false} RetiredOneRow(rows: seq<Row>, listed: Row, id: RowId, hits: set<RowId>, s: Scope, i: nat)
    requires id < |rows| && i < |rows| && Live(listed) && (id !in hits ==> rows[id] == listed)
    ensures
      var o := RetiredOne(Done(rows), listed, id, hits, s);
      o.Done? && o.rows[i] == if i == id && id !in hits then Retired(rows[i], s) else rows[i]
  {
    MissingTransition(listed, s);
  }

  lemma {:induction false} ListedOnce(fr: Frame, n: nat, i: nat)
    requires ValidFrame(fr) && n < |fr.order|
    ensures fr.order[n] !in fr.order[..n] && (i in fr.order[..n + 1] <==> i in fr.order[..n] || i == fr.order[n])
  {
    assert fr.order[..n + 1] == fr.order[..n] + [fr.order[n]];
  }

  /** The retiring loop never meets a forbidden transition and touches exactly the rows without a hit. */
  lemma {:induction false} RetireRow(fr: Frame, s: Scope, n: nat, i: nat)
    requires ValidFrame(fr) && n <= |fr.order| && i < |Process(fr, |fr.cs|).rows|
    ensures
      var w := Process(fr, |fr.cs|);
      var o := Retire(fr, s, w, n);
      o.Done? && o.rows[i] == if i in fr.order[..n] && i !in w.hits then Retired(w.rows[i], s) else w.rows[i]
  {
    if n > 0 {
      var w, id := Process(fr, |fr.cs|), fr.order[n - 1];
      assert id in fr.order;
      assert LiveIn(fr.snap, fr.mr, id);
      ListedOnce(fr, n - 1, i);
      RetireRow(fr, s, n - 1, i);
      RetireRow(fr, s, n - 1, id);
      ProcessHits(fr, |fr.cs|, id);
      RetiredOneRow(Retire(fr, s, w, n - 1).rows, fr.snap[id], id, w.hits, s, i);
    }
  }

  /** One row of the table after the run. */
  lemma {:induction false} PersistRow(fr: Frame, s: Scope, i: nat)
    requires ValidFrame(fr) && i < |Process(fr, |fr.cs|).rows|
    ensures
      var w := Process(fr, |fr.cs|);
      && Persist(fr, s).Done?
      && Persist(fr, s).rows[i] == if i in fr.order && i !in w.hits then Retired(w.rows[i], s) else w.rows[i]
  {
    RetireRow(fr, s, |fr.order|, i);
    assert fr.order[..|fr.order|] == fr.order;
  }

  lemma {:induction false} PersistDone(fr: Frame, s: Scope, n: nat)
    requires ValidFrame(fr) && n <= |fr.order|
    ensures Retire(fr, s, Process(fr, |fr.cs|), n).Done?
  {
    if n > 0 {
      assert fr.order[n - 1] in fr.order;
      RetireRow(fr, s, n, fr.order[n - 1]);
    }
  }

  /** The state a formerly live row ends in, and that it got there by an allowed transition. */
  ghost predicate Fate(fr: Frame, s: Scope, rows': seq<Row>, i: nat) {
    && i < |fr.snap| && i < |rows'|
    && rows'[i].mr == fr.mr
    && (rows'[i].state == fr.snap[i].state || rows'[i].state in AllowedFrom(fr.snap[i].state))
    && rows'[i].state ==
         if Displaced(fr, |fr.cs|, i) then Superseded
         else if EverHit(fr, |fr.cs|, i) then fr.snap[i].state
         else if InScope(fr.snap[i], s) then Fixed
         else if EmptyScope(s) then fr.snap[i].state
         else Stale
  }

  /**
    The live rows after a run are those appended as new, those hit and not
    superseded, and, only when nothing was reviewed, those not hit.  Every other
    formerly live row is fixed when its path is in the reviewed scope and stale
    otherwise.  Every change of state is an allowed transition and the run never fails.
   */
  lemma {:induction false} RunFates(fr: Frame, s: Scope)
    requires ValidFrame(fr)
    ensures Persist(fr, s).Done?
    ensures
      var rows', n := Persist(fr, s).rows, |fr.cs|;
      && rows'[|fr.snap|..] == Appended(fr, n)
      && (forall i :: 0 <= i < |fr.snap| && !LiveIn(fr.snap, fr.mr, i) ==> rows'[i] == fr.snap[i])
      && (forall i :: LiveIn(fr.snap, fr.mr, i) ==> Fate(fr, s, rows', i))
  {
    PersistDone(fr, s, |fr.order|);
    AppendedRows(fr, |fr.cs|);
    var w, rows' := Process(fr, |fr.cs|), Persist(fr, s).rows;
    forall i | 0 <= i < |w.rows|
      ensures i >= |fr.snap| ==> rows'[i] == w.rows[i]
      ensures i < |fr.snap| && !LiveIn(fr.snap, fr.mr, i) ==> rows'[i] == fr.snap[i]
    {
      PersistRow(fr, s, i);
      if i < |fr.snap| {
        ProcessHits(fr, |fr.cs|, i);
      }
    }
    assert rows'[|fr.snap|..] == w.rows[|fr.snap|..];
    forall i | LiveIn(fr.snap, fr.mr, i) ensures Fate(fr, s, rows', i) {
      PersistRow(fr, s, i);
      ProcessHits(fr, |fr.cs|, i);
      ProcessState(fr, |fr.cs|, i);
    }
  }

  // ----- No two live rows ever share an anchor

  /** A row that is live after the run was live after the candidates, with the same anchor. */
  lemma {:induction false} LiveRowKept(fr: Frame, s: Scope, i: nat)
    requires Ready(fr) && Persist(fr, s).Done? && i < |Persist(fr, s).rows| && Live(Persist(fr, s).rows[i])
    ensures
      var r, r' := Process(fr, |fr.cs|).rows[i], Persist(fr, s).rows[i];
      && Live(r) && r'.mr == r.mr && r'.anchor == r.anchor && Plain(r')
      && (r'.mr != fr.mr ==> i < |fr.snap| && r == fr.snap[i])
  {
    ProcessSound(fr, |fr.cs|);
    PersistRow(fr, s, i);
    assert RowSound(fr, |fr.cs|, Process(fr, |fr.cs|), i);
  }

  lemma {:induction false} LiveRowsDiffer(fr: Frame, s: Scope, i: nat, j: nat)
    requires Ready(fr) && Persist(fr, s).Done? && i < j < |Persist(fr, s).rows|
    requires Live(Persist(fr, s).rows[i]) && Live(Persist(fr, s).rows[j])
    requires Persist(fr, s).rows[i].mr == Persist(fr, s).rows[j].mr
    ensures Persist(fr, s).rows[i].anchor != Persist(fr, s).rows[j].anchor
  {
    LiveRowKept(fr, s, i);
    LiveRowKept(fr, s, j);
    if Persist(fr, s).rows[i].mr == fr.mr {
      ProcessSound(fr, |fr.cs|);
      var rows := Process(fr, |fr.cs|).rows;
      assert LiveIn(rows, fr.mr, i) && LiveIn(rows, fr.mr, j);
    }
  }

  lemma {:induction false} RunKeepsDistinct(fr: Frame, s: Scope)
    requires Ready(fr)
    ensures Persist(fr, s).Done?
    ensures DistinctLive(Persist(fr, s).rows) && PlainLive(Persist(fr, s).rows)
  {
    PersistDone(fr, s, |fr.order|);
    var rows' := Persist(fr, s).rows;
    forall i | 0 <= i < |rows'| && Live(rows'[i]) ensures Plain(rows'[i]) {
      LiveRowKept(fr, s, i);
    }
    forall i, j | 0 <= i < j < |rows'| && Live(rows'[i]) && Live(rows'[j]) && rows'[i].mr == rows'[j].mr
      ensures rows'[i].anchor != rows'[j].anchor
    {
      LiveRowsDiffer(fr, s, i, j);
    }
  }

  /** What may happen to the table between two observations of it. */
  datatype Event =
    | Reviewed(run: RunId, mr: int, order: seq<RowId>, reported: seq<Finding>, thresholds: Thresholds,
               oracle: Option<(nat, RowId) -> bool>, scope: Scope)
    | Edited

  function FrameOf(rows: seq<Row>, e: Event): Frame
    requires e.Reviewed?
  {
    FrameFor(rows, e.order, e.run, e.mr, Candidates(e.reported, e.thresholds), e.oracle)
  }

  /** A run on any merge request, or a change of states outside a run that revives no row. */
  ghost predicate Follows(rows: seq<Row>, e: Event, rows': seq<Row>) {
    match e
    case Reviewed(_, mr, order, _, _, _, scope) =>
      Listing(rows, mr, order) && Persist(FrameOf(rows, e), scope) == Done(rows')
    case Edited =>
      && |rows'| == |rows|
      && forall i :: 0 <= i < |rows| ==>
           && rows'[i] == rows[i].(state := rows'[i].state, matched := rows'[i].matched)
           && (Live(rows'[i]) ==> Live(rows[i]))
  }

  ghost predicate History(tables: seq<seq<Row>>, events: seq<Event>) {
    |tables| == |events| + 1 && forall k :: 0 <= k < |events| ==> StepAt(tables, events, k)
  }

  ghost predicate StepAt(tables: seq<seq<Row>>, events: seq<Event>, k: nat)
    requires k < |events| && |tables| == |events| + 1
  {
    Follows(tables[k], events[k], tables[k + 1])
  }

  lemma {:induction false} FrameValid(rows: seq<Row>, e: Event)
    requires e.Reviewed? && Listing(rows, e.mr, e.order)
    ensures ValidFrame(FrameOf(rows, e))
  {
  }

  lemma {:induction false} EditKeepsDistinct(rows: seq<Row>, rows': seq<Row>)
    requires Follows(rows, Edited, rows') && DistinctLive(rows) && PlainLive(rows)
    ensures DistinctLive(rows') && PlainLive(rows')
  {
  }

  lemma {:induction false} EventKeepsDistinct(rows: seq<Row>, e: Event, rows': seq<Row>)
    requires Follows(rows, e, rows') && DistinctLive(rows) && PlainLive(rows)
    ensures DistinctLive(rows') && PlainLive(rows')
  {
    if e.Reviewed? {
      FrameValid(rows, e);
      RunKeepsDistinct(FrameOf(rows, e), e.scope);
    } else {
      EditKeepsDistinct(rows, rows');
    }
  }

  lemma {:induction false} TableStep(tables: seq<seq<Row>>, events: seq<Event>, k: nat)
    requires History(tables, events) && k < |events| && DistinctLive(tables[k]) && PlainLive(tables[k])
    ensures DistinctLive(tables[k + 1]) && PlainLive(tables[k + 1])
  {
    assert StepAt(tables, events, k);
    EventKeepsDistinct(tables[k], events[k], tables[k + 1]);
  }

  /** Over any sequence of runs, with any matcher answers, live anchors stay distinct. */
  lemma {:induction false} AnchorsStayDistinct(tables: seq<seq<Row>>, events: seq<Event>, k: nat)
    requires History(tables, events) && DistinctLive(tables[0]) && PlainLive(tables[0])
    requires k < |tables|
    ensures DistinctLive(tables[k]) && PlainLive(tables[k])
  {
    if k > 0 {
      AnchorsStayDistinct(tables, events, k - 1);
      TableStep(tables, events, k - 1);
    }
  }
}
