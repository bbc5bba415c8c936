/** The statements of review_findings.sql.go and the loops of dedup.go that issue them. */
module FindingStores {
  import opened Text
  import opened Findings
  import opened FindingProofs

  /** findingMatchDecision: the row that was recognised, and whether to insert and supersede. */
  datatype Decision = Decision(skipInsert: bool, supersede: Option<RowId>, existing: Option<RowId>)

  function DecisionOf(m: Match): Decision {
    match m
    case Supersede(id) => Decision(false, Some(id), Some(id))
    case Unmatched => Decision(false, None, None)
    case _ => Decision(true, None, Some(m.id))
  }

  /** The first pass: the first listed row with the candidate's anchor fingerprint. */
  method AnchorPass(snap: seq<Row>, order: seq<RowId>, c: Candidate) returns (hit: Option<RowId>)
    requires forall id :: id in order ==> id < |snap|
    ensures hit == AnchorHit(snap, order, c)
  {
    for i := 0 to |order|
      invariant AnchorHit(snap, order, c) == AnchorHit(snap, order[i..], c)
    {
      assert order[i] in order && order[i..][1..] == order[i + 1..];
      var current := snap[order[i]];
      if NeverPaired(current, c) || current.anchor != AnchorOf(c.f) {
        continue;
      }
      return Some(order[i]);
    }
    return None;
  }

  /** The second pass: the first listed row of the same meaning that this run has not seen. */
  method SemanticPass(snap: seq<Row>, order: seq<RowId>, run: RunId, c: Candidate) returns (hit: Option<RowId>)
    requires forall id :: id in order ==> id < |snap|
    ensures hit == SemanticHit(snap, order, run, c)
  {
    for i := 0 to |order|
      invariant SemanticHit(snap, order, run, c) == SemanticHit(snap, order[i..], run, c)
    {
      assert order[i] in order && order[i..][1..] == order[i + 1..];
      var current := snap[order[i]];
      if NeverPaired(current, c) || current.semantic != SemanticOf(c.f) || SeenBy(current, run) {
        continue;
      }
      return Some(order[i]);
    }
    return None;
  }

  /** The third pass: the first unseen row of the same file that the matcher calls the same. */
  method OraclePass(snap: seq<Row>, order: seq<RowId>, run: RunId, c: Candidate, same: RowId -> bool)
    returns (hit: Option<RowId>)
    requires forall id :: id in order ==> id < |snap|
    ensures hit == OracleHit(snap, order, run, c, same)
  {
    for i := 0 to |order|
      invariant OracleHit(snap, order, run, c, same) == OracleHit(snap, order[i..], run, c, same)
    {
      assert order[i] in order && order[i..][1..] == order[i + 1..];
      var current := snap[order[i]];
      if NormalizePath(current.path) != c.f.path || SeenBy(current, run) {
        continue;
      }
      if same(order[i]) {
        return Some(order[i]);
      }
    }
    return None;
  }

  /** One reported finding, already normalised. */
  method CollectOne(cs: seq<Candidate>, seen: set<AnchorPrint>, f: Finding, t: Thresholds)
    returns (cs': seq<Candidate>, seen': set<AnchorPrint>)
    requires forall a :: a in seen <==> Reports(cs, a)
    ensures cs' == AddCandidate(cs, f, t) && forall a :: a in seen' <==> Reports(cs', a)
  {
    if AnchorOf(f) in seen {
      return cs, seen;
    }
    var c := Candidate(f, Evaluate(f, t));
    forall a ensures Reports(cs + [c], a) <==> Reports(cs, a) || AnchorOf(f) == a {
      ReportsAppend(cs, c, a);
    }
    return cs + [c], seen + {AnchorOf(f)};
  }

  lemma {:induction false} DedupeStep(reported: seq<Finding>, t: Thresholds, i: nat)
    requires i < |reported|
    ensures Dedupe(Normalized(reported)[..i + 1], t)
         == AddCandidate(Dedupe(Normalized(reported)[..i], t), Normalize(reported[i]), t)
  {
    var fs := Normalized(reported);
    assert fs[..i + 1][..i] == fs[..i] && fs[..i + 1][i] == fs[i] == Normalize(reported[i]);
  }

  /** Deduplicates the reported findings of a run. */
  method CollectCandidates(reported: seq<Finding>, t: Thresholds) returns (cs: seq<Candidate>)
    ensures cs == Candidates(reported, t)
  {
    var seen: set<AnchorPrint> := {};
    cs := [];
    for i := 0 to |reported|
      invariant cs == Dedupe(Normalized(reported)[..i], t)
      invariant forall a :: a in seen <==> Reports(cs, a)
    {
      DedupeStep(reported, t, i);
      cs, seen := CollectOne(cs, seen, Normalize(reported[i]), t);
    }
    assert Normalized(reported)[..|reported|] == Normalized(reported);
  }

  /** The specification of one trip round the loop over the candidates. */
  lemma {:induction false} ReconcileStep(fr: Frame, k: nat)
    requires ValidFrame(fr) && k < |fr.cs|
    ensures Process(fr, k + 1)
         == Reconciled(Process(fr, k), fr.run, fr.mr, fr.cs[k],
                       MatchOf(fr.snap, fr.order, fr.run, fr.cs[k], OracleFor(fr.oracle, k)))
  {
    assert Planned(fr, k);
  }

  class FindingStore {
    var rows: seq<Row>

    constructor ()
      ensures rows == []
    {
      rows := [];
    }

    method InsertReviewFinding(row: Row) returns (id: RowId)
      modifies this
      ensures rows == old(rows) + [row] && id == |old(rows)|
    {
      id := |rows|;
      rows := rows + [row];
    }

    method UpdateFindingLastSeen(id: RowId, run: RunId)
      requires id < |rows|
      modifies this
      ensures rows == old(rows)[id := old(rows)[id].(lastSeen := Some(run))]
    {
      rows := rows[id := rows[id].(lastSeen := Some(run))];
    }

    method UpdateFindingState(id: RowId, state: State, matched: Option<RowId>)
      requires id < |rows|
      modifies this
      ensures rows == old(rows)[id := old(rows)[id].(state := state, matched := matched)]
    {
      rows := rows[id := rows[id].(state := state, matched := matched)];
    }

    method UpdateFindingRelocation(id: RowId, run: RunId, f: Finding)
      requires id < |rows|
      modifies this
      ensures rows == old(rows)[id := Updated(old(rows)[id], run, f, Relocate(id), 0)]
    {
      rows := rows[id := rows[id].(
        path := f.path, kind := f.kind, oldLine := f.oldLine, newLine := f.newLine, snippet := f.snippet,
        anchor := AnchorOf(f), semantic := SemanticOf(f), lastSeen := Some(run))];
    }

    /** The SELECT behind ListActiveFindingsByMR; the order of equal timestamps is by id here. */
    method ListActiveFindingsByMR(mr: int) returns (order: seq<RowId>)
      ensures Listing(rows, mr, order)
    {
      order := [];
      for i := 0 to |rows|
        invariant forall id :: id in order <==> id < i && LiveIn(rows, mr, id)
        invariant forall a :: 0 <= a < |order| ==> order[a] < i
        invariant forall a, b :: 0 <= a < b < |order| ==> order[a] < order[b]
      {
        if rows[i].mr == mr && rows[i].state in {New, Posted, Active} {
          order := order + [i];
        }
      }
    }

    /** The three passes over the stale list; only a touch or a relocation writes to the table. */
    method MatchExistingFinding(snap: seq<Row>, order: seq<RowId>, run: RunId, c: Candidate, oracle: Oracle)
      returns (decision: Decision)
      requires forall id :: id in order ==> id < |snap| <= |rows|
      modifies this
      ensures decision == DecisionOf(MatchOf(snap, order, run, c, oracle))
      ensures
        var m := MatchOf(snap, order, run, c, oracle);
        rows == if m.Touch? || m.Relocate? then old(rows)[m.id := Updated(old(rows)[m.id], run, c.f, m, 0)]
          else old(rows)
    {
      var hit := AnchorPass(snap, order, c);
      if hit.Some? {
        if !SeenBy(snap[hit.value], run) {
          UpdateFindingLastSeen(hit.value, run);
        }
        return Decision(true, None, hit);
      }
      hit := SemanticPass(snap, order, run, c);
      if hit.Some? {
        if Relocatable(snap[hit.value], c.f) {
          UpdateFindingRelocation(hit.value, run, c.f);
          return Decision(true, None, hit);
        }
        return Decision(false, hit, hit);
      }
      if oracle.Some? {
        hit := OraclePass(snap, order, run, c, oracle.value);
      }
      return Decision(false, hit, hit);
    }

    /** The body of the loop over the listed rows. */
    method RetireOne(listed: Row, id: RowId, hits: set<RowId>, scope: Scope) returns (ok: bool)
      requires id < |rows|
      modifies this
      ensures RetiredOne(Done(old(rows)), listed, id, hits, scope) == if ok then Done(rows) else Failed
    {
      if id !in hits {
        match TransitionMissing(listed, scope, id in hits) {
          case Move(next) => UpdateFindingState(id, next, None);
          case Keep =>
          case Rejected => return false;
        }
      }
      return true;
    }

    /** The loop over the listed rows that nothing was reconciled with; a rejected transition would stop it. */
    method RetireMissing(ghost fr: Frame, snap: seq<Row>, order: seq<RowId>, hits: set<RowId>, scope: Scope)
      returns (ok: bool)
      requires fr.snap == snap && fr.order == order && ValidFrame(fr)
      requires Work(rows, hits) == Process(fr, |fr.cs|)
      modifies this
      ensures ok && Persist(fr, scope) == Done(rows)
    {
      ghost var w := Work(rows, hits);
      for i := 0 to |order|
        invariant Retire(fr, scope, w, i) == Done(rows)
      {
        assert order[i] in order;
        PersistDone(fr, scope, i + 1);
        ok := RetireOne(snap[order[i]], order[i], hits, scope);
        if !ok {
          return;
        }
      }
      return true;
    }

    /** The body of the loop over the candidates. */
    method ReconcileOne(
      snap: seq<Row>, order: seq<RowId>, run: RunId, mr: int, c: Candidate, answers: Oracle, hits: set<RowId>)
      returns (hits': set<RowId>)
      requires forall id :: id in order ==> id < |snap| <= |rows|
      modifies this
      ensures Work(rows, hits') == Reconciled(Work(old(rows), hits), run, mr, c, MatchOf(snap, order, run, c, answers))
    {
      hits' := hits;
      if c.verdict == AsFiltered {
        var _ := InsertReviewFinding(NewRow(run, mr, c));
      } else if c.verdict == AsNew {
        var decision := MatchExistingFinding(snap, order, run, c, answers);
        if decision.existing.Some? {
          hits' := hits' + {decision.existing.value};
        }
        if !decision.skipInsert {
          var id := InsertReviewFinding(NewRow(run, mr, c));
          if decision.supersede.Some? {
            UpdateFindingState(decision.supersede.value, Superseded, Some(id));
          }
        }
      }
    }

    /** The loop over the candidates. */
    method ReconcileAll(ghost fr: Frame, snap: seq<Row>, order: seq<RowId>, run: RunId, mr: int, cs: seq<Candidate>,
                        oracle: Option<(nat, RowId) -> bool>) returns (hits: set<RowId>)
      requires ValidFrame(fr) && rows == snap == fr.snap && order == fr.order && run == fr.run && mr == fr.mr
      requires cs == fr.cs && oracle == fr.oracle
      modifies this
      ensures Work(rows, hits) == Process(fr, |cs|)
    {
      hits := {};
      for k := 0 to |cs|
        invariant Work(rows, hits) == Process(fr, k)
      {
        ReconcileStep(fr, k);
        hits := ReconcileOne(snap, order, run, mr, cs[k], OracleFor(oracle, k), hits);
      }
    }

    /** persistFindingsWithMatcher. */
    method PersistFindings(run: RunId, mr: int, reported: seq<Finding>, t: Thresholds, scope: Scope,
                           oracle: Option<(nat, RowId) -> bool>, order: seq<RowId>) returns (ok: bool)
      requires Listing(rows, mr, order)
      modifies this
      ensures ok && Persist(FrameFor(old(rows), order, run, mr, Candidates(reported, t), oracle), scope) == Done(rows)
    {
      var snap := rows;
      var cs := CollectCandidates(reported, t);
      ghost var fr := FrameFor(snap, order, run, mr, cs, oracle);
      var hits := ReconcileAll(fr, snap, order, run, mr, cs, oracle);
      ok := RetireMissing(fr, snap, order, hits, scope);
    }
  }
}
