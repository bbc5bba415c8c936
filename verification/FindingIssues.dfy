/** No reported issue is lost, and when replaying a run changes nothing. */
module FindingIssues {
  import opened Text
  import opened Findings
  import opened FindingProofs
  import opened FindingThresholds

  // ----- Rows keep the issue they stand for

  /** Both fingerprints were computed from the row's own columns. */
  predicate Faithful(r: Row) {
    && AnchorPrint(r.path, r.kind, r.anchor.snippet, r.category, r.key) == r.anchor
    && SemanticPrint(r.path, r.category, r.key, r.semantic.symbol) == r.semantic
  }

  ghost predicate FaithfulTable(rows: seq<Row>) {
    forall i :: 0 <= i < |rows| ==> Faithful(rows[i])
  }

  /** A fingerprint match is a match of issues. */
  lemma {:induction false} MatchedIssue(fr: Frame, k: nat)
    requires ValidFrame(fr) && FaithfulTable(fr.snap) && k < |fr.cs| && !MatchAt(fr, k).Unmatched?
    requires fr.oracle.None? || !MatchAt(fr, k).Supersede?
    ensures RowIssue(fr.snap[MatchAt(fr, k).id]) == IssueOf(fr.cs[k].f)
  {
    MatchFacts(fr, k);
  }

  /** A hit row stays faithful and keeps its issue. */
  lemma {:induction false} UpdateKeepsIssue(fr: Frame, k: nat, r: Row, newId: RowId)
    requires ValidFrame(fr) && FaithfulTable(fr.snap) && k < |fr.cs| && !MatchAt(fr, k).Unmatched?
    requires Faithful(r) && RowIssue(r) == RowIssue(fr.snap[MatchAt(fr, k).id])
    ensures
      var r' := Updated(r, fr.run, fr.cs[k].f, MatchAt(fr, k), newId);
      Faithful(r') && RowIssue(r') == RowIssue(r)
  {
    if MatchAt(fr, k).Relocate? {
      MatchedIssue(fr, k);
    }
  }

  lemma {:induction false} IssueStep(fr: Frame, n: nat, i: nat)
    requires ValidFrame(fr) && FaithfulTable(fr.snap) && n < |fr.cs| && i < |Process(fr, n).rows|
    requires Faithful(Process(fr, n).rows[i])
      && (i < |fr.snap| ==> RowIssue(Process(fr, n).rows[i]) == RowIssue(fr.snap[i]))
    ensures i < |Process(fr, n + 1).rows| && Faithful(Process(fr, n + 1).rows[i])
    ensures RowIssue(Process(fr, n + 1).rows[i]) == RowIssue(Process(fr, n).rows[i])
  {
    var w := Process(fr, n);
    StepRow(fr, n, i);
    if Hits(fr, n, i) {
      UpdateKeepsIssue(fr, n, w.rows[i], |w.rows|);
    }
  }

  lemma {:induction false} AppendedFaithful(fr: Frame, n: nat, i: nat)
    requires n < |fr.cs| && |Process(fr, n).rows| <= i < |Process(fr, n + 1).rows|
    ensures i >= |fr.snap| && Faithful(Process(fr, n + 1).rows[i])
  {
    AppendedRow(fr, n, i);
  }

  lemma {:induction false} IssuesKept(fr: Frame, n: nat, i: nat)
    requires ValidFrame(fr) && FaithfulTable(fr.snap) && n <= |fr.cs| && i < |Process(fr, n).rows|
    ensures Faithful(Process(fr, n).rows[i])
    ensures i < |fr.snap| ==> RowIssue(Process(fr, n).rows[i]) == RowIssue(fr.snap[i])
  {
    if n > 0 {
      if i < |Process(fr, n - 1).rows| {
        IssuesKept(fr, n - 1, i);
        IssueStep(fr, n - 1, i);
      } else {
        AppendedFaithful(fr, n - 1, i);
      }
    }
  }

  lemma {:induction false} IssueStays(fr: Frame, n: nat, i: nat)
    requires ValidFrame(fr) && FaithfulTable(fr.snap) && n < |fr.cs| && i < |Process(fr, n).rows|
    ensures i < |Process(fr, n + 1).rows| && RowIssue(Process(fr, n + 1).rows[i]) == RowIssue(Process(fr, n).rows[i])
  {
    IssuesKept(fr, n, i);
    IssueStep(fr, n, i);
  }

  /** Faithful fingerprints are kept by every run, with any matcher. */
  lemma {:induction false} RunKeepsFaithful(fr: Frame, s: Scope)
    requires ValidFrame(fr) && FaithfulTable(fr.snap)
    ensures Persist(fr, s).Done? && FaithfulTable(Persist(fr, s).rows)
  {
    PersistDone(fr, s, |fr.order|);
    forall i | 0 <= i < |Persist(fr, s).rows| ensures Faithful(Persist(fr, s).rows[i]) {
      PersistRow(fr, s, i);
      IssuesKept(fr, |fr.cs|, i);
    }
  }

  // ----- The live issues after a run

  ghost function LiveIssues(rows: seq<Row>, mr: int): set<Issue> {
    set i | 0 <= i < |rows| && LiveIn(rows, mr, i) :: RowIssue(rows[i])
  }

  ghost function ReportedIssues(cs: seq<Candidate>): set<Issue> {
    set k | 0 <= k < |cs| && cs[k].verdict == AsNew :: IssueOf(cs[k].f)
  }

  /** A live row of this issue that the retiring loop will leave alone. */
  ghost predicate Covered(fr: Frame, w: Work, issue: Issue) {
    exists i :: LiveIn(w.rows, fr.mr, i) && (i >= |fr.snap| || i in w.hits) && RowIssue(w.rows[i]) == issue
  }

  lemma {:induction false} CoverSurvivesStep(fr: Frame, n: nat, issue: Issue)
    requires ValidFrame(fr) && FaithfulTable(fr.snap) && fr.oracle.None? && n < |fr.cs|
    requires Covered(fr, Process(fr, n), issue)
    ensures Covered(fr, Process(fr, n + 1), issue)
  {
    var w, w' := Process(fr, n), Process(fr, n + 1);
    var i :| LiveIn(w.rows, fr.mr, i) && (i >= |fr.snap| || i in w.hits) && RowIssue(w.rows[i]) == issue;
    IssueStays(fr, n, i);
    StepRow(fr, n, i);
    if Hits(fr, n, i) && MatchAt(fr, n).Supersede? {
      MatchedIssue(fr, n);
      IssuesKept(fr, n, i);
      AppendedRow(fr, n, |w.rows|);
      assert LiveIn(w'.rows, fr.mr, |w.rows|);
    } else {
      assert LiveIn(w'.rows, fr.mr, i);
    }
  }

  /** A reported issue is covered right after its own step, even when its row was superseded on the way. */
  lemma {:induction false} CandidateCovered(fr: Frame, n: nat)
    requires ValidFrame(fr) && FaithfulTable(fr.snap) && fr.oracle.None? && n < |fr.cs| && fr.cs[n].verdict == AsNew
    ensures Covered(fr, Process(fr, n + 1), IssueOf(fr.cs[n].f))
    decreases n, 1
  {
    var w, w', m := Process(fr, n), Process(fr, n + 1), MatchAt(fr, n);
    if Inserts(m) {
      StepRows(fr, n);
      AppendedRow(fr, n, |w.rows|);
      assert LiveIn(w'.rows, fr.mr, |w.rows|);
    } else {
      MatchedIssue(fr, n);
      StepRow(fr, n, m.id);
      IssuesKept(fr, n + 1, m.id);
      ProcessHits(fr, n, m.id);
      ProcessState(fr, n, m.id);
      assert LiveIn(fr.snap, fr.mr, m.id);
      if Live(w.rows[m.id]) {
        assert LiveIn(w'.rows, fr.mr, m.id);
      } else {
        HitCovered(fr, n, m.id);
        CoverSurvivesStep(fr, n, RowIssue(fr.snap[m.id]));
      }
    }
  }

  lemma {:induction false} HitCovered(fr: Frame, n: nat, i: nat)
    requires ValidFrame(fr) && FaithfulTable(fr.snap) && fr.oracle.None? && n <= |fr.cs|
    requires i < |fr.snap| && i in Process(fr, n).hits
    ensures Covered(fr, Process(fr, n), RowIssue(fr.snap[i]))
    decreases n, 0
  {
    StepRow(fr, n - 1, i);
    if i in Process(fr, n - 1).hits {
      HitCovered(fr, n - 1, i);
      CoverSurvivesStep(fr, n - 1, RowIssue(fr.snap[i]));
    } else {
      MatchedIssue(fr, n - 1);
      CandidateCovered(fr, n - 1);
    }
  }

  /** Every issue reported so far is covered. */
  lemma {:induction false} ReportCovered(fr: Frame, n: nat, k: nat)
    requires ValidFrame(fr) && FaithfulTable(fr.snap) && fr.oracle.None? && k < n <= |fr.cs|
      && fr.cs[k].verdict == AsNew
    ensures Covered(fr, Process(fr, n), IssueOf(fr.cs[k].f))
    decreases n
  {
    if k == n - 1 {
      CandidateCovered(fr, k);
    } else {
      ReportCovered(fr, n - 1, k);
      CoverSurvivesStep(fr, n - 1, IssueOf(fr.cs[k].f));
    }
  }

  /** A live row after the run stands for a reported issue, or nothing was reviewed and it was live before. */
  lemma {:induction false} LiveIssueOrigin(fr: Frame, s: Scope, i: nat)
    requires ValidFrame(fr) && FaithfulTable(fr.snap) && fr.oracle.None?
    requires Persist(fr, s).Done? && LiveIn(Persist(fr, s).rows, fr.mr, i)
    ensures
      || RowIssue(Persist(fr, s).rows[i]) in ReportedIssues(fr.cs)
      || (EmptyScope(s) && RowIssue(Persist(fr, s).rows[i]) in LiveIssues(fr.snap, fr.mr))
  {
    var n := |fr.cs|;
    var w := Process(fr, n);
    PersistRow(fr, s, i);
    if i >= |fr.snap| {
      AppendedRows(fr, n);
      assert w.rows[i] == Appended(fr, n)[i - |fr.snap|];
      var k := AppendedOrigin(fr, n, i - |fr.snap|);
      assert IssueOf(fr.cs[k].f) in ReportedIssues(fr.cs);
    } else {
      IssuesKept(fr, n, i);
      ProcessHits(fr, n, i);
      ProcessState(fr, n, i);
      if i in w.hits {
        var k :| 0 <= k < n && Hits(fr, k, i);
        MatchedIssue(fr, k);
        assert IssueOf(fr.cs[k].f) in ReportedIssues(fr.cs);
      } else {
        assert LiveIn(fr.snap, fr.mr, i);
      }
    }
  }

  lemma {:induction false} AppendedOrigin(fr: Frame, n: nat, j: nat) returns (k: nat)
    requires n <= |fr.cs| && j < |Appended(fr, n)|
    ensures k < n && Appended(fr, n)[j] == NewRow(fr.run, fr.mr, fr.cs[k])
    ensures fr.cs[k].verdict == AsFiltered || (fr.cs[k].verdict == AsNew && Inserts(MatchAt(fr, k)))
  {
    if j < |Appended(fr, n - 1)| {
      k := AppendedOrigin(fr, n - 1, j);
    } else {
      k := n - 1;
    }
  }

  /**
    Without a matcher the live issues after a run are exactly the reported ones
    (kept by the thresholds), plus the old ones when nothing was reviewed.  So no
    reported issue is lost, however often old rows are hit, moved or superseded.
   */
  lemma {:induction false} LiveIssuesAfterRun(fr: Frame, s: Scope)
    requires ValidFrame(fr) && FaithfulTable(fr.snap) && fr.oracle.None?
    ensures Persist(fr, s).Done?
    ensures LiveIssues(Persist(fr, s).rows, fr.mr)
         == ReportedIssues(fr.cs) + if EmptyScope(s) then LiveIssues(fr.snap, fr.mr) else {}
  {
    var n := |fr.cs|;
    PersistDone(fr, s, |fr.order|);
    var w, rows' := Process(fr, n), Persist(fr, s).rows;
    forall x | x in LiveIssues(rows', fr.mr)
      ensures x in ReportedIssues(fr.cs) || (EmptyScope(s) && x in LiveIssues(fr.snap, fr.mr))
    {
      var i :| 0 <= i < |rows'| && LiveIn(rows', fr.mr, i) && RowIssue(rows'[i]) == x;
      LiveIssueOrigin(fr, s, i);
    }
    forall x | Covered(fr, w, x) ensures x in LiveIssues(rows', fr.mr) {
      var i :| LiveIn(w.rows, fr.mr, i) && (i >= |fr.snap| || i in w.hits) && RowIssue(w.rows[i]) == x;
      PersistRow(fr, s, i);
      assert LiveIn(rows', fr.mr, i);
    }
    forall x | x in ReportedIssues(fr.cs) ensures x in LiveIssues(rows', fr.mr) {
      var k :| 0 <= k < n && fr.cs[k].verdict == AsNew && IssueOf(fr.cs[k].f) == x;
      ReportCovered(fr, n, k);
    }
    if EmptyScope(s) {
      forall x | x in LiveIssues(fr.snap, fr.mr) ensures x in LiveIssues(rows', fr.mr) {
        var i :| 0 <= i < |fr.snap| && LiveIn(fr.snap, fr.mr, i) && RowIssue(fr.snap[i]) == x;
        ProcessHits(fr, n, i);
        PersistRow(fr, s, i);
        if i in w.hits {
          HitCovered(fr, n, i);
        } else {
          assert LiveIn(rows', fr.mr, i);
        }
      }
    }
  }

  // ----- From reported findings to candidates

  /** No earlier finding was reported with the same anchor fingerprint. */
  predicate FirstReport(fs: seq<Finding>, j: nat)
    requires j < |fs|
  {
    forall i :: 0 <= i < j ==> AnchorOf(fs[i]) != AnchorOf(fs[j])
  }

  /** A finding that decides about its issue: first with its anchor, and kept by the thresholds. */
  ghost predicate Keeps(fs: seq<Finding>, t: Thresholds, j: nat)
    requires j < |fs|
  {
    FirstReport(fs, j) && Passes(fs[j], t)
  }

  /** Candidate c is the first report at position j, with its own evaluation. */
  predicate IsFirstAt(fs: seq<Finding>, t: Thresholds, c: Candidate, j: nat) {
    j < |fs| && FirstReport(fs, j) && c == Candidate(fs[j], Evaluate(fs[j], t))
  }

  ghost predicate IsFirstReport(fs: seq<Finding>, t: Thresholds, c: Candidate) {
    exists j: nat :: IsFirstAt(fs, t, c, j)
  }

  lemma {:induction false} EveryAnchorReported(fs: seq<Finding>, t: Thresholds, j: nat)
    requires j < |fs|
    ensures Reports(Dedupe(fs, t), AnchorOf(fs[j]))
  {
    var last := |fs| - 1;
    ReportsAppend(Dedupe(fs[..last], t), Candidate(fs[last], Evaluate(fs[last], t)), AnchorOf(fs[j]));
    if j < last {
      EveryAnchorReported(fs[..last], t, j);
    }
  }

  /** The candidates are exactly the first reports, each with its own evaluation. */
  lemma {:induction false} CandidatesAreFirstReports(fs: seq<Finding>, t: Thresholds, c: Candidate)
    ensures c in Dedupe(fs, t) <==> IsFirstReport(fs, t, c)
    decreases |fs|, 1
  {
    if fs != [] {
      var last := |fs| - 1;
      CandidatesAreFirstReports(fs[..last], t, c);
      LastIsFirst(fs, t);
      FirstReportsGrow(fs, t, c);
    }
  }

  lemma {:induction false} FirstInPrefix(fs: seq<Finding>, n: nat, j: nat)
    requires j < n <= |fs|
    ensures fs[..n][j] == fs[j] && (FirstReport(fs[..n], j) <==> FirstReport(fs, j))
  {
    assert forall i :: 0 <= i < n ==> fs[..n][i] == fs[i];
  }

  lemma {:induction false} FirstReportsGrow(fs: seq<Finding>, t: Thresholds, c: Candidate)
    requires fs != []
    ensures IsFirstReport(fs, t, c) <==> IsFirstReport(fs[..|fs| - 1], t, c) || IsFirstAt(fs, t, c, |fs| - 1)
  {
    var last := |fs| - 1;
    if j: nat :| IsFirstAt(fs[..last], t, c, j) {
      FirstInPrefix(fs, last, j);
      assert IsFirstAt(fs, t, c, j);
    }
    if j: nat :| IsFirstAt(fs, t, c, j) {
      if j < last {
        FirstInPrefix(fs, last, j);
        assert IsFirstAt(fs[..last], t, c, j);
      }
    }
  }

  lemma {:induction false} LastIsFirst(fs: seq<Finding>, t: Thresholds)
    requires fs != []
    ensures
      var last := |fs| - 1;
      Reports(Dedupe(fs[..last], t), AnchorOf(fs[last])) <==> !FirstReport(fs, last)
    decreases |fs|, 0
  {
    var last := |fs| - 1;
    var before := fs[..last];
    var cs := Dedupe(before, t);
    var a := AnchorOf(fs[last]);
    if Reports(cs, a) {
      var i :| 0 <= i < |cs| && AnchorOf(cs[i].f) == a;
      CandidatesAreFirstReports(before, t, cs[i]);
      assert cs[i] in cs;
      var j: nat :| IsFirstAt(before, t, cs[i], j);
      FirstInPrefix(fs, last, j);
    }
    forall i | 0 <= i < last ensures Reports(cs, AnchorOf(fs[i])) {
      EveryAnchorReported(before, t, i);
    }
  }

  /** A finding of the issue that decides about it. */
  ghost predicate KeptIssue(fs: seq<Finding>, t: Thresholds, issue: Issue) {
    exists j :: 0 <= j < |fs| && Keeps(fs, t, j) && IssueOf(fs[j]) == issue
  }

  lemma {:induction false} ReportedIff(fs: seq<Finding>, t: Thresholds, issue: Issue)
    ensures issue in ReportedIssues(Dedupe(fs, t)) <==> KeptIssue(fs, t, issue)
  {
    var cs := Dedupe(fs, t);
    if k :| 0 <= k < |cs| && cs[k].verdict == AsNew && IssueOf(cs[k].f) == issue {
      CandidatesAreFirstReports(fs, t, cs[k]);
      assert cs[k] in cs;
      var j: nat :| IsFirstAt(fs, t, cs[k], j);
      EvaluateIff(fs[j], t);
      assert Keeps(fs, t, j);
    }
    if j :| 0 <= j < |fs| && Keeps(fs, t, j) && IssueOf(fs[j]) == issue {
      var c := Candidate(fs[j], AsNew);
      EvaluateIff(fs[j], t);
      assert IsFirstAt(fs, t, c, j);
      CandidatesAreFirstReports(fs, t, c);
      var k :| 0 <= k < |cs| && cs[k] == c;
    }
  }

  /**
    When something was reviewed, an issue is live after the run if and only if
    some finding of that issue was the first with its anchor and passed the
    thresholds itself.
   */
  lemma {:induction false} IssueLiveIffFirstReportKept(rows: seq<Row>, e: Event, issue: Issue)
    requires e.Reviewed? && e.oracle.None? && Listing(rows, e.mr, e.order) && FaithfulTable(rows)
    requires !EmptyScope(e.scope)
    ensures Persist(FrameOf(rows, e), e.scope).Done?
    ensures
      issue in LiveIssues(Persist(FrameOf(rows, e), e.scope).rows, e.mr) <==>
      KeptIssue(Normalized(e.reported), e.thresholds, issue)
  {
    LiveIssuesAfterRun(FrameOf(rows, e), e.scope);
    ReportedIff(Normalized(e.reported), e.thresholds, issue);
  }

  lemma {:induction false} EventKeepsFaithful(rows: seq<Row>, e: Event, rows': seq<Row>)
    requires Follows(rows, e, rows') && FaithfulTable(rows)
    ensures FaithfulTable(rows')
  {
    if e.Reviewed? {
      FrameValid(rows, e);
      RunKeepsFaithful(FrameOf(rows, e), e.scope);
    }
  }

  lemma {:induction false} FaithfulStep(tables: seq<seq<Row>>, events: seq<Event>, k: nat)
    requires History(tables, events) && k < |events| && FaithfulTable(tables[k])
    ensures FaithfulTable(tables[k + 1])
  {
    assert StepAt(tables, events, k);
    EventKeepsFaithful(tables[k], events[k], tables[k + 1]);
  }

  lemma {:induction false} TablesStayFaithful(tables: seq<seq<Row>>, events: seq<Event>, k: nat)
    requires History(tables, events) && FaithfulTable(tables[0]) && k < |tables|
    ensures FaithfulTable(tables[k])
  {
    if k > 0 {
      TablesStayFaithful(tables, events, k - 1);
      FaithfulStep(tables, events, k - 1);
    }
  }

  /** The same after every run of any history, even if earlier runs had a matcher. */
  lemma {:induction false} IssuesAfterEveryRun(tables: seq<seq<Row>>, events: seq<Event>, k: nat, issue: Issue)
    requires History(tables, events) && FaithfulTable(tables[0]) && k < |events|
    requires events[k].Reviewed? && events[k].oracle.None? && !EmptyScope(events[k].scope)
    ensures issue in LiveIssues(tables[k + 1], events[k].mr) <==>
      KeptIssue(Normalized(events[k].reported), events[k].thresholds, issue)
  {
    TablesStayFaithful(tables, events, k);
    assert StepAt(tables, events, k);
    IssueLiveIffFirstReportKept(tables[k], events[k], issue);
  }

  /**
    Duplicates are dropped before the thresholds are applied: any finding that
    passes them is lost when a less confident copy of it is reported first.
   */
  lemma {:induction false} WeakCopyHidesIssue(rows: seq<Row>, e: Event, f: Finding, confidence: real)
    requires e.Reviewed? && e.oracle.None? && Listing(rows, e.mr, e.order) && FaithfulTable(rows)
    requires !EmptyScope(e.scope)
    requires Passes(Normalize(f), e.thresholds)
    requires confidence < e.thresholds.confidence && e.reported == [f.(confidence := confidence), f]
    ensures Persist(FrameOf(rows, e), e.scope).Done?
    ensures IssueOf(Normalize(f)) !in LiveIssues(Persist(FrameOf(rows, e), e.scope).rows, e.mr)
  {
    var weak, fs := e.reported[0], Normalized(e.reported);
    assert fs[0] == Normalize(weak) == Normalize(f).(confidence := weak.confidence);
    assert AnchorOf(fs[0]) == AnchorOf(fs[1]);
    assert !FirstReport(fs, 1);
    IssueLiveIffFirstReportKept(rows, e, IssueOf(Normalize(f)));
  }

  function AlwaysSame(): (nat, RowId) -> bool { (k, id) => true }

  lemma {:induction false} LosingPlan(fr: Frame, c: Candidate, other: Candidate, mr: int)
    requires c.verdict == AsNew && other.verdict == AsNew
    requires c.f.path == other.f.path == NormalizePath(c.f.path) && IssueOf(c.f) != IssueOf(other.f)
    requires fr == FrameFor([NewRow(1, mr, c)], [0], 2, mr, [c, other], Some(AlwaysSame()))
    ensures ValidFrame(fr) && FaithfulTable(fr.snap) && MatchAt(fr, 0) == Touch(0) && MatchAt(fr, 1) == Supersede(0)
  {
    assert LiveIn(fr.snap, mr, 0);
  }

  /** With a matcher an issue can be lost: its row is touched, then superseded for another issue of the file. */
  lemma {:induction false} MatcherLosesIssue(fr: Frame, c: Candidate, other: Candidate, mr: int, s: Scope)
    requires c.verdict == AsNew && other.verdict == AsNew
    requires c.f.path == other.f.path == NormalizePath(c.f.path) && IssueOf(c.f) != IssueOf(other.f)
    requires fr == FrameFor([NewRow(1, mr, c)], [0], 2, mr, [c, other], Some(AlwaysSame()))
    ensures ValidFrame(fr) && FaithfulTable(fr.snap) && Persist(fr, s).Done?
    ensures IssueOf(c.f) in ReportedIssues(fr.cs) && IssueOf(c.f) !in LiveIssues(Persist(fr, s).rows, mr)
  {
    LosingPlan(fr, c, other, mr);
    PersistDone(fr, s, 1);
    var w1, w2 := Process(fr, 1), Process(fr, 2);
    StepRows(fr, 0);
    StepRows(fr, 1);
    assert Hits(fr, 0, 0) && Hits(fr, 1, 0);
    assert |w1.rows| == 1 && |w2.rows| == 2;
    PersistRow(fr, s, 0);
    PersistRow(fr, s, 1);
    assert IssueOf(fr.cs[0].f) in ReportedIssues(fr.cs);
  }

  // ----- Replaying a run

  /** The live rows are the same rows, column by column. */
  ghost predicate SameLive(rows: seq<Row>, rows': seq<Row>, mr: int) {
    forall i :: (LiveIn(rows, mr, i) <==> LiveIn(rows', mr, i)) && (LiveIn(rows, mr, i) ==> rows[i] == rows'[i])
  }

  /** Every finding kept as new has a live row at its own anchor. */
  ghost predicate AllAnchored(rows: seq<Row>, mr: int, cs: seq<Candidate>) {
    forall k :: 0 <= k < |cs| && cs[k].verdict == AsNew ==> HasCarrier(rows, mr, cs[k])
  }

  ghost predicate HasCarrier(rows: seq<Row>, mr: int, c: Candidate) {
    exists i :: LiveIn(rows, mr, i) && rows[i].anchor == AnchorOf(c.f)
  }

  /** A second run of the same run id and findings on the table the first one left. */
  ghost predicate Replays(fr: Frame, s: Scope, fr': Frame) {
    && ValidFrame(fr) && ValidFrame(fr')
    && Persist(fr, s) == Done(fr'.snap)
    && fr'.run == fr.run && fr'.mr == fr.mr && fr'.cs == fr.cs
  }

  lemma {:induction false} ReplayReady(fr: Frame, s: Scope, fr': Frame)
    requires Ready(fr) && Replays(fr, s, fr')
    ensures Ready(fr')
  {
    RunKeepsDistinct(fr, s);
  }

  /** A row the first run left live was claimed by it and marked as seen, unless nothing was reviewed. */
  lemma {:induction false} LeftLive(fr: Frame, s: Scope, fr': Frame, i: nat)
    requires Ready(fr) && Replays(fr, s, fr') && LiveIn(fr'.snap, fr.mr, i)
    ensures EmptyScope(s) || Claimed(fr, |fr.cs|, fr'.snap[i].anchor)
    ensures Claimed(fr, |fr.cs|, fr'.snap[i].anchor) ==> SeenBy(fr'.snap[i], fr.run)
  {
    var n := |fr.cs|;
    ProcessSound(fr, n);
    PersistDone(fr, s, |fr.order|);
    PersistRow(fr, s, i);
    var w := Process(fr, n);
    assert RowSound(fr, n, w, i);
    if i < |fr.snap| {
      ProcessHits(fr, n, i);
      ProcessState(fr, n, i);
      assert LiveIn(fr.snap, fr.mr, i);
    }
  }

  /** When all findings are anchored, a replayed finding only recognises its own row. */
  lemma {:induction false} ReplayRecognises(fr: Frame, s: Scope, fr': Frame, k: nat)
    requires Ready(fr) && Replays(fr, s, fr') && AllAnchored(fr'.snap, fr.mr, fr.cs)
    requires k < |fr.cs| && fr.cs[k].verdict == AsNew
    ensures MatchAt(fr', k).AlreadySeen?
    ensures forall i :: LiveIn(fr'.snap, fr.mr, i) && fr'.snap[i].anchor == AnchorOf(fr.cs[k].f) ==> Hits(fr', k, i)
  {
    ReplayReady(fr, s, fr');
    AnchorPassExact(fr', k);
    MatchFacts(fr', k);
    assert HasCarrier(fr'.snap, fr.mr, fr.cs[k]);
    var i :| LiveIn(fr'.snap, fr.mr, i) && fr'.snap[i].anchor == AnchorOf(fr.cs[k].f);
    LeftLive(fr, s, fr', i);
    assert Claimed(fr, |fr.cs|, fr'.snap[i].anchor);
  }

  lemma {:induction false} IdleStep(fr: Frame, n: nat, i: nat)
    requires n < |fr.cs| && (fr.cs[n].verdict == AsNew ==> MatchAt(fr, n).AlreadySeen?) && i < |Process(fr, n + 1).rows|
    ensures i < |Process(fr, n).rows| ==> Process(fr, n + 1).rows[i] == Process(fr, n).rows[i]
    ensures i >= |Process(fr, n).rows| ==> !Live(Process(fr, n + 1).rows[i])
  {
    if i < |Process(fr, n).rows| {
      StepRow(fr, n, i);
    } else {
      AppendedRow(fr, n, i);
    }
  }

  lemma {:induction false} ReplayKeepsRows(fr: Frame, s: Scope, fr': Frame, n: nat, i: nat)
    requires Ready(fr) && Replays(fr, s, fr') && AllAnchored(fr'.snap, fr.mr, fr.cs)
    requires n <= |fr.cs| && i < |Process(fr', n).rows|
    ensures if i < |fr'.snap| then Process(fr', n).rows[i] == fr'.snap[i] else !Live(Process(fr', n).rows[i])
  {
    if n > 0 {
      if fr.cs[n - 1].verdict == AsNew {
        ReplayRecognises(fr, s, fr', n - 1);
      }
      IdleStep(fr', n - 1, i);
      if i < |Process(fr', n - 1).rows| {
        ReplayKeepsRows(fr, s, fr', n - 1, i);
      }
    }
  }

  lemma {:induction false} ReplayStable(fr: Frame, s: Scope, fr': Frame)
    requires Ready(fr) && Replays(fr, s, fr') && AllAnchored(fr'.snap, fr.mr, fr.cs)
    ensures Persist(fr', s).Done? && SameLive(fr'.snap, Persist(fr', s).rows, fr.mr)
  {
    var n := |fr.cs|;
    ReplayReady(fr, s, fr');
    PersistDone(fr', s, |fr'.order|);
    var w, rows' := Process(fr', n), Persist(fr', s).rows;
    forall i | 0 <= i < |rows'|
      ensures (LiveIn(fr'.snap, fr.mr, i) <==> LiveIn(rows', fr.mr, i))
        && (LiveIn(fr'.snap, fr.mr, i) ==> fr'.snap[i] == rows'[i])
    {
      PersistRow(fr', s, i);
      ReplayKeepsRows(fr, s, fr', n, i);
      if LiveIn(fr'.snap, fr.mr, i) && !EmptyScope(s) {
        LeftLive(fr, s, fr', i);
        var k :| 0 <= k < n && fr.cs[k].verdict == AsNew && AnchorOf(fr.cs[k].f) == fr'.snap[i].anchor;
        ReplayRecognises(fr, s, fr', k);
        assert EverHit(fr', n, i);
        ProcessHits(fr', n, i);
      }
    }
  }

  lemma {:induction false} MovedStaysSeen(fr: Frame, k: nat, n: nat, i: nat)
    requires k < n <= |fr.cs| && i < |fr.snap| && Hits(fr, k, i) && MatchAt(fr, k).Relocate?
    ensures Process(fr, n).rows[i].lastSeen == Some(fr.run)
    decreases n
  {
    StepRow(fr, n - 1, i);
    if n - 1 > k {
      MovedStaysSeen(fr, k, n - 1, i);
    }
  }

  lemma {:induction false} InsertedStays(fr: Frame, k: nat, n: nat) returns (j: nat)
    requires k < n <= |fr.cs| && fr.cs[k].verdict == AsNew && Inserts(MatchAt(fr, k))
    ensures j < |Appended(fr, n)| && Appended(fr, n)[j] == NewRow(fr.run, fr.mr, fr.cs[k])
    decreases n
  {
    if n - 1 > k {
      j := InsertedStays(fr, k, n - 1);
    } else {
      j := |Appended(fr, n - 1)|;
    }
  }

  /** An appended new row is live after the run. */
  lemma {:induction false} InsertedLive(fr: Frame, s: Scope, k: nat) returns (i: nat)
    requires ValidFrame(fr) && k < |fr.cs| && fr.cs[k].verdict == AsNew && Inserts(MatchAt(fr, k))
    ensures Persist(fr, s).Done? && i >= |fr.snap| && LiveIn(Persist(fr, s).rows, fr.mr, i)
    ensures Persist(fr, s).rows[i].anchor == AnchorOf(fr.cs[k].f)
    ensures RowIssue(Persist(fr, s).rows[i]) == IssueOf(fr.cs[k].f)
  {
    var n := |fr.cs|;
    var j := InsertedStays(fr, k, n);
    AppendedRows(fr, n);
    i := |fr.snap| + j;
    assert Process(fr, n).rows[i] == Appended(fr, n)[j];
    PersistRow(fr, s, i);
  }

  lemma {:induction false} UnanchoredChanges(fr: Frame, s: Scope, fr': Frame, k: nat)
    requires Ready(fr) && Replays(fr, s, fr')
    requires k < |fr.cs| && fr.cs[k].verdict == AsNew && !HasCarrier(fr'.snap, fr.mr, fr.cs[k])
    ensures Persist(fr', s).Done? && !SameLive(fr'.snap, Persist(fr', s).rows, fr.mr)
  {
    ReplayReady(fr, s, fr');
    MatchFacts(fr', k);
    PersistDone(fr', s, |fr'.order|);
    var m := MatchAt(fr', k);
    if Inserts(m) {
      var i := InsertedLive(fr', s, k);
      assert !LiveIn(fr'.snap, fr.mr, i);
    } else {
      assert Hits(fr', k, m.id);
      MovedStaysSeen(fr', k, |fr.cs|, m.id);
      ProcessHits(fr', |fr.cs|, m.id);
      PersistRow(fr', s, m.id);
      assert LiveIn(fr'.snap, fr.mr, m.id);
      assert Persist(fr', s).rows[m.id] != fr'.snap[m.id];
    }
  }

  /**
    Replaying a run leaves the live rows unchanged if and only if, after its
    first time, every finding it kept has a live row at its own anchor.
   */
  lemma {:induction false} ReplayStableIff(fr: Frame, s: Scope, fr': Frame)
    requires Ready(fr) && Replays(fr, s, fr')
    ensures Persist(fr', s).Done?
    ensures SameLive(fr'.snap, Persist(fr', s).rows, fr.mr) <==> AllAnchored(fr'.snap, fr.mr, fr.cs)
  {
    if AllAnchored(fr'.snap, fr.mr, fr.cs) {
      ReplayStable(fr, s, fr');
    } else {
      var k :| 0 <= k < |fr.cs| && fr.cs[k].verdict == AsNew && !HasCarrier(fr'.snap, fr.mr, fr.cs[k]);
      UnanchoredChanges(fr, s, fr', k);
    }
  }

  // ----- With a matcher

  /** A finding of the issue gets a row of its own. */
  ghost predicate InsertedFor(fr: Frame, issue: Issue) {
    exists k :: 0 <= k < |fr.cs| && fr.cs[k].verdict == AsNew && Inserts(MatchAt(fr, k)) && IssueOf(fr.cs[k].f) == issue
  }

  /** A live row that no finding displaces, and that some finding recognises unless nothing was reviewed. */
  ghost predicate Survives(fr: Frame, s: Scope, i: nat) {
    && LiveIn(fr.snap, fr.mr, i) && !Displaced(fr, |fr.cs|, i)
    && (EverHit(fr, |fr.cs|, i) || EmptyScope(s))
  }

  ghost predicate SurvivorOf(fr: Frame, s: Scope, issue: Issue) {
    exists i: nat :: Survives(fr, s, i) && RowIssue(fr.snap[i]) == issue
  }

  /** A row keeps its issue through the whole run. */
  lemma {:induction false} IssueAfterRun(fr: Frame, s: Scope, i: nat)
    requires ValidFrame(fr) && FaithfulTable(fr.snap) && i < |fr.snap|
    ensures Persist(fr, s).Done? && i < |Persist(fr, s).rows|
    ensures RowIssue(Persist(fr, s).rows[i]) == RowIssue(fr.snap[i])
  {
    PersistRow(fr, s, i);
    IssuesKept(fr, |fr.cs|, i);
  }

  lemma {:induction false} LiveAfterRunIff(fr: Frame, s: Scope, i: nat)
    requires ValidFrame(fr) && i < |fr.snap|
    ensures Persist(fr, s).Done? && (LiveIn(Persist(fr, s).rows, fr.mr, i) <==> Survives(fr, s, i))
  {
    RunFates(fr, s);
    if LiveIn(fr.snap, fr.mr, i) {
      assert Fate(fr, s, Persist(fr, s).rows, i);
    }
  }

  lemma {:induction false} LiveAppended(fr: Frame, s: Scope, i: nat) returns (k: nat)
    requires ValidFrame(fr) && Persist(fr, s).Done? && i >= |fr.snap| && LiveIn(Persist(fr, s).rows, fr.mr, i)
    ensures k < |fr.cs| && fr.cs[k].verdict == AsNew && Inserts(MatchAt(fr, k))
    ensures AnchorOf(fr.cs[k].f) == Persist(fr, s).rows[i].anchor
    ensures IssueOf(fr.cs[k].f) == RowIssue(Persist(fr, s).rows[i])
  {
    var n := |fr.cs|;
    PersistRow(fr, s, i);
    AppendedRows(fr, n);
    assert Process(fr, n).rows[i] == Appended(fr, n)[i - |fr.snap|];
    k := AppendedOrigin(fr, n, i - |fr.snap|);
  }

  /**
    With any matcher or none: an issue is live after a run if and only if a
    finding of it got a row of its own, or an old live row of it was not
    displaced and was recognised (or nothing was reviewed).
   */
  lemma {:induction false} IssueLiveIff(fr: Frame, s: Scope, issue: Issue)
    requires ValidFrame(fr) && FaithfulTable(fr.snap)
    ensures Persist(fr, s).Done?
    ensures issue in LiveIssues(Persist(fr, s).rows, fr.mr) <==> InsertedFor(fr, issue) || SurvivorOf(fr, s, issue)
  {
    PersistDone(fr, s, |fr.order|);
    var rows' := Persist(fr, s).rows;
    if i :| 0 <= i < |rows'| && LiveIn(rows', fr.mr, i) && RowIssue(rows'[i]) == issue {
      if i < |fr.snap| {
        LiveAfterRunIff(fr, s, i);
        IssueAfterRun(fr, s, i);
      } else {
        var k := LiveAppended(fr, s, i);
      }
    }
    if k :| 0 <= k < |fr.cs| && fr.cs[k].verdict == AsNew && Inserts(MatchAt(fr, k)) && IssueOf(fr.cs[k].f) == issue {
      var i := InsertedLive(fr, s, k);
    }
    if i: nat :| Survives(fr, s, i) && RowIssue(fr.snap[i]) == issue {
      LiveAfterRunIff(fr, s, i);
      IssueAfterRun(fr, s, i);
    }
  }

  /** So a run loses no reported issue if and only if each of them has such a row. */
  lemma {:induction false} NoIssueLostIff(fr: Frame, s: Scope)
    requires ValidFrame(fr) && FaithfulTable(fr.snap)
    ensures Persist(fr, s).Done?
    ensures ReportedIssues(fr.cs) <= LiveIssues(Persist(fr, s).rows, fr.mr) <==>
      forall issue :: issue in ReportedIssues(fr.cs) ==> InsertedFor(fr, issue) || SurvivorOf(fr, s, issue)
  {
    PersistDone(fr, s, |fr.order|);
    forall issue | issue in ReportedIssues(fr.cs)
      ensures issue in LiveIssues(Persist(fr, s).rows, fr.mr) <==> InsertedFor(fr, issue) || SurvivorOf(fr, s, issue)
    {
      IssueLiveIff(fr, s, issue);
    }
  }

  // ----- The same condition before either run

  predicate RelocatesAt(fr: Frame, j: nat, i: nat) {
    j < |fr.cs| && fr.cs[j].verdict == AsNew && MatchAt(fr, j) == Relocate(i)
  }

  /** Some finding from position `from` on relocates row i. */
  ghost predicate RelocatedFrom(fr: Frame, from: nat, i: nat) {
    exists j: nat :: from <= j && RelocatesAt(fr, j, i)
  }

  /**
    The finding gets a row of its own, or the row it recognises or relocates is
    not displaced and not relocated by another finding: by any, if it only
    recognises the row, and by a later one, if it relocates the row itself.
   */
  ghost predicate KeepsRow(fr: Frame, k: nat)
    requires k < |fr.cs|
  {
    var m := MatchAt(fr, k);
    Inserts(m) || (!Displaced(fr, |fr.cs|, m.id) && !RelocatedFrom(fr, if m.Relocate? then k + 1 else 0, m.id))
  }

  ghost predicate KeepAllRows(fr: Frame) {
    forall k :: 0 <= k < |fr.cs| && fr.cs[k].verdict == AsNew ==> KeepsRow(fr, k)
  }

  lemma {:induction false} AnchorStep(fr: Frame, n: nat, i: nat)
    requires n < |fr.cs| && i < |fr.snap|
    ensures Process(fr, n + 1).rows[i].anchor
         == if RelocatesAt(fr, n, i) then AnchorOf(fr.cs[n].f) else Process(fr, n).rows[i].anchor
  {
    StepRow(fr, n, i);
  }

  /** A row carries the anchor of the last finding that relocated it, or still its own. */
  lemma {:induction false} AnchorOrigin(fr: Frame, n: nat, i: nat) returns (last: Option<nat>)
    requires n <= |fr.cs| && i < |fr.snap|
    ensures last.Some? ==> last.value < n && RelocatesAt(fr, last.value, i)
    ensures last.Some? ==> Process(fr, n).rows[i].anchor == AnchorOf(fr.cs[last.value].f)
    ensures last.None? ==> Process(fr, n).rows[i].anchor == fr.snap[i].anchor
    ensures forall j: nat :: (last.None? || last.value < j) && j < n ==> !RelocatesAt(fr, j, i)
  {
    if n == 0 {
      last := None;
    } else {
      AnchorStep(fr, n - 1, i);
      last := AnchorOrigin(fr, n - 1, i);
      if RelocatesAt(fr, n - 1, i) {
        last := Some(n - 1);
      }
    }
  }

  lemma {:induction false} AnchorAfterRun(fr: Frame, s: Scope, i: nat)
    requires ValidFrame(fr) && i < |fr.snap|
    ensures Persist(fr, s).Done? && i < |Persist(fr, s).rows|
    ensures Persist(fr, s).rows[i].anchor == Process(fr, |fr.cs|).rows[i].anchor
  {
    PersistRow(fr, s, i);
  }

  lemma {:induction false} CarrierKeepsRow(fr: Frame, s: Scope, k: nat, i: nat)
    requires Ready(fr) && k < |fr.cs| && fr.cs[k].verdict == AsNew && Persist(fr, s).Done?
    requires LiveIn(Persist(fr, s).rows, fr.mr, i) && Persist(fr, s).rows[i].anchor == AnchorOf(fr.cs[k].f)
    ensures KeepsRow(fr, k)
  {
    if i >= |fr.snap| {
      var j := LiveAppended(fr, s, i);
      assert j == k;
    } else {
      LiveAfterRunIff(fr, s, i);
      AnchorAfterRun(fr, s, i);
      AnchorPassExact(fr, k);
      var last := AnchorOrigin(fr, |fr.cs|, i);
      assert last.Some? ==> last.value == k;
    }
  }

  lemma {:induction false} KeptRowCarries(fr: Frame, s: Scope, k: nat)
    requires Ready(fr) && k < |fr.cs| && fr.cs[k].verdict == AsNew && KeepsRow(fr, k)
    ensures Persist(fr, s).Done? && HasCarrier(Persist(fr, s).rows, fr.mr, fr.cs[k])
  {
    var m := MatchAt(fr, k);
    if Inserts(m) {
      var i := InsertedLive(fr, s, k);
    } else {
      MatchFacts(fr, k);
      assert Hits(fr, k, m.id) && EverHit(fr, |fr.cs|, m.id);
      assert LiveIn(fr.snap, fr.mr, m.id);
      LiveAfterRunIff(fr, s, m.id);
      AnchorAfterRun(fr, s, m.id);
      var last := AnchorOrigin(fr, |fr.cs|, m.id);
      if m.Relocate? {
        assert RelocatesAt(fr, k, m.id);
        assert last.Some? && last.value == k;
      } else {
        assert last.None?;
      }
      assert LiveIn(Persist(fr, s).rows, fr.mr, m.id);
    }
  }

  /** After a run every kept finding has a live row at its anchor exactly when its plan keeps all rows. */
  lemma {:induction false} AllAnchoredIff(fr: Frame, s: Scope)
    requires Ready(fr)
    ensures Persist(fr, s).Done?
    ensures AllAnchored(Persist(fr, s).rows, fr.mr, fr.cs) <==> KeepAllRows(fr)
  {
    PersistDone(fr, s, |fr.order|);
    var rows' := Persist(fr, s).rows;
    forall k | 0 <= k < |fr.cs| && fr.cs[k].verdict == AsNew
      ensures HasCarrier(rows', fr.mr, fr.cs[k]) <==> KeepsRow(fr, k)
    {
      if i :| LiveIn(rows', fr.mr, i) && rows'[i].anchor == AnchorOf(fr.cs[k].f) {
        CarrierKeepsRow(fr, s, k, i);
      }
      if KeepsRow(fr, k) {
        KeptRowCarries(fr, s, k);
      }
    }
  }

  /**
    Replaying a run leaves the live rows unchanged if and only if no finding the
    run keeps recognises or relocates a row that is displaced or relocated away
    from it.  The condition reads only the list the first run read.
   */
  lemma {:induction false} ReplayStablePlanned(fr: Frame, s: Scope, fr': Frame)
    requires Ready(fr) && Replays(fr, s, fr')
    ensures Persist(fr', s).Done?
    ensures SameLive(fr'.snap, Persist(fr', s).rows, fr.mr) <==> KeepAllRows(fr)
  {
    ReplayStableIff(fr, s, fr');
    AllAnchoredIff(fr, s);
  }

  ghost predicate DistinctIssues(cs: seq<Candidate>) {
    forall i, j :: 0 <= i < j < |cs| && cs[i].verdict == AsNew && cs[j].verdict == AsNew ==>
      IssueOf(cs[i].f) != IssueOf(cs[j].f)
  }

  lemma {:induction false} HitOnce(fr: Frame, k: nat, j: nat, i: nat)
    requires ValidFrame(fr) && FaithfulTable(fr.snap) && fr.oracle.None? && DistinctIssues(fr.cs)
    requires k < |fr.cs| && j < |fr.cs| && i < |fr.snap| && Hits(fr, k, i) && j != k
    ensures !Hits(fr, j, i)
  {
    if Hits(fr, j, i) {
      MatchedIssue(fr, k);
      MatchedIssue(fr, j);
    }
  }

  lemma {:induction false} DistinctKeepsRow(fr: Frame, k: nat)
    requires ValidFrame(fr) && FaithfulTable(fr.snap) && fr.oracle.None? && DistinctIssues(fr.cs)
    requires k < |fr.cs| && fr.cs[k].verdict == AsNew
    ensures KeepsRow(fr, k)
  {
    var m := MatchAt(fr, k);
    if !Inserts(m) {
      assert Hits(fr, k, m.id);
      forall j | 0 <= j < |fr.cs| && j != k ensures !Hits(fr, j, m.id) {
        HitOnce(fr, k, j, m.id);
      }
      forall j: nat | RelocatesAt(fr, j, m.id) ensures j == k {
        assert Hits(fr, j, m.id);
      }
    }
  }

  /** Findings of pairwise distinct issues, reconciled without a matcher, all keep their row. */
  lemma {:induction false} DistinctIssuesAnchored(fr: Frame, s: Scope)
    requires Ready(fr) && FaithfulTable(fr.snap) && fr.oracle.None? && DistinctIssues(fr.cs)
    ensures KeepAllRows(fr) && Persist(fr, s).Done? && AllAnchored(Persist(fr, s).rows, fr.mr, fr.cs)
  {
    forall k | 0 <= k < |fr.cs| && fr.cs[k].verdict == AsNew ensures KeepsRow(fr, k) {
      DistinctKeepsRow(fr, k);
    }
    AllAnchoredIff(fr, s);
  }

  /** So replaying such a run changes no live row. */
  lemma {:induction false} DistinctIssuesReplay(fr: Frame, s: Scope, fr': Frame)
    requires Ready(fr) && FaithfulTable(fr.snap) && fr.oracle.None? && DistinctIssues(fr.cs) && Replays(fr, s, fr')
    ensures Persist(fr', s).Done? && SameLive(fr'.snap, Persist(fr', s).rows, fr.mr)
  {
    DistinctIssuesAnchored(fr, s);
    ReplayStableIff(fr, s, fr');
  }

  lemma {:induction false} BothRelocate(f: Finding, mr: int, fr: Frame)
    requires f.path == NormalizePath(f.path) && f.snippet == "c"
    requires fr.snap == [NewRow(1, mr, Candidate(f, AsNew))] && fr.order == [0] && fr.run == 2 && fr.mr == mr
    requires fr.cs == [Candidate(f.(snippet := "a"), AsNew), Candidate(f.(snippet := "b"), AsNew)]
    requires fr.oracle.None? && Planned(fr, 0) && Planned(fr, 1)
    ensures ValidFrame(fr) && MatchAt(fr, 0) == Relocate(0) && MatchAt(fr, 1) == Relocate(0)
  {
    assert LiveIn(fr.snap, mr, 0);
    assert DistinctAnchors(fr.cs) by {
      assert AnchorOf(fr.cs[0].f).snippet != AnchorOf(fr.cs[1].f).snippet;
    }
  }

  /** Two findings of one issue move the same old row; the first is left without a row and the replay inserts one. */
  lemma {:induction false} RepeatedIssueBreaksReplay(f: Finding, mr: int, s: Scope, fr: Frame, fr': Frame)
    requires f.path == NormalizePath(f.path) && f.snippet == "c"
    requires fr.snap == [NewRow(1, mr, Candidate(f, AsNew))] && fr.order == [0] && fr.run == 2 && fr.mr == mr
    requires fr.cs == [Candidate(f.(snippet := "a"), AsNew), Candidate(f.(snippet := "b"), AsNew)]
    requires fr.oracle.None? && Replays(fr, s, fr')
    ensures Ready(fr) && Persist(fr', s).Done? && !SameLive(fr'.snap, Persist(fr', s).rows, mr)
  {
    BothRelocate(f, mr, fr);
    assert Hits(fr, 0, 0) && Hits(fr, 1, 0);
    StepRows(fr, 0);
    StepRows(fr, 1);
    PersistDone(fr, s, 1);
    PersistRow(fr, s, 0);
    assert |fr'.snap| == 1 && fr'.snap[0].anchor == AnchorOf(fr.cs[1].f);
    assert !HasCarrier(fr'.snap, mr, fr.cs[0]);
    ReplayStableIff(fr, s, fr');
  }
}
