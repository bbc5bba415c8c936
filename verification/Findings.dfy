/**
  Reconciling the findings of one review run with the merge request's table of
  findings (internal/llm/dedup.go over internal/db/review_findings.sql.go).

  The loop matches every incoming finding against a list that was read once,
  while it updates the real table.  Here `snap` is the table as it was read and
  `order` the listed row ids; `Work` is the table being updated.  Fingerprints
  are the tuples that the code hashes.
 */
module Findings {
  import opened Text

  type RowId = nat
  type RunId = int

  datatype State = New | Posted | Active | Fixed | Superseded | Stale | Ignored | Filtered

  datatype AnchorPrint = AnchorPrint(path: string, kind: string, snippet: string, category: string, key: string)

  datatype SemanticPrint = SemanticPrint(path: string, category: string, key: string, symbol: string)

  /** What identifies an issue to its reader, whatever line it is anchored on. */
  datatype Issue = Issue(path: string, category: string, key: string)

  datatype Row = Row(
    run: RunId,
    mr: int,
    category: string,
    severity: string,
    confidence: real,
    title: string,
    path: string,
    kind: string,
    oldLine: Option<int>,
    newLine: Option<int>,
    snippet: string,
    key: string,
    anchor: AnchorPrint,
    semantic: SemanticPrint,
    state: State,
    matched: Option<RowId>,
    lastSeen: Option<RunId>)

  /** A finding as reported, and also as normalised. */
  datatype Finding = Finding(
    category: string,
    severity: string,
    confidence: real,
    title: string,
    path: string,
    kind: string,
    oldLine: Option<int>,
    newLine: Option<int>,
    snippet: string,
    key: string,
    symbol: string)

  datatype Thresholds = Thresholds(confidence: real, severity: string)

  datatype Verdict = AsNew | AsFiltered | AsDeleted

  datatype Candidate = Candidate(f: Finding, verdict: Verdict)

  // ----- Normalisation and fingerprints

  function CollapseSlashes(s: string): string {
    if |s| < 2 then s
    else if s[0] == '/' && s[1] == '/' then CollapseSlashes(s[1..])
    else [s[0]] + CollapseSlashes(s[1..])
  }

  function NormalizePath(path: string): string {
    var p := CollapseSlashes(ReplaceChar(TrimSpace(path), '\\', '/'));
    if "./" <= p then p[2..] else p
  }

  function NormalizeKind(kind: string): (r: string)
    ensures r != "deleted"
  {
    var k := ToLower(TrimSpace(kind));
    if k in ["new", "new_line", "added"] then "new_line"
    else if k in ["old", "old_line", "deleted"] then "old_line"
    else if k in ["context", "context_line", "unchanged"] then "context_line"
    else k
  }

  function Normalize(f: Finding): Finding {
    var path := NormalizePath(f.path);
    var kind := NormalizeKind(f.kind);
    var title := TrimSpace(f.title);
    f.(
    category := TrimSpace(f.category),
    severity := TrimSpace(f.severity),
    title := title,
    path := path,
    kind := if kind == "" && f.newLine.Some? && f.oldLine.None? then "new"
    else if kind == "" && f.oldLine.Some? && f.newLine.None? then "old"
    else kind,
    snippet := Join(Fields(f.snippet), " "),
    key := if TrimSpace(f.key) == "" then ToLower(title + "::" + NormalizePath(path)) else TrimSpace(f.key),
    symbol := TrimSpace(f.symbol))
  }

  function AnchorOf(f: Finding): AnchorPrint { AnchorPrint(f.path, f.kind, f.snippet, f.category, f.key) }

  function SemanticOf(f: Finding): SemanticPrint { SemanticPrint(f.path, f.category, f.key, f.symbol) }

  function IssueOf(f: Finding): Issue { Issue(f.path, f.category, f.key) }

  function RowIssue(r: Row): Issue { Issue(r.path, r.category, r.key) }

  const MIN_INT := -0x8000_0000_0000_0000

  function SeverityRank(severity: string): int {
    var s := ToLower(TrimSpace(severity));
    if s == "critical" then 4
    else if s == "high" then 3
    else if s == "medium" then 2
    else if s == "low" then 1
    else if s == "info" || s == "nit" then 0
    else MIN_INT
  }

  function Evaluate(f: Finding, t: Thresholds): Verdict {
    if NormalizeKind(f.kind) == "old_line" && f.oldLine.Some? && f.newLine.None? then AsDeleted
    else if f.confidence < t.confidence then AsFiltered
    else if SeverityRank(f.severity) < SeverityRank(t.severity) then AsFiltered
    else AsNew
  }

  predicate Reports(cs: seq<Candidate>, anchor: AnchorPrint) {
    exists i :: 0 <= i < |cs| && AnchorOf(cs[i].f) == anchor
  }

  /** A finding becomes a candidate unless its anchor was reported before. */
  function AddCandidate(cs: seq<Candidate>, f: Finding, t: Thresholds): seq<Candidate> {
    if Reports(cs, AnchorOf(f)) then cs else cs + [Candidate(f, Evaluate(f, t))]
  }

  /** Drops every finding whose anchor fingerprint was reported before, then evaluates the rest. */
  function Dedupe(fs: seq<Finding>, t: Thresholds): (cs: seq<Candidate>)
    ensures DistinctAnchors(cs)
  {
    if fs == [] then []
    else
      AddCandidate(Dedupe(fs[..|fs| - 1], t), fs[|fs| - 1], t)
  }

  function Normalized(reported: seq<Finding>): (fs: seq<Finding>)
    ensures |fs| == |reported| && forall i :: 0 <= i < |fs| ==> fs[i] == Normalize(reported[i])
  {
    seq(|reported|, i requires 0 <= i < |reported| => Normalize(reported[i]))
  }

  function Candidates(reported: seq<Finding>, t: Thresholds): seq<Candidate> { Dedupe(Normalized(reported), t) }

  predicate DistinctAnchors(cs: seq<Candidate>) {
    forall i, j :: 0 <= i < j < |cs| ==> AnchorOf(cs[i].f) != AnchorOf(cs[j].f)
  }

  // ----- The table

  predicate Live(r: Row) { r.state in {New, Posted, Active} }

  predicate LiveIn(rows: seq<Row>, mr: int, id: int) {
    0 <= id < |rows| && rows[id].mr == mr && Live(rows[id])
  }

  /** An answer of ListActiveFindingsByMR: the live rows of the merge request, in some order. */
  ghost predicate Listing(rows: seq<Row>, mr: int, order: seq<RowId>) {
    && (forall id :: id in order <==> LiveIn(rows, mr, id))
    && (forall i, j :: 0 <= i < j < |order| ==> order[i] != order[j])
  }

  function NewRow(run: RunId, mr: int, c: Candidate): Row {
    Row(run, mr, c.f.category, c.f.severity, c.f.confidence, c.f.title, c.f.path, c.f.kind, c.f.oldLine, c.f.newLine,
        c.f.snippet, c.f.key, AnchorOf(c.f), SemanticOf(c.f), if c.verdict == AsFiltered then Filtered else New,
        None, None)
  }

  // ----- Matching against the stale list

  predicate SeenBy(r: Row, run: RunId) { r.run == run || r.lastSeen == Some(run) }

  /** The pairs that neither fingerprint pass compares. */
  predicate NeverPaired(r: Row, c: Candidate) {
    && NormalizePath(r.path) == c.f.path
    && (|| (r.kind == "new_line" && c.verdict == AsDeleted)
        || (r.kind == "old_line" && c.verdict == AsDeleted)
        || (r.kind == "deleted" && c.f.kind == "old_line"))
  }

  predicate Relocatable(r: Row, f: Finding) { NormalizePath(r.path) == f.path && r.kind == f.kind }

  datatype Match =
    | AlreadySeen(id: RowId)
    | Touch(id: RowId)
    | Relocate(id: RowId)
    | Supersede(id: RowId)
    | Unmatched

  /** The semantic matcher's answers for one finding, if a matcher is configured. */
  type Oracle = Option<RowId -> bool>

  function First(order: seq<RowId>, p: RowId -> bool): (r: Option<RowId>)
    ensures r.Some? ==> r.value in order && p(r.value)
  {
    if order == [] then None
    else if p(order[0]) then Some(order[0])
    else First(order[1..], p)
  }

  lemma {:induction false} FirstFinds(order: seq<RowId>, p: RowId -> bool, id: RowId)
    requires id in order && p(id)
    ensures First(order, p).Some?
  {
    if !p(order[0]) {
      FirstFinds(order[1..], p, id);
    }
  }

  function AnchorHit(snap: seq<Row>, order: seq<RowId>, c: Candidate): Option<RowId> {
    First(order, (id: RowId) => id < |snap| && !NeverPaired(snap[id], c) && snap[id].anchor == AnchorOf(c.f))
  }

  function SemanticHit(snap: seq<Row>, order: seq<RowId>, run: RunId, c: Candidate): Option<RowId> {
    First(order, (id: RowId) => id < |snap| && !NeverPaired(snap[id], c) && snap[id].semantic == SemanticOf(c.f)
                       && !SeenBy(snap[id], run))
  }

  function OracleHit(snap: seq<Row>, order: seq<RowId>, run: RunId, c: Candidate, same: RowId -> bool): Option<RowId> {
    First(order, (id: RowId) => id < |snap| && NormalizePath(snap[id].path) == c.f.path && !SeenBy(snap[id], run)
      && same(id))
  }

  /** matchExistingFindingWithMatcher: anchor first, then meaning, then the oracle. */
  function MatchOf(snap: seq<Row>, order: seq<RowId>, run: RunId, c: Candidate, oracle: Oracle): (m: Match)
    ensures !m.Unmatched? ==> m.id in order && m.id < |snap|
  {
    var a := AnchorHit(snap, order, c);
    if a.Some? then if SeenBy(snap[a.value], run) then AlreadySeen(a.value) else Touch(a.value)
    else
      var s := SemanticHit(snap, order, run, c);
      if s.Some? then if Relocatable(snap[s.value], c.f) then Relocate(s.value) else Supersede(s.value)
      else if oracle.None? then Unmatched
      else
        var o := OracleHit(snap, order, run, c, oracle.value);
        if o.Some? then Supersede(o.value) else Unmatched
  }

  // ----- One pass over the candidates

  /** Everything that stays fixed during one run; matches depend on the stale list alone and are planned up front. */
  datatype Plan = Plan(
    snap: seq<Row>,
    order: seq<RowId>,
    run: RunId,
    mr: int,
    cs: seq<Candidate>,
    oracle: Option<(nat, RowId) -> bool>,
    matches: seq<Match>)

  predicate InList(m: Match, snap: seq<Row>, order: seq<RowId>) {
    !m.Unmatched? ==> m.id in order && m.id < |snap|
  }

  type Frame = p: Plan | |p.matches| == |p.cs|
    && forall k :: 0 <= k < |p.matches| ==> InList(p.matches[k], p.snap, p.order)
    witness Plan([], [], 0, 0, [], None, [])

  function OracleFor(oracle: Option<(nat, RowId) -> bool>, k: nat): Oracle {
    if oracle.None? then None else Some((id: RowId) => oracle.value(k, id))
  }

  function FrameFor(snap: seq<Row>, order: seq<RowId>, run: RunId, mr: int, cs: seq<Candidate>,
                    oracle: Option<(nat, RowId) -> bool>): Frame {
    Plan(snap, order, run, mr, cs, oracle,
         seq(|cs|, k requires 0 <= k < |cs| => MatchOf(snap, order, run, cs[k], OracleFor(oracle, k))))
  }

  /** Candidate k is matched as the code does. */
  predicate Planned(fr: Frame, k: nat)
    requires k < |fr.cs|
  {
    fr.matches[k] == MatchOf(fr.snap, fr.order, fr.run, fr.cs[k], OracleFor(fr.oracle, k))
  }

  ghost predicate ValidFrame(fr: Frame) {
    && Listing(fr.snap, fr.mr, fr.order) && DistinctAnchors(fr.cs)
    && forall k :: 0 <= k < |fr.cs| ==> Planned(fr, k)
  }

  datatype Work = Work(rows: seq<Row>, hits: set<RowId>)

  function MatchAt(fr: Frame, k: nat): (m: Match)
    requires k < |fr.cs|
    ensures !m.Unmatched? ==> m.id in fr.order && m.id < |fr.snap|
  {
    assert InList(fr.matches[k], fr.snap, fr.order);
    fr.matches[k]
  }

  predicate Inserts(m: Match) { m.Supersede? || m.Unmatched? }

  function Updated(r: Row, run: RunId, f: Finding, m: Match, newId: RowId): Row {
    match m
    case AlreadySeen(_) => r
    case Touch(_) => r.(lastSeen := Some(run))
    case Relocate(_) =>
      r.(path := f.path, kind := f.kind, oldLine := f.oldLine, newLine := f.newLine, snippet := f.snippet,
      anchor := AnchorOf(f), semantic := SemanticOf(f), lastSeen := Some(run))
    case Supersede(_) => r.(state := Superseded, matched := Some(newId))
    case Unmatched => r
  }

  function Apply(w: Work, run: RunId, mr: int, c: Candidate, m: Match): Work
    requires !m.Unmatched? ==> m.id < |w.rows|
  {
    var rows := if m.Unmatched? then w.rows else w.rows[m.id := Updated(w.rows[m.id], run, c.f, m, |w.rows|)];
    Work(if Inserts(m) then rows + [NewRow(run, mr, c)] else rows, if m.Unmatched? then w.hits else w.hits + {m.id})
  }

  /** The body of the loop over the candidates. */
  function Reconciled(w: Work, run: RunId, mr: int, c: Candidate, m: Match): Work
    requires !m.Unmatched? ==> m.id < |w.rows|
  {
    match c.verdict
    case AsFiltered => w.(rows := w.rows + [NewRow(run, mr, c)])
    case AsDeleted => w
    case AsNew => Apply(w, run, mr, c, m)
  }

  /** The table and the hit rows after the first n candidates. */
  function Process(fr: Frame, n: nat): (w: Work)
    requires n <= |fr.cs|
    ensures |fr.snap| <= |w.rows|
  {
    if n == 0 then Work(fr.snap, {})
    else
      var w := Process(fr, n - 1);
      var c := fr.cs[n - 1];
      Reconciled(w, fr.run, fr.mr, c, MatchAt(fr, n - 1))
  }

  // ----- Retiring what was not seen

  datatype Scope = Scope(reviewed: set<string>, deleted: set<string>)

  predicate EmptyScope(s: Scope) { s.reviewed == {} && s.deleted == {} }

  datatype Transition = Keep | Move(state: State) | Rejected

  function AllowedFrom(s: State): set<State> {
    match s
    case New => {Posted, Fixed, Superseded, Stale, Ignored}
    case Posted => {Active, Fixed, Superseded, Stale, Ignored}
    case Active => {Fixed, Superseded, Stale, Ignored}
    case _ => {}
  }

  function NextState(current: State, next: State): Transition {
    if current == next then Keep else if next in AllowedFrom(current) then Move(next) else Rejected
  }

  function TransitionMissing(r: Row, s: Scope, seenThisRun: bool): Transition {
    var path := NormalizePath(r.path);
    var kind := NormalizeKind(r.kind);
    if path in s.deleted && (kind == "old_line" || kind == "deleted") then NextState(r.state, Fixed)
    else if r.lastSeen.Some? && !seenThisRun then
      if path in s.reviewed then NextState(r.state, Fixed)
      else if EmptyScope(s) then Keep
      else NextState(r.state, Stale)
    else if r.lastSeen.Some? then Keep
    else if path in s.reviewed then NextState(r.state, Fixed)
    else if EmptyScope(s) then Keep
    else NextState(r.state, Stale)
  }

  datatype Outcome = Done(rows: seq<Row>) | Failed

  /** The body of the last loop: a listed row without a hit is retired, unless the transition is rejected. */
  function RetiredOne(o: Outcome, listed: Row, id: RowId, hits: set<RowId>, s: Scope): (o': Outcome)
    requires o.Done? ==> id < |o.rows|
    ensures o'.Done? ==> o.Done? && |o'.rows| == |o.rows|
  {
    if o.Failed? || id in hits then o
    else
      match TransitionMissing(listed, s, id in hits)
      case Rejected => Failed
      case Keep => o
      case Move(next) => Done(o.rows[id := o.rows[id].(state := next, matched := None)])
  }

  /** The last loop, over the first n listed rows. */
  function Retire(fr: Frame, s: Scope, w: Work, n: nat): (o: Outcome)
    requires n <= |fr.order|
    requires forall id :: id in fr.order ==> id < |fr.snap| <= |w.rows|
    ensures o.Done? ==> |o.rows| == |w.rows|
  {
    if n == 0 then Done(w.rows)
    else
      assert fr.order[n - 1] in fr.order;
      RetiredOne(Retire(fr, s, w, n - 1), fr.snap[fr.order[n - 1]], fr.order[n - 1], w.hits, s)
  }

  /** persistFindingsWithMatcher as a function of the listed table. */
  function Persist(fr: Frame, s: Scope): Outcome
    requires forall id :: id in fr.order ==> id < |fr.snap|
  {
    Retire(fr, s, Process(fr, |fr.cs|), |fr.order|)
  }
}
