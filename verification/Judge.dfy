/**
  The judge (internal/judge/engine.go): findings of all reviewers are merged by
  identity, the first of the most severe ones speaks for its group, and the
  verdict asks for changes when a merged finding is high or critical.
 */
module Judge {
  import opened Text
  import opened Hunks
  import opened DiffIndex

  datatype Identity = Identity(
    category: string, claim: string, evidence: string, standards: seq<string>, location: Location)

  datatype Finding = Finding(identity: Identity, severity: string, title: string, body: string)

  datatype Artifact = Artifact(reviewer: string, summary: string, findings: seq<Finding>)

  /** One finding with the reviewer who reported it. */
  datatype Report = Report(reviewer: string, finding: Finding)

  datatype Merged = Merged(finding: Finding, reviewers: seq<string>)

  datatype Decision = Decision(merged: seq<Merged>, verdict: string)

  const PASS := "pass"
  const REQUESTED_CHANGES := "requested_changes"

  // ----- Keys and severities

  function SideName(side: Side): string { if side == OldSide then "old" else "new" }

  function Itoa(n: int): string { if n < 0 then "-" + Show(-n) else Show(n) }

  function IntToString(n: int): string { if n == 0 then "" else Itoa(n) }

  function KeyParts(x: Identity): seq<string> {
    [x.category, x.claim, x.evidence, x.location.path, SideName(x.location.side),
     IntToString(x.location.startLine), IntToString(x.location.endLine)]
  }

  function IdentityKey(x: Identity): string { Join(KeyParts(x), "|") }

  function RankOf(level: string): nat {
    if level == "critical" then 4
    else if level == "high" then 3
    else if level == "medium" then 2
    else if level == "low" then 1
    else 0
  }

  function SeverityRank(severity: string): nat { RankOf(ToLower(TrimSpace(severity))) }

  /** The test of the verdict, which unlike the rank does not trim. */
  predicate Blocks(severity: string) { FoldsTo(severity, "high") || FoldsTo(severity, "critical") }

  // ----- Merging, for any way of giving findings a key

  type Keys = Identity -> string

  function AppendUnique(reviewers: seq<string>, reviewer: string): seq<string> {
    if reviewer in reviewers then reviewers else reviewers + [reviewer]
  }

  function KeyOf(r: Report, key: Keys): string { key(r.finding.identity) }

  function Rank(r: Report): nat { SeverityRank(r.finding.severity) }

  function Combine(current: Merged, r: Report): Merged {
    Merged(
      if Rank(r) > SeverityRank(current.finding.severity) then r.finding else current.finding,
      AppendUnique(current.reviewers, r.reviewer))
  }

  function AddReport(byIdentity: map<string, Merged>, r: Report, key: Keys): map<string, Merged> {
    var k := KeyOf(r, key);
    byIdentity[k := if k in byIdentity then Combine(byIdentity[k], r) else Merged(r.finding, [r.reviewer])]
  }

  function MergeInto(byIdentity: map<string, Merged>, rs: seq<Report>, key: Keys): map<string, Merged> {
    if rs == [] then byIdentity else AddReport(MergeInto(byIdentity, rs[..|rs| - 1], key), rs[|rs| - 1], key)
  }

  function MergeAll(rs: seq<Report>, key: Keys): map<string, Merged> { MergeInto(map[], rs, key) }

  function ReportsOf(a: Artifact): seq<Report> {
    seq(|a.findings|, i requires 0 <= i < |a.findings| => Report(a.reviewer, a.findings[i]))
  }

  /** All reports, in the order in which the judge meets them. */
  function Reports(artifacts: seq<Artifact>): seq<Report> {
    if artifacts == [] then [] else Reports(artifacts[..|artifacts| - 1]) + ReportsOf(artifacts[|artifacts| - 1])
  }

  function MergedKey(m: Merged, key: Keys): string { key(m.finding.identity) }

  predicate Listed(m: Merged, byIdentity: map<string, Merged>, key: Keys) {
    MergedKey(m, key) in byIdentity && byIdentity[MergedKey(m, key)] == m
  }

  /** The merged findings list every entry of the map once, in some order. */
  ghost predicate Enumerates(merged: seq<Merged>, byIdentity: map<string, Merged>, key: Keys) {
    && (forall i :: 0 <= i < |merged| ==> Listed(merged[i], byIdentity, key))
    && (forall i, j :: 0 <= i < j < |merged| ==> MergedKey(merged[i], key) != MergedKey(merged[j], key))
    && (forall k :: k in byIdentity ==> byIdentity[k] in merged)
  }

  predicate AnyBlocks(merged: seq<Merged>) {
    exists i :: 0 <= i < |merged| && Blocks(merged[i].finding.severity)
  }

  function VerdictOf(merged: seq<Merged>): string { if AnyBlocks(merged) then REQUESTED_CHANGES else PASS }

  /** appendUnique. */
  method AddReviewer(values: seq<string>, value: string) returns (r: seq<string>)
    ensures r == AppendUnique(values, value)
  {
    for i := 0 to |values|
      invariant value !in values[..i]
    {
      if values[i] == value {
        return values;
      }
    }
    return values + [value];
  }

  /** The body of the inner loop. */
  method MergeReport(byIdentity: map<string, Merged>, reviewer: string, finding: Finding, key: Keys)
    returns (r: map<string, Merged>)
    ensures r == AddReport(byIdentity, Report(reviewer, finding), key)
  {
    var k := key(finding.identity);
    if k !in byIdentity {
      return byIdentity[k := Merged(finding, [reviewer])];
    }
    var current := byIdentity[k];
    if SeverityRank(finding.severity) > SeverityRank(current.finding.severity) {
      current := current.(finding := finding);
    }
    var reviewers := AddReviewer(current.reviewers, reviewer);
    return byIdentity[k := current.(reviewers := reviewers)];
  }

  method MergeArtifact(byIdentity: map<string, Merged>, artifact: Artifact, key: Keys) returns (r: map<string, Merged>)
    ensures r == MergeInto(byIdentity, ReportsOf(artifact), key)
  {
    r := byIdentity;
    ghost var own := ReportsOf(artifact);
    for j := 0 to |artifact.findings|
      invariant r == MergeInto(byIdentity, own[..j], key)
    {
      assert own[..j + 1][..j] == own[..j];
      r := MergeReport(r, artifact.reviewer, artifact.findings[j], key);
    }
    assert own[..|artifact.findings|] == own;
  }

  lemma {:induction false} MergeInTurn(byIdentity: map<string, Merged>, rs: seq<Report>, more: seq<Report>, key: Keys)
    ensures MergeInto(byIdentity, rs + more, key) == MergeInto(MergeInto(byIdentity, rs, key), more, key)
  {
    if more == [] {
      assert rs + more == rs;
    } else {
      assert (rs + more)[..|rs + more| - 1] == rs + more[..|more| - 1];
      MergeInTurn(byIdentity, rs, more[..|more| - 1], key);
    }
  }

  method MergeReports(artifacts: seq<Artifact>, key: Keys) returns (byIdentity: map<string, Merged>)
    ensures byIdentity == MergeAll(Reports(artifacts), key)
  {
    byIdentity := map[];
    for i := 0 to |artifacts|
      invariant byIdentity == MergeAll(Reports(artifacts[..i]), key)
    {
      assert artifacts[..i + 1][..i] == artifacts[..i];
      MergeInTurn(map[], Reports(artifacts[..i]), ReportsOf(artifacts[i]), key);
      byIdentity := MergeArtifact(byIdentity, artifacts[i], key);
    }
    assert artifacts[..|artifacts|] == artifacts;
  }

  /** An entry is filed under the key of the finding that speaks for it. */
  lemma {:induction false} FiledUnderItsKey(rs: seq<Report>, key: Keys, k: string)
    requires k in MergeAll(rs, key)
    ensures MergedKey(MergeAll(rs, key)[k], key) == k
  {
    var before := rs[..|rs| - 1];
    if k in MergeAll(before, key) {
      FiledUnderItsKey(before, key, k);
    }
  }

  lemma {:induction false} BlocksAppend(merged: seq<Merged>, m: Merged)
    ensures AnyBlocks(merged + [m]) <==> AnyBlocks(merged) || Blocks(m.finding.severity)
  {
    var longer := merged + [m];
    assert longer[|merged|] == m;
    if AnyBlocks(merged) {
      var i :| 0 <= i < |merged| && Blocks(merged[i].finding.severity);
      assert longer[i] == merged[i];
    }
  }

  /** The second loop of Decide, which reads the map out in any order. */
  method ReadOut(byIdentity: map<string, Merged>, key: Keys) returns (d: Decision)
    requires forall k :: k in byIdentity ==> MergedKey(byIdentity[k], key) == k
    ensures Enumerates(d.merged, byIdentity, key) && d.verdict == VerdictOf(d.merged)
  {
    d := Decision([], PASS);
    var keys := byIdentity.Keys;
    while keys != {}
      invariant keys <= byIdentity.Keys
      invariant forall i :: 0 <= i < |d.merged| ==>
        Listed(d.merged[i], byIdentity, key) && MergedKey(d.merged[i], key) !in keys
      invariant forall i, j :: 0 <= i < j < |d.merged| ==> MergedKey(d.merged[i], key) != MergedKey(d.merged[j], key)
      invariant forall k :: k in byIdentity ==> k in keys || byIdentity[k] in d.merged
      invariant d.verdict == VerdictOf(d.merged)
    {
      var k :| k in keys;
      var item := byIdentity[k];
      BlocksAppend(d.merged, item);
      d := d.(merged := d.merged + [item]);
      if Blocks(item.finding.severity) {
        d := d.(verdict := REQUESTED_CHANGES);
      }
      keys := keys - {k};
    }
    if d.merged == [] {
      d := d.(verdict := PASS);
    }
  }

  method Decide(artifacts: seq<Artifact>) returns (d: Decision)
    ensures Enumerates(d.merged, MergeAll(Reports(artifacts), IdentityKey), IdentityKey)
      && d.verdict == VerdictOf(d.merged)
  {
    var byIdentity := MergeReports(artifacts, IdentityKey);
    forall k | k in byIdentity ensures MergedKey(byIdentity[k], IdentityKey) == k {
      FiledUnderItsKey(Reports(artifacts), IdentityKey, k);
    }
    d := ReadOut(byIdentity, IdentityKey);
  }
}
