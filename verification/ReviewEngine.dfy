/**
  One review from packs to bundle (Engine.Run of internal/reviewcore/engine.go):
  the judge's verdict passes the coverage gate, and the summary and every merged
  finding become candidates for publication.
 */
module ReviewEngine {
  import opened Text
  import opened Hunks
  import opened DiffIndex
  import opened Judge

  datatype CoverageReport = CoverageReport(
    totalLines: nat, reviewedLines: nat, hunksTotal: nat, reviewedPaths: seq<string>, ratio: real)

  datatype Coverage = Coverage(ratio: real, threshold: real, incomplete: bool)

  datatype PackResult = Ran(artifact: Artifact) | Failed(error: string)

  datatype Candidate = Candidate(finding: Finding, placement: Placement)

  /** `summary` is the candidate that comes first, unless there is nothing to say. */
  datatype Bundle = Bundle(
    artifacts: seq<Artifact>, verdict: string, coverage: Option<Coverage>, summary: Option<string>,
      candidates: seq<Candidate>)

  /** The wording: the judge's summary of a decision, and the lines below the heading of the coverage note. */
  datatype Texts = Texts(summarize: Decision -> string, note: Coverage -> string)

  datatype RunResult = Finished(bundle: Bundle) | PackFailed(error: string)

  const INCOMPLETE := "incomplete"
  const DEFAULT_THRESHOLD := 0.8

  // ----- The coverage gate

  function ThresholdOf(threshold: real): (t: real)
    ensures 0.0 < t <= 1.0
  {
    if threshold <= 0.0 || threshold > 1.0 then DEFAULT_THRESHOLD else threshold
  }

  /** coverageSummaryFromInput; no summary when the input carries no report. */
  function CoverageOf(report: CoverageReport, threshold: real): Option<Coverage> {
    if report.totalLines == 0 && report.hunksTotal == 0 && report.reviewedPaths == [] then None
    else
      var t := ThresholdOf(threshold);
      var ratio :=
        if report.totalLines > 0 then report.reviewedLines as real / report.totalLines as real
        else if report.ratio == 0.0 then 1.0
        else report.ratio;
      Some(Coverage(ratio, t, ratio < t))
  }

  predicate Clean(verdict: string) {
    var v := ToLower(TrimSpace(verdict));
    v == "" || v == "pass" || v == "passed" || v == "approved"
  }

  function Gate(verdict: string, coverage: Option<Coverage>): string {
    if coverage.Some? && coverage.value.incomplete && Clean(verdict) then INCOMPLETE else verdict
  }

  // ----- The summary

  const UNREVIEWED_HEADING := "### \U{672A}\U{8BC4}\U{5BA1}\U{8303}\U{56F4}\n\n"

  /** appendCoverageNote. */
  function WithNote(summary: string, note: string): string {
    (if TrimSpace(summary) == "" then "" else TrimNewlines(summary) + "\n\n") + UNREVIEWED_HEADING + note
  }

  function SummaryOf(summary: string, coverage: Option<Coverage>, texts: Texts): Option<string> {
    var s := if coverage.Some?
      && coverage.value.incomplete then WithNote(summary, texts.note(coverage.value)) else summary;
    if s == "" then None else Some(s)
  }

  // ----- The run

  predicate Blank(a: Artifact) { a.reviewer == "" && a.summary == "" && a.findings == [] }

  predicate AllRan(packs: seq<PackResult>) { forall i :: 0 <= i < |packs| ==> packs[i].Ran? }

  /** The artifacts that say something. */
  function Collected(packs: seq<PackResult>): seq<Artifact>
    requires AllRan(packs)
  {
    if packs == [] then []
    else
      var a := packs[|packs| - 1].artifact;
      Collected(packs[..|packs| - 1]) + if Blank(a) then [] else [a]
  }

  function CandidateOf(files: map<string, FileIndex>, m: Merged): Candidate {
    Candidate(m.finding, PlacementOf(files, m.finding.identity.location))
  }

  function Candidates(files: map<string, FileIndex>, merged: seq<Merged>): seq<Candidate> {
    seq(|merged|, i requires 0 <= i < |merged| => CandidateOf(files, merged[i]))
  }

  /** Verdict, summary and candidates follow from the decision on the artifacts, for some order of its findings. */
  ghost predicate Judged(b: Bundle, artifacts: seq<Artifact>, changes: seq<Change>, texts: Texts, key: Keys) {
    exists merged ::
      && Enumerates(merged, MergeAll(Reports(artifacts), key), key)
      && b.verdict == Gate(VerdictOf(merged), b.coverage)
      && b.summary == SummaryOf(texts.summarize(Decision(merged, VerdictOf(merged))), b.coverage, texts)
      && b.candidates == Candidates(IndexOf(changes), merged)
  }

  /** The bundle a review of these artifacts may end with. */
  ghost predicate BundleOf(
    b: Bundle, artifacts: seq<Artifact>, changes: seq<Change>, report: CoverageReport, threshold: real, texts: Texts)
  {
    b.artifacts == artifacts && b.coverage == CoverageOf(report, threshold)
      && Judged(b, artifacts, changes, texts, IdentityKey)
  }

  /** The first failure stops the run. */
  ghost predicate FailsFirst(packs: seq<PackResult>, error: string) {
    exists i :: 0 <= i < |packs| && packs[i] == Failed(error) && AllRan(packs[..i])
  }

  method CollectArtifacts(packs: seq<PackResult>) returns (artifacts: seq<Artifact>, error: Option<string>)
    ensures error.None? ==> AllRan(packs) && artifacts == Collected(packs)
    ensures error.Some? ==> FailsFirst(packs, error.value)
  {
    artifacts, error := [], None;
    for i := 0 to |packs|
      invariant AllRan(packs[..i]) && artifacts == Collected(packs[..i])
    {
      if packs[i].Failed? {
        error := Some(packs[i].error);
        return;
      }
      assert packs[..i + 1][..i] == packs[..i];
      if Blank(packs[i].artifact) {
        continue;
      }
      artifacts := artifacts + [packs[i].artifact];
    }
    assert packs[..|packs|] == packs;
  }

  method PlaceFindings(changes: seq<Change>, merged: seq<Merged>) returns (candidates: seq<Candidate>)
    ensures candidates == Candidates(IndexOf(changes), merged)
  {
    var files := BuildChangedLineIndex(changes);
    candidates := [];
    for i := 0 to |merged|
      invariant candidates == Candidates(files, merged)[..i]
    {
      candidates := candidates + [CandidateOf(files, merged[i])];
    }
  }

  /** Engine.Run, given what each pack returns. */
  method Run(packs: seq<PackResult>, changes: seq<Change>, report: CoverageReport, threshold: real, texts: Texts)
    returns (r: RunResult)
    ensures r.Finished? <==> AllRan(packs)
    ensures r.Finished? ==> BundleOf(r.bundle, Collected(packs), changes, report, threshold, texts)
    ensures r.PackFailed? ==> FailsFirst(packs, r.error)
  {
    var artifacts, error := CollectArtifacts(packs);
    if error.Some? {
      return PackFailed(error.value);
    }
    var decision := Decide(artifacts);
    var coverage := CoverageOf(report, threshold);
    var verdict := Gate(decision.verdict, coverage);
    var summary := SummaryOf(texts.summarize(decision), coverage, texts);
    var candidates := PlaceFindings(changes, decision.merged);
    return Finished(Bundle(artifacts, verdict, coverage, summary, candidates));
  }
}
