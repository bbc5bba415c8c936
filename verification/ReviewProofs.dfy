/** From diffs to verdict: what a pass, a request for changes and an inline comment rest on. */
module ReviewProofs {
  import opened Text
  import opened TextProofs
  import opened Hunks
  import opened Assembler
  import opened AssemblerProofs
  import opened DiffIndex
  import opened DiffIndexProofs
  import opened Judge
  import opened JudgeProofs
  import opened ReviewEngine

  /** The report the assembler hands to the engine. */
  function ReportOn(a: Assembly): CoverageReport {
    CoverageReport(a.totalLines, a.reviewedLines, a.hunksTotal, a.reviewedPaths, RatioOf(a))
  }

  // ----- The gate

  lemma {:induction false} WordKept(word: string)
    requires word != "" && forall i :: 0 <= i < |word| ==> 'a' <= word[i] <= 'z'
    ensures ToLower(TrimSpace(word)) == word
  {
    FoldedWord(word, word);
  }

  lemma {:induction false} TrimmedLength(s: string)
    requires s != "" && !IsSpace(s[0]) && !IsSpace(s[|s| - 1])
    ensures |ToLower(TrimSpace(s))| == |s|
  {
    assert TrimLeft(s) == s;
  }

  /** Of the judge's two verdicts only the pass can be downgraded. */
  lemma {:induction false} CleanVerdicts()
    ensures Clean(PASS) && !Clean(REQUESTED_CHANGES)
  {
    WordKept(PASS);
    TrimmedLength(REQUESTED_CHANGES);
  }

  /** The verdicts that count as clean: none, and these three words in any case and padding. */
  lemma {:induction false} CleanIff(verdict: string)
    ensures Clean(verdict) <==>
      AllSpace(verdict) || Says(verdict, "pass") || Says(verdict, "passed") || Says(verdict, "approved")
  {
    BlankIff(verdict);
    SaidIff(verdict, "pass");
    SaidIff(verdict, "passed");
    SaidIff(verdict, "approved");
    var trimmed := TrimSpace(verdict);
    assert |ToLower(trimmed)| == |trimmed|;
  }

  lemma {:induction false} RatioBelow(reviewed: nat, total: nat, t: real)
    requires total > 0
    ensures reviewed as real / total as real < t <==> reviewed as real < t * total as real
  {
    var n := total as real;
    var ratio := reviewed as real / n;
    assert ratio * n == reviewed as real;
    if ratio < t {
      assert (t - ratio) * n > 0.0;
    } else {
      assert (ratio - t) * n >= 0.0;
    }
  }

  /** The share that must be reviewed: the threshold if it is one, and otherwise four fifths. */
  function Share(threshold: real): real { if 0.0 < threshold <= 1.0 then threshold else 0.8 }

  predicate Reaches(reviewed: nat, total: nat, threshold: real) {
    reviewed as real >= Share(threshold) * total as real
  }

  /** Whether any report is incomplete; one without changed lines goes by its ratio, of which zero means not given. */
  lemma {:induction false} IncompleteIff(report: CoverageReport, threshold: real)
    ensures
      var c := CoverageOf(report, threshold);
      c.Some? && c.value.incomplete <==>
        if report.totalLines > 0 then !Reaches(report.reviewedLines, report.totalLines, threshold)
        else
          && (report.hunksTotal > 0 || report.reviewedPaths != [])
          && report.ratio != 0.0 && report.ratio < Share(threshold)
    ensures
      var c := CoverageOf(report, threshold);
      c.Some? ==>
        && c.value.threshold == Share(threshold)
        && (report.totalLines > 0 ==> c.value.ratio * report.totalLines as real == report.reviewedLines as real)
  {
    if report.totalLines > 0 {
      RatioBelow(report.reviewedLines, report.totalLines, Share(threshold));
    }
  }

  /** The gate closes on an assembled request exactly when too few of its changed lines were reviewed. */
  lemma {:induction false} GateClosesIff(a: Assembly, threshold: real)
    requires a.reviewedLines <= a.totalLines
    ensures
      var c := CoverageOf(ReportOn(a), threshold);
      c.Some? && c.value.incomplete <==> !Reaches(a.reviewedLines, a.totalLines, threshold)
  {
    IncompleteIff(ReportOn(a), threshold);
  }

  // ----- End to end

  /** The three verdicts of a review. */
  function FinalVerdict(requested: bool, covered: bool): (v: string)
    ensures v == PASS <==> !requested && covered
    ensures v == REQUESTED_CHANGES <==> requested
  {
    assert |PASS| == 4 && |INCOMPLETE| == 10 && |REQUESTED_CHANGES| == 17;
    if requested then REQUESTED_CHANGES else if covered then PASS else INCOMPLETE
  }

  lemma {:induction false} Gated(requested: bool, c: Option<Coverage>)
    ensures Gate(if requested then REQUESTED_CHANGES else PASS, c) == FinalVerdict(requested, c.None?
      || !c.value.incomplete)
  {
    CleanVerdicts();
  }

  lemma {:induction false} MergedVerdict(rs: seq<Report>, key: Keys, merged: seq<Merged>, c: Option<Coverage>)
    requires Enumerates(merged, MergeAll(rs, key), key)
    ensures
      var v, covered := Gate(VerdictOf(merged), c), c.None? || !c.value.incomplete;
      v == FinalVerdict(Requested(rs, key), covered) && (AllPlain(rs) ==> v == FinalVerdict(Severe(rs), covered))
  {
    Gated(AnyBlocks(merged), c);
    RequestedIff(rs, key, merged);
    if AllPlain(rs) {
      PlainVerdict(rs, key, merged);
    }
  }

  /** The verdict of a bundle, whatever the order of its merged findings. */
  lemma {:induction false} JudgedVerdict(
    b: Bundle, artifacts: seq<Artifact>, changes: seq<Change>, texts: Texts, key: Keys)
    requires Judged(b, artifacts, changes, texts, key)
    ensures
      var rs, covered := Reports(artifacts), b.coverage.None? || !b.coverage.value.incomplete;
      && b.verdict == FinalVerdict(Requested(rs, key), covered)
      && (AllPlain(rs) ==> b.verdict == FinalVerdict(Severe(rs), covered))
  {
    var rs := Reports(artifacts);
    var merged :| Enumerates(merged, MergeAll(rs, key), key)
      && b.verdict == Gate(VerdictOf(merged), b.coverage) && b.candidates == Candidates(IndexOf(changes), merged)
      && b.summary == SummaryOf(texts.summarize(Decision(merged, VerdictOf(merged))), b.coverage, texts);
    MergedVerdict(rs, key, merged, b.coverage);
  }

  // ----- From packs to reports

  /** Every finding of every pack with the pack's reviewer, in order. */
  function PackReports(packs: seq<PackResult>): seq<Report>
    requires AllRan(packs)
  {
    if packs == [] then []
    else
      var a := packs[|packs| - 1].artifact;
      PackReports(packs[..|packs| - 1])
      + seq(|a.findings|, j requires 0 <= j < |a.findings| => Report(a.reviewer, a.findings[j]))
  }

  /** No finding of any pack is dropped or changed on the way to the judge. */
  lemma {:induction false} AllFindingsJudged(packs: seq<PackResult>)
    requires AllRan(packs)
    ensures Reports(Collected(packs)) == PackReports(packs)
  {
    if packs != [] {
      var before, a := packs[..|packs| - 1], packs[|packs| - 1].artifact;
      AllFindingsJudged(before);
      if Collected(packs) != Collected(before) {
        assert Collected(packs)[..|Collected(before)|] == Collected(before);
      } else {
        assert a.findings == [];
      }
    }
  }

  /** An artifact is kept exactly when it names its reviewer, has a summary or has a finding. */
  lemma {:induction false} CollectedIff(packs: seq<PackResult>, a: Artifact)
    requires AllRan(packs)
    ensures a in Collected(packs) <==>
      (a.reviewer != "" || a.summary != "" || a.findings != []) && Ran(a) in packs
  {
    if packs != [] {
      var before, last := packs[..|packs| - 1], packs[|packs| - 1];
      CollectedIff(before, a);
      assert packs == before + [last];
      assert last == Ran(last.artifact);
    }
  }

  /**
    For all diffs, packs and thresholds: changes are requested exactly when a
    finding of some pack blocks unmasked; otherwise the verdict is a pass exactly
    when the reviewed lines reach the threshold times all changed lines of the
    diffs, of which the rest is listed as skipped. With plain severities, changes
    are requested exactly when some finding is high or critical.
   */
  lemma {:induction false} VerdictEndToEnd(
    diffs: seq<Diff>, s: Settings, a: Assembly, packs: seq<PackResult>, changes: seq<Change>, threshold: real,
    texts: Texts, b: Bundle)
    requires s.maxChangedLines >= 0 && s.maxFiles >= 0 && AssembleAll(diffs, s) == Assembled(a) && AllRan(packs)
    requires BundleOf(b, Collected(packs), changes, ReportOn(a), threshold, texts)
    ensures
      var rs, covered := PackReports(packs), Reaches(a.reviewedLines, DiffsSum(diffs), threshold);
      && b.verdict == FinalVerdict(Requested(rs, IdentityKey), covered)
      && (AllPlain(rs) ==> b.verdict == FinalVerdict(Severe(rs), covered))
    ensures DiffsSum(diffs) == a.reviewedLines + SkippedSum(a.skipped)
  {
    AllFindingsJudged(packs);
    CoverageConserved(diffs, s);
    GateClosesIff(a, threshold);
    JudgedVerdict(b, Collected(packs), changes, texts, IdentityKey);
  }

  /** A review that saw too little always publishes a summary, and it ends with the note on what was not reviewed. */
  lemma {:induction false} IncompleteIsSaid(
    artifacts: seq<Artifact>, changes: seq<Change>, report: CoverageReport, threshold: real, texts: Texts, b: Bundle)
    requires BundleOf(b, artifacts, changes, report, threshold, texts) && b.coverage.Some?
      && b.coverage.value.incomplete
    ensures b.summary.Some?
    ensures exists front: string :: b.summary.value == front + (UNREVIEWED_HEADING + texts.note(b.coverage.value))
  {
    IncompleteSummary(b, artifacts, changes, texts, IdentityKey);
  }

  lemma {:induction false} IncompleteSummary(
    b: Bundle, artifacts: seq<Artifact>, changes: seq<Change>, texts: Texts, key: Keys)
    requires Judged(b, artifacts, changes, texts, key) && b.coverage.Some? && b.coverage.value.incomplete
    ensures b.summary.Some?
    ensures exists front: string :: b.summary.value == front + (UNREVIEWED_HEADING + texts.note(b.coverage.value))
  {
    var merged :| Enumerates(merged, MergeAll(Reports(artifacts), key), key)
      && b.verdict == Gate(VerdictOf(merged), b.coverage) && b.candidates == Candidates(IndexOf(changes), merged)
      && b.summary == SummaryOf(texts.summarize(Decision(merged, VerdictOf(merged))), b.coverage, texts);
    NoteIsLast(texts.summarize(Decision(merged, VerdictOf(merged))), texts.note(b.coverage.value));
  }

  /** The judge's summary is published as it is, or with the note behind it; without either there is none. */
  lemma {:induction false} SummarySaid(summary: string, coverage: Option<Coverage>, texts: Texts)
    ensures
      var s, incomplete := SummaryOf(summary, coverage, texts), coverage.Some? && coverage.value.incomplete;
      && (s.None? <==> summary == "" && !incomplete)
      && (!incomplete && summary != "" ==> s == Some(summary))
      && (incomplete ==>
            var front := if AllSpace(summary) then "" else TrimNewlines(summary) + "\n\n";
            s == Some(front + (UNREVIEWED_HEADING + texts.note(coverage.value))))
  {
    BlankIff(summary);
    if coverage.Some? && coverage.value.incomplete {
      var note := texts.note(coverage.value);
      NoteIsLast(summary, note);
      var front := if AllSpace(summary) then "" else TrimNewlines(summary) + "\n\n";
      assert WithNote(summary, note) == front + (UNREVIEWED_HEADING + note);
    }
  }

  lemma {:induction false} NoteIsLast(summary: string, note: string)
    ensures WithNote(summary, note) != ""
    ensures exists front: string :: WithNote(summary, note) == front + (UNREVIEWED_HEADING + note)
  {
    var front := if TrimSpace(summary) == "" then "" else TrimNewlines(summary) + "\n\n";
    assert WithNote(summary, note) == front + (UNREVIEWED_HEADING + note);
    assert |UNREVIEWED_HEADING| > 0;
  }

  /**
    No finding is lost between a pack and publication: every finding of every
    pack has exactly one candidate with its key, which carries the finding that
    speaks for the group, placed by its own location.
   */
  lemma {:induction false} EveryReportPublished(
    packs: seq<PackResult>, changes: seq<Change>, report: CoverageReport, threshold: real, texts: Texts, b: Bundle,
    i: nat)
    returns (c: nat, w: nat)
    requires AllRan(packs) && BundleOf(b, Collected(packs), changes, report, threshold, texts)
    requires i < |PackReports(packs)|
    ensures Speaks(PackReports(packs), IdentityKey, KeyOf(PackReports(packs)[i], IdentityKey), w)
    ensures c < |b.candidates| && b.candidates[c].finding == PackReports(packs)[w].finding
    ensures b.candidates[c].placement == PlacementOf(IndexOf(changes), b.candidates[c].finding.identity.location)
    ensures forall d :: 0 <= d < |b.candidates| && d != c ==>
      IdentityKey(b.candidates[d].finding.identity) != KeyOf(PackReports(packs)[i], IdentityKey)
  {
    AllFindingsJudged(packs);
    c, w := JudgedPublished(b, Collected(packs), changes, texts, IdentityKey, i);
  }

  lemma {:induction false} JudgedPublished(
    b: Bundle, artifacts: seq<Artifact>, changes: seq<Change>, texts: Texts, key: Keys, i: nat)
    returns (c: nat, w: nat)
    requires Judged(b, artifacts, changes, texts, key) && i < |Reports(artifacts)|
    ensures Speaks(Reports(artifacts), key, KeyOf(Reports(artifacts)[i], key), w)
    ensures c < |b.candidates| && b.candidates[c].finding == Reports(artifacts)[w].finding
    ensures b.candidates[c].placement == PlacementOf(IndexOf(changes), b.candidates[c].finding.identity.location)
    ensures forall d :: 0 <= d < |b.candidates| && d != c ==>
      key(b.candidates[d].finding.identity) != KeyOf(Reports(artifacts)[i], key)
  {
    var rs := Reports(artifacts);
    var merged :| Enumerates(merged, MergeAll(rs, key), key)
      && b.verdict == Gate(VerdictOf(merged), b.coverage) && b.candidates == Candidates(IndexOf(changes), merged)
      && b.summary == SummaryOf(texts.summarize(Decision(merged, VerdictOf(merged))), b.coverage, texts);
    c, w := PublishedOnce(rs, key, merged, i);
    forall d | 0 <= d < |b.candidates| && d != c
      ensures key(b.candidates[d].finding.identity) != KeyOf(rs[i], key)
    {
      assert MergedKey(merged[d], key) != KeyOf(rs[i], key);
    }
  }

  /** And nothing else is published: every candidate carries a finding of some pack. */
  lemma {:induction false} OnlyReportsPublished(
    packs: seq<PackResult>, changes: seq<Change>, report: CoverageReport, threshold: real, texts: Texts, b: Bundle,
    c: nat)
    returns (i: nat)
    requires AllRan(packs) && BundleOf(b, Collected(packs), changes, report, threshold, texts) && c < |b.candidates|
    ensures i < |PackReports(packs)| && PackReports(packs)[i].finding == b.candidates[c].finding
  {
    AllFindingsJudged(packs);
    i := JudgedOrigin(b, Collected(packs), changes, texts, IdentityKey, c);
  }

  lemma {:induction false} JudgedOrigin(
    b: Bundle, artifacts: seq<Artifact>, changes: seq<Change>, texts: Texts, key: Keys, c: nat)
    returns (i: nat)
    requires Judged(b, artifacts, changes, texts, key) && c < |b.candidates|
    ensures i < |Reports(artifacts)| && Reports(artifacts)[i].finding == b.candidates[c].finding
  {
    var rs := Reports(artifacts);
    var merged :| Enumerates(merged, MergeAll(rs, key), key)
      && b.verdict == Gate(VerdictOf(merged), b.coverage) && b.candidates == Candidates(IndexOf(changes), merged)
      && b.summary == SummaryOf(texts.summarize(Decision(merged, VerdictOf(merged))), b.coverage, texts);
    assert Listed(merged[c], MergeAll(rs, key), key);
    i := GroupSpeaker(rs, key, MergedKey(merged[c], key));
  }

  lemma {:induction false} PublishedOnce(rs: seq<Report>, key: Keys, merged: seq<Merged>, i: nat)
    returns (c: nat, w: nat)
    requires Enumerates(merged, MergeAll(rs, key), key) && i < |rs|
    ensures Speaks(rs, key, KeyOf(rs[i], key), w) && c < |merged| && merged[c].finding == rs[w].finding
    ensures forall d :: 0 <= d < |merged| && d != c ==> MergedKey(merged[d], key) != KeyOf(rs[i], key)
  {
    var k := KeyOf(rs[i], key);
    FiledWhenReported(rs, key, i);
    w := GroupSpeaker(rs, key, k);
    c :| c < |merged| && merged[c] == MergeAll(rs, key)[k];
    FiledUnderItsKey(rs, key, k);
  }

  ghost predicate ChangedOn(h: ParsedHunk, side: Side, x: int) {
    if side == OldSide then OldLineAt(h.oldStart, h.lines, x) else NewLineAt(h.newStart, h.lines, x)
  }

  /**
    Every location on a changed line of any hunk of an assembled request,
    truncated or not, is accepted on its own side, when the lines of the hunk are
    regular.
   */
  lemma {:induction false} AssembledLinesAccepted(diffs: seq<Diff>, s: Settings, loc: Location, c: nat, k: nat)
    returns (h: ParsedHunk)
    requires s.maxChangedLines >= 0 && s.maxFiles >= 0 && AssembleAll(diffs, s).Assembled?
    requires Owner(RequestOf(AssembleAll(diffs, s).a), loc.path, c) && TrimSpace(loc.path) == loc.path
    requires k < |RequestOf(AssembleAll(diffs, s).a)[c].hunks| && loc.startLine >= 1 && loc.endLine <= loc.startLine
    ensures
      var hunk := RequestOf(AssembleAll(diffs, s).a)[c].hunks[k];
      hunk == ToHunk(h).(truncated := hunk.truncated)
    ensures AllRegular(h.lines) && ChangedOn(h, loc.side, loc.startLine) ==>
      Verify(IndexOf(RequestOf(AssembleAll(diffs, s).a)), loc) == InDiff
  {
    h := RequestPrinted(diffs, s, c, k);
    var changes := RequestOf(AssembleAll(diffs, s).a);
    if AllRegular(h.lines) && ChangedOn(h, loc.side, loc.startLine) {
      if changes[c].hunks[k].truncated {
        TruncatedLinesAccepted(changes, loc, c, k, h);
      } else if loc.side == OldSide {
        DeletedLinesAccepted(changes, loc, c, k, h);
      } else {
        AddedLinesAccepted(changes, loc, c, k, h);
      }
    }
  }

  // ----- What the request holds

  /** The changed lines in the text of some hunks. */
  function HunkTextSum(hunks: seq<Hunk>): nat {
    if hunks == [] then 0 else HunkTextSum(hunks[..|hunks| - 1]) + ChangedLines(Body(hunks[|hunks| - 1]))
  }

  /** The changed lines in the text of a request. */
  function TextSum(changes: seq<Change>): nat {
    if changes == [] then 0 else TextSum(changes[..|changes| - 1]) + HunkTextSum(changes[|changes| - 1].hunks)
  }

  /** Every hunk is rendered with the text and the counts of its own lines. */
  lemma {:induction false} RenderedLines(k: Kept)
    requires WellFormed(k.h)
    ensures Body(Render(k)) == k.h.lines && Render(k).changedLines == ChangedLines(k.h.lines)
    ensures Render(k).truncated == k.truncated
  {
    PatchWalked(k.h);
  }

  lemma {:induction false} HunksHold(ks: seq<Kept>, hunks: seq<Hunk>)
    requires |hunks| == |ks| && forall i :: 0 <= i < |ks| ==> WellFormed(ks[i].h) && hunks[i] == Render(ks[i])
    ensures HunkTextSum(hunks) == KeptSum(ks)
  {
    if ks != [] {
      var n := |ks| - 1;
      HunksHold(ks[..n], hunks[..n]);
      RenderedLines(ks[n]);
    }
  }

  lemma {:induction false} ChangesHold(cs: seq<FileChange>, changes: seq<Change>)
    requires |changes| == |cs|
    requires forall i :: 0 <= i < |cs| ==>
      AllWellFormed(cs[i]) && changes[i] == RenderChange(cs[i]) && cs[i].changedLines == KeptSum(cs[i].hunks)
    ensures TextSum(changes) == ChangesSum(cs)
  {
    if cs != [] {
      var n := |cs| - 1;
      ChangesHold(cs[..n], changes[..n]);
      HunksHold(cs[n].hunks, changes[n].hunks);
    }
  }

  /** Every change of a request carries the paths of its diff, and counts the changed lines in its own text. */
  lemma {:induction false} RequestMade(diffs: seq<Diff>, s: Settings, a: Assembly) returns (ps: seq<nat>)
    requires s.maxChangedLines >= 0 && s.maxFiles >= 0 && AssembleAll(diffs, s) == Assembled(a)
    ensures |RequestOf(a)| == |ps| && forall i, j :: 0 <= i < j < |ps| ==> ps[i] < ps[j]
    ensures forall i :: 0 <= i < |ps| ==>
      var c := RequestOf(a)[i];
      && ps[i] < |diffs| && c.path == diffs[ps[i]].path && c.oldPath == diffs[ps[i]].oldPath
      && c.truncated == a.changes[i].truncated && c.changedLines == HunkTextSum(c.hunks)
  {
    ChangesWellFormed(diffs, s);
    ps := ChangesMade(diffs, s, a);
    forall i | 0 <= i < |ps| ensures
      var c := RequestOf(a)[i];
      && ps[i] < |diffs| && c.path == diffs[ps[i]].path && c.oldPath == diffs[ps[i]].oldPath
      && c.truncated == a.changes[i].truncated && c.changedLines == HunkTextSum(c.hunks)
    {
      assert MadeFrom(a.changes[i], diffs[ps[i]]) && AllWellFormed(a.changes[i]);
      HunksHold(a.changes[i].hunks, RequestOf(a)[i].hunks);
    }
  }

  /** The text of a request holds exactly the reviewed lines of its report, and at most as many as the limit allows. */
  lemma {:induction false} RequestHolds(diffs: seq<Diff>, s: Settings, a: Assembly)
    requires s.maxChangedLines >= 0 && s.maxFiles >= 0 && AssembleAll(diffs, s) == Assembled(a)
    ensures TextSum(RequestOf(a)) == a.reviewedLines <= s.maxChangedLines
  {
    CoverageConserved(diffs, s);
    ChangesWellFormed(diffs, s);
    var ps := ChangesMade(diffs, s, a);
    forall i | 0 <= i < |a.changes| ensures a.changes[i].changedLines == KeptSum(a.changes[i].hunks) {
      assert MadeFrom(a.changes[i], diffs[ps[i]]);
    }
    ChangesHold(a.changes, RequestOf(a));
  }
}
