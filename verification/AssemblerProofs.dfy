/** The account of an assembled request is exact, and full scope means that nothing was left out. */
module AssemblerProofs {
  import opened Text
  import opened Hunks
  import opened Assembler

  // ----- Truncation keeps a prefix with exactly the remaining changes

  lemma {:induction false} ChangedStep(lines: seq<string>, i: nat)
    requires i < |lines|
    ensures ChangedLines(lines[..i + 1]) == ChangedLines(lines[..i]) + if IsChange(lines[i]) then 1 else 0
  {
    assert lines[..i + 1][..i] == lines[..i];
  }

  lemma {:induction false} CutExact(lines: seq<string>, i: nat, budget: nat)
    requires i <= |lines| && ChangedLines(lines[..i]) + budget <= ChangedLines(lines)
    ensures ChangedLines(lines[..CutAt(lines, i, budget)]) == ChangedLines(lines[..i]) + budget
    decreases |lines| - i
  {
    if i == |lines| {
      assert lines[..i] == lines;
    } else if budget > 0 {
      ChangedStep(lines, i);
      CutExact(lines, i + 1, if IsChange(lines[i]) then budget - 1 else budget);
    }
  }

  lemma {:induction false} ContextAddsNoChange(lines: seq<string>, i: nat, budget: int)
    requires i <= |lines|
    ensures ChangedLines(lines[..ContextEnd(lines, i, budget)]) == ChangedLines(lines[..i])
    decreases |lines| - i
  {
    if i < |lines| {
      ChangedStep(lines, i);
      if " " <= lines[i] {
        assert lines[i][0] == ' ' && !IsChange(lines[i]);
        if budget > 0 {
          ContextAddsNoChange(lines, i + 1, budget - 1);
        }
      } else if lines[i] == NO_NEWLINE {
        assert !IsChange(NO_NEWLINE);
        ContextAddsNoChange(lines, i + 1, budget);
      }
    }
  }

  /** A truncated hunk is the same hunk with a shorter prefix of its lines and exactly the remaining changes. */
  lemma {:induction false} TruncateExact(h: ParsedHunk, remaining: int, trailing: int)
    requires 0 < remaining < ChangedLines(h.lines)
    ensures
      var t := TruncatedHunk(h, remaining, trailing);
      && t == h.(lines := t.lines) && t.lines < h.lines && ChangedLines(t.lines) == remaining
  {
    var cut := CutAt(h.lines, 0, remaining);
    assert h.lines[..0] == [];
    CutExact(h.lines, 0, remaining);
    ContextAddsNoChange(h.lines, cut, trailing);
    var end := ContextEnd(h.lines, cut, trailing);
    assert h.lines[..|h.lines|] == h.lines;
    assert end != |h.lines|;
  }

  // ----- Admitting hunks spends the budget exactly

  function Min(a: int, b: int): int { if a < b then a else b }

  /** All hunks with changes, whole. */
  function Whole(hs: seq<ParsedHunk>): seq<Kept> {
    if hs == [] then []
    else
      var h := hs[|hs| - 1];
      Whole(hs[..|hs| - 1]) + if ChangedLines(h.lines) == 0 then [] else [Kept(h, false)]
  }

  /** An admission from so many lines and hunks spends the budget exactly. */
  predicate Spends(adm: Admission, lines: nat, hunks: nat, budget: nat) {
    && adm.changed == Min(budget, lines)
    && |adm.hunks| <= hunks
    && (adm.hunks == [] <==> adm.changed == 0)
    && (adm.hunks == [] && adm.cut ==> budget == 0)
    && (!adm.cut ==> adm.changed == lines)
    && (adm.cut ==> adm.changed == budget)
  }

  lemma {:induction false} AdmitSpends(hs: seq<ParsedHunk>, budget: nat, trailing: int)
    ensures Spends(Admit(hs, budget, trailing), TotalChanged(hs), |hs|, budget)
  {
    if hs != [] {
      var before, h := hs[..|hs| - 1], hs[|hs| - 1];
      AdmitSpends(before, budget, trailing);
      var remaining := budget - Admit(before, budget, trailing).changed;
      if 0 < remaining < ChangedLines(h.lines) {
        TruncateExact(h, remaining, trailing);
      }
    }
  }

  /** When nothing is cut, all hunks with changes are admitted whole. */
  lemma {:induction false} AdmitWhole(hs: seq<ParsedHunk>, budget: nat, trailing: int)
    requires !Admit(hs, budget, trailing).cut
    ensures Admit(hs, budget, trailing).hunks == Whole(hs)
  {
    if hs != [] {
      var before, h := hs[..|hs| - 1], hs[|hs| - 1];
      var so := Admit(before, budget, trailing);
      var remaining := budget - so.changed;
      if 0 < remaining < ChangedLines(h.lines) {
        TruncateExact(h, remaining, trailing);
      }
      AdmitWhole(before, budget, trailing);
      assert so.hunks + [] == so.hunks;
    }
  }

  /** The changed lines that the admitted hunks really hold. */
  function KeptSum(ks: seq<Kept>): nat {
    if ks == [] then 0 else KeptSum(ks[..|ks| - 1]) + ChangedLines(ks[|ks| - 1].h.lines)
  }

  lemma {:induction false} AdmitOneCounts(so: Admission, h: ParsedHunk, budget: int, trailing: int)
    requires so.changed == KeptSum(so.hunks)
    ensures AdmitOne(so, h, budget, trailing).changed == KeptSum(AdmitOne(so, h, budget, trailing).hunks)
  {
    var adm := AdmitOne(so, h, budget, trailing);
    if |adm.hunks| > |so.hunks| {
      assert adm.hunks[..|so.hunks|] == so.hunks;
    }
  }

  /** What is booked is what is held. */
  lemma {:induction false} AdmitCounts(hs: seq<ParsedHunk>, budget: int, trailing: int)
    ensures Admit(hs, budget, trailing).changed == KeptSum(Admit(hs, budget, trailing).hunks)
  {
    if hs != [] {
      AdmitCounts(hs[..|hs| - 1], budget, trailing);
      AdmitOneCounts(Admit(hs[..|hs| - 1], budget, trailing), hs[|hs| - 1], budget, trailing);
    }
  }

  /** All hunks with changes among the first n, whole and in order, and perhaps a proper prefix of the next one. */
  ghost predicate TakenFrom(ks: seq<Kept>, hs: seq<ParsedHunk>, n: nat) {
    && n <= |hs|
    && (|| ks == Whole(hs[..n])
        || (n < |hs| && exists t :: ks == Whole(hs[..n]) + [Kept(t, true)] && CutOf(t, hs[n])))
  }

  /** The same hunk with fewer lines. */
  predicate CutOf(t: ParsedHunk, h: ParsedHunk) { t == h.(lines := t.lines) && t.lines < h.lines }

  lemma {:induction false} TakenStays(ks: seq<Kept>, hs: seq<ParsedHunk>, m: nat, n: nat)
    requires m <= |hs| && TakenFrom(ks, hs[..m], n)
    ensures TakenFrom(ks, hs, n)
  {
    assert hs[..m][..n] == hs[..n];
  }

  lemma {:induction false} AdmitTakes(hs: seq<ParsedHunk>, budget: nat, trailing: int) returns (n: nat)
    ensures TakenFrom(Admit(hs, budget, trailing).hunks, hs, n)
  {
    if hs == [] {
      n := 0;
    } else {
      var m := |hs| - 1;
      var before, h := hs[..m], hs[m];
      var so := Admit(before, budget, trailing);
      var remaining := budget - so.changed;
      AdmitSpends(before, budget, trailing);
      if remaining <= 0 {
        n := AdmitTakes(before, budget, trailing);
        TakenStays(so.hunks, hs, m, n);
      } else {
        AdmitWhole(before, budget, trailing);
        if ChangedLines(h.lines) <= remaining {
          n := |hs|;
          assert hs[..n] == hs && so.hunks + [] == so.hunks;
        } else {
          n := m;
          TruncateExact(h, remaining, trailing);
        }
      }
    }
  }

  lemma {:induction false} WholeHunks(hs: seq<ParsedHunk>, k: nat)
    requires k < |Whole(hs)|
    ensures !Whole(hs)[k].truncated && Whole(hs)[k].h in hs
  {
    var before := hs[..|hs| - 1];
    if k < |Whole(before)| {
      WholeHunks(before, k);
      assert forall x :: x in before ==> x in hs;
    }
  }

  /** Every admitted hunk is a parsed one, or marked truncated and a proper prefix of one. */
  lemma {:induction false} AdmittedHunks(hs: seq<ParsedHunk>, budget: nat, trailing: int, k: nat)
    requires forall i :: 0 <= i < |hs| ==> WellFormed(hs[i])
    requires k < |Admit(hs, budget, trailing).hunks|
    ensures
      var kept := Admit(hs, budget, trailing).hunks[k];
      && WellFormed(kept.h)
      && if kept.truncated then exists i :: 0 <= i < |hs| && CutOf(kept.h, hs[i]) else kept.h in hs
  {
    var n := AdmitTakes(hs, budget, trailing);
    if k < |Whole(hs[..n])| {
      WholeHunks(hs[..n], k);
      assert forall x :: x in hs[..n] ==> x in hs;
    } else {
      assert CutOf(Admit(hs, budget, trailing).hunks[k].h, hs[n]);
    }
  }

  // ----- The account

  function SkippedSum(ss: seq<Skipped>): nat {
    if ss == [] then 0 else SkippedSum(ss[..|ss| - 1]) + ss[|ss| - 1].changedLines
  }

  function ChangesSum(cs: seq<FileChange>): nat {
    if cs == [] then 0 else ChangesSum(cs[..|cs| - 1]) + cs[|cs| - 1].changedLines
  }

  /** The changed lines of all diffs with a path, reviewed or not. */
  function DiffsSum(ds: seq<Diff>): nat {
    if ds == [] then 0
    else DiffsSum(ds[..|ds| - 1]) + if ds[|ds| - 1].path == "" then 0 else DiffLines(ds[|ds| - 1].text)
  }

  lemma {:induction false} SkippedAppend(ss: seq<Skipped>, x: Skipped)
    ensures SkippedSum(ss + [x]) == SkippedSum(ss) + x.changedLines
  {
    assert (ss + [x])[..|ss|] == ss;
  }

  lemma {:induction false} ChangesAppend(cs: seq<FileChange>, x: FileChange)
    ensures ChangesSum(cs + [x]) == ChangesSum(cs) + x.changedLines
  {
    assert (cs + [x])[..|cs|] == cs;
  }

  /** The books of an assembly that has seen `total` changed lines. */
  predicate Balanced(a: Assembly, total: nat, s: Settings) {
    && a.totalLines == total
    && a.totalLines == a.reviewedLines + SkippedSum(a.skipped)
    && a.skippedLines == a.totalLines - a.reviewedLines
    && a.reviewedLines == ChangesSum(a.changes)
    && a.reviewedLines <= s.maxChangedLines
    && |a.changes| <= s.maxFiles
    && a.hunksInPrompt <= a.hunksTotal
  }

  lemma {:induction false} AdmittedBalanced(
    a: Assembly, d: Diff, lines: nat, hunks: nat, adm: Admission, total: nat, s: Settings)
    requires Balanced(a, total, s) && |a.changes| < s.maxFiles
    requires Spends(adm, lines, hunks, s.maxChangedLines - a.reviewedLines)
    ensures Balanced(AddAdmitted(Counted(a, lines, hunks), d, lines, adm), total + lines, s)
  {
    if adm.hunks != [] {
      ChangesAppend(a.changes, ChangeOf(d, adm));
      if adm.changed < lines {
        SkippedAppend(a.skipped, Skipped(d.path, TruncatedTail, lines - adm.changed));
      }
    } else {
      SkippedAppend(a.skipped, Skipped(d.path, ScopeLimit, lines));
    }
  }

  /** What a file within the limits takes from the budget. */
  lemma {:induction false} HunksSpend(b: Assembly, d: Diff, hs: seq<ParsedHunk>, s: Settings) returns (adm: Admission)
    requires hs != [] && b.reviewedLines <= s.maxChangedLines
    ensures Spends(adm, TotalChanged(hs), |hs|, s.maxChangedLines - b.reviewedLines)
    ensures AddHunks(b, d, TotalChanged(hs), hs, s) == AddAdmitted(b, d, TotalChanged(hs), adm)
  {
    adm := Admit(hs, s.maxChangedLines - b.reviewedLines, s.contextLinesAfter);
    AdmitSpends(hs, s.maxChangedLines - b.reviewedLines, s.contextLinesAfter);
  }

  lemma {:induction false} HunksBalanced(a: Assembly, d: Diff, total: nat, hs: seq<ParsedHunk>, s: Settings)
    requires Balanced(a, total, s) && |a.changes| < s.maxFiles
    ensures Balanced(AddHunks(Counted(a, TotalChanged(hs), |hs|), d, TotalChanged(hs), hs, s),
      total + TotalChanged(hs), s)
  {
    if hs != [] {
      var adm := HunksSpend(Counted(a, TotalChanged(hs), |hs|), d, hs, s);
      AdmittedBalanced(a, d, TotalChanged(hs), |hs|, adm, total, s);
    }
  }

  lemma {:induction false} DiffBalanced(a: Assembly, d: Diff, total: nat, s: Settings)
    requires Balanced(a, total, s) && AddDiff(a, d, s).Assembled? && d.path != ""
    ensures Balanced(AddDiff(a, d, s).a, total + DiffLines(d.text), s)
  {
    var lines, parsed := DiffLines(d.text), ParseText(d.text);
    if d.excluded.Some? {
      SkippedAppend(a.skipped, Skipped(d.path, Policy(d.excluded.value), lines));
    } else if |a.changes| >= s.maxFiles {
      SkippedAppend(a.skipped, Skipped(d.path, ScopeLimit, lines));
    } else {
      HunksBalanced(a, d, total, parsed.hunks, s);
    }
  }

  /**
    For every list of diffs that parses: all changed lines are either reviewed
    or listed as skipped, the skipped count agrees, and the limits are kept.
   */
  lemma {:induction false} CoverageConserved(diffs: seq<Diff>, s: Settings)
    requires s.maxChangedLines >= 0 && s.maxFiles >= 0 && AssembleAll(diffs, s).Assembled?
    ensures Balanced(AssembleAll(diffs, s).a, DiffsSum(diffs), s)
  {
    if diffs != [] {
      CoverageConserved(diffs[..|diffs| - 1], s);
      var before, d := AssembleAll(diffs[..|diffs| - 1], s).a, diffs[|diffs| - 1];
      if d.path != "" {
        DiffBalanced(before, d, DiffsSum(diffs[..|diffs| - 1]), s);
      }
    }
  }

  // ----- What becomes of one diff

  /** Added behind the changes, and nothing else is. */
  predicate Reviewed(a: Assembly, b: Assembly, d: Diff) {
    |b.changes| == |a.changes| + 1 && b.changes[..|a.changes|] == a.changes && b.changes[|a.changes|].path == d.path
    && b.excluded == a.excluded
  }

  /** Listed as excluded, with its changed lines as skipped unless it has no hunks. */
  predicate Excluded(a: Assembly, b: Assembly, d: Diff, why: Reason, lines: nat) {
    && b.changes == a.changes && b.excluded == a.excluded + [(d.path, why)]
    && b.skipped == a.skipped + if why == NoHunks then [] else [Skipped(d.path, why, lines)]
  }

  /** The lines of a reviewed diff that did not fit are listed as its truncated tail. */
  predicate TailListed(a: Assembly, b: Assembly, d: Diff, lines: nat)
    requires b.changes != []
  {
    var kept := b.changes[|b.changes| - 1].changedLines;
    b.skipped == a.skipped + if kept < lines then [Skipped(d.path, TruncatedTail, lines - kept)] else []
  }

  lemma {:induction false} AdmittedFate(a: Assembly, d: Diff, lines: nat, hunks: nat, adm: Admission, budget: nat)
    requires Spends(adm, lines, hunks, budget)
    ensures
      var b := AddAdmitted(a, d, lines, adm);
      && (lines > 0 && budget > 0 ==> Reviewed(a, b, d) && TailListed(a, b, d, lines))
      && (adm.hunks == [] && adm.cut ==> Excluded(a, b, d, ScopeLimit, lines))
      && (lines == 0 && !adm.cut ==> b == a)
  {
  }

  lemma {:induction false} NothingToCut(hs: seq<ParsedHunk>, budget: nat, trailing: int)
    requires TotalChanged(hs) == 0 && budget > 0
    ensures Admit(hs, budget, trailing) == Admission([], 0, false)
  {
    if hs != [] {
      NothingToCut(hs[..|hs| - 1], budget, trailing);
    }
  }

  lemma {:induction false} NothingFits(hs: seq<ParsedHunk>, trailing: int)
    requires hs != []
    ensures Admit(hs, 0, trailing) == Admission([], 0, true)
  {
    if |hs| > 1 {
      NothingFits(hs[..|hs| - 1], trailing);
    }
  }

  /**
    Every diff with a path is reviewed, or listed as excluded with its reason:
    the policy's, the limit on files, no hunks, or the limit on lines; only a
    diff without changes may be passed over.
   */
  lemma {:induction false} DiffFate(a: Assembly, d: Diff, s: Settings)
    requires d.path != "" && a.reviewedLines <= s.maxChangedLines && AddDiff(a, d, s).Assembled?
    ensures
      var b, hunks, budget := AddDiff(a, d, s).a, ParseText(d.text), s.maxChangedLines - a.reviewedLines;
      && (d.excluded.Some? ==> Excluded(a, b, d, Policy(d.excluded.value), DiffLines(d.text)))
      && (d.excluded.None? && |a.changes| >= s.maxFiles ==>
            Excluded(a, b, d, ScopeLimit, DiffLines(d.text)) && b.degraded)
      && (d.excluded.None? && |a.changes| < s.maxFiles ==>
            && hunks.Parsed?
            && (hunks.hunks == [] ==> Excluded(a, b, d, NoHunks, 0))
            && (DiffLines(d.text) > 0 && budget > 0 ==> Reviewed(a, b, d) && TailListed(a, b, d, DiffLines(d.text)))
            && (hunks.hunks != [] && budget == 0 ==> Excluded(a, b, d, ScopeLimit, DiffLines(d.text)))
            && (hunks.hunks != [] && DiffLines(d.text) == 0 && budget > 0 ==>
                  b.changes == a.changes && b.excluded == a.excluded && b.skipped == a.skipped))
  {
    var counted := Counted(a, DiffLines(d.text), DiffHunks(d.text));
    if d.excluded.None? && |a.changes| < s.maxFiles && ParseText(d.text).hunks != [] {
      HunksFate(counted, d, ParseText(d.text).hunks, s);
    }
  }

  lemma {:induction false} HunksFate(a: Assembly, d: Diff, hs: seq<ParsedHunk>, s: Settings)
    requires hs != [] && a.reviewedLines <= s.maxChangedLines
    ensures
      var b, budget := AddHunks(a, d, TotalChanged(hs), hs, s), s.maxChangedLines - a.reviewedLines;
      && (TotalChanged(hs) > 0 && budget > 0 ==> Reviewed(a, b, d) && TailListed(a, b, d, TotalChanged(hs)))
      && (budget == 0 ==> Excluded(a, b, d, ScopeLimit, TotalChanged(hs)))
      && (TotalChanged(hs) == 0 && budget > 0 ==> b == a)
  {
    var budget := s.maxChangedLines - a.reviewedLines;
    AdmitSpends(hs, budget, s.contextLinesAfter);
    AdmittedFate(a, d, TotalChanged(hs), |hs|, Admit(hs, budget, s.contextLinesAfter), budget);
    if budget == 0 {
      NothingFits(hs, s.contextLinesAfter);
    } else if TotalChanged(hs) == 0 {
      NothingToCut(hs, budget, s.contextLinesAfter);
    }
  }

  // ----- The changes come from the diffs

  /** The change holds hunks of the diff, as many changed lines as it books, and nothing else. */
  ghost predicate MadeOf(c: FileChange, d: Diff, hs: seq<ParsedHunk>) {
    && c.path == d.path && c.oldPath == d.oldPath && d.excluded.None?
    && c.changedLines == KeptSum(c.hunks) && c.hunks != []
    && exists n: nat :: TakenFrom(c.hunks, hs, n)
  }

  ghost predicate MadeFrom(c: FileChange, d: Diff) {
    ParseText(d.text).Parsed? && MadeOf(c, d, ParseText(d.text).hunks)
  }

  lemma {:induction false} AdmittedMade(
    a: Assembly, d: Diff, lines: nat, hs: seq<ParsedHunk>, adm: Admission, n: nat)
    requires d.excluded.None? && adm.changed == KeptSum(adm.hunks) && TakenFrom(adm.hunks, hs, n)
    ensures
      var b := AddAdmitted(a, d, lines, adm);
      b.changes == a.changes || (Reviewed(a, b, d) && MadeOf(b.changes[|a.changes|], d, hs))
  {
  }

  lemma {:induction false} ChangeMade(a: Assembly, d: Diff, lines: nat, hs: seq<ParsedHunk>, s: Settings)
    requires d.excluded.None? && a.reviewedLines <= s.maxChangedLines
    ensures
      var b := AddHunks(a, d, lines, hs, s);
      b.changes == a.changes || (Reviewed(a, b, d) && MadeOf(b.changes[|a.changes|], d, hs))
  {
    if hs != [] {
      var adm, n := HunksTaken(a, d, lines, hs, s);
      AdmittedMade(a, d, lines, hs, adm, n);
    }
  }

  lemma {:induction false} HunksTaken(a: Assembly, d: Diff, lines: nat, hs: seq<ParsedHunk>, s: Settings)
    returns (adm: Admission, n: nat)
    requires hs != [] && a.reviewedLines <= s.maxChangedLines
    ensures AddHunks(a, d, lines, hs, s) == AddAdmitted(a, d, lines, adm)
    ensures adm.changed == KeptSum(adm.hunks) && TakenFrom(adm.hunks, hs, n)
  {
    var budget := s.maxChangedLines - a.reviewedLines;
    adm := Admit(hs, budget, s.contextLinesAfter);
    n := AdmitTakes(hs, budget, s.contextLinesAfter);
    AdmitCounts(hs, budget, s.contextLinesAfter);
  }

  lemma {:induction false} DiffMade(a: Assembly, d: Diff, s: Settings)
    requires a.reviewedLines <= s.maxChangedLines && AddDiff(a, d, s).Assembled?
    ensures
      var b := AddDiff(a, d, s).a;
      b.changes == a.changes || (Reviewed(a, b, d) && MadeFrom(b.changes[|a.changes|], d))
  {
    if d.path != "" && d.excluded.None? && |a.changes| < s.maxFiles {
      ChangeMade(Counted(a, DiffLines(d.text), DiffHunks(d.text)), d, DiffLines(d.text), ParseText(d.text).hunks, s);
    }
  }

  /** Each change is made from the diff at its position, and the positions increase. */
  ghost predicate InOrder(changes: seq<FileChange>, ps: seq<nat>, diffs: seq<Diff>) {
    && |ps| == |changes|
    && (forall i :: 0 <= i < |ps| ==> ps[i] < |diffs| && MadeFrom(changes[i], diffs[ps[i]]))
    && (forall i, j :: 0 <= i < j < |ps| ==> ps[i] < ps[j])
  }

  lemma {:induction false} InOrderStays(changes: seq<FileChange>, ps: seq<nat>, diffs: seq<Diff>, d: Diff)
    requires InOrder(changes, ps, diffs)
    ensures InOrder(changes, ps, diffs + [d])
  {
    forall i | 0 <= i < |ps| ensures MadeFrom(changes[i], (diffs + [d])[ps[i]]) {
      assert (diffs + [d])[ps[i]] == diffs[ps[i]];
    }
  }

  lemma {:induction false} InOrderGrows(
    changes: seq<FileChange>, ps: seq<nat>, diffs: seq<Diff>, d: Diff, c: FileChange)
    requires InOrder(changes, ps, diffs) && MadeFrom(c, d)
    ensures InOrder(changes + [c], ps + [|diffs|], diffs + [d])
  {
    InOrderStays(changes, ps, diffs, d);
    var changes', ps', diffs' := changes + [c], ps + [|diffs|], diffs + [d];
    forall i | 0 <= i < |ps'| ensures ps'[i] < |diffs'| && MadeFrom(changes'[i], diffs'[ps'[i]]) {
      assert i < |ps| ==> changes'[i] == changes[i] && ps'[i] == ps[i];
    }
  }

  lemma {:induction false} LastDiff(diffs: seq<Diff>, s: Settings, b: Assembly) returns (a: Assembly)
    requires diffs != [] && AssembleAll(diffs, s) == Assembled(b)
    ensures AssembleAll(diffs[..|diffs| - 1], s) == Assembled(a) && AddDiff(a, diffs[|diffs| - 1], s) == Assembled(b)
  {
    a := AssembleAll(diffs[..|diffs| - 1], s).a;
  }

  /** At most one change is added, and it is made from the diff. */
  ghost predicate Extends(changes: seq<FileChange>, changes': seq<FileChange>, d: Diff) {
    || changes' == changes
    || (|changes'| == |changes| + 1 && changes'[..|changes|] == changes && MadeFrom(changes'[|changes|], d))
  }

  lemma {:induction false} DiffExtends(before: seq<Diff>, d: Diff, s: Settings, a: Assembly, b: Assembly)
    requires s.maxChangedLines >= 0 && s.maxFiles >= 0
    requires AssembleAll(before, s) == Assembled(a) && AddDiff(a, d, s) == Assembled(b)
    ensures Extends(a.changes, b.changes, d)
  {
    CoverageConserved(before, s);
    DiffMade(a, d, s);
  }

  /** Every change of a request is made from one diff, in the order of the diffs. */
  lemma {:induction false} ChangesMade(diffs: seq<Diff>, s: Settings, b: Assembly) returns (ps: seq<nat>)
    requires s.maxChangedLines >= 0 && s.maxFiles >= 0 && AssembleAll(diffs, s) == Assembled(b)
    ensures InOrder(b.changes, ps, diffs)
  {
    ps := [];
    if diffs != [] {
      var before, d := diffs[..|diffs| - 1], diffs[|diffs| - 1];
      var a := LastDiff(diffs, s, b);
      var ps' := ChangesMade(before, s, a);
      DiffExtends(before, d, s, a, b);
      assert before + [d] == diffs;
      ps := MadeStep(a.changes, ps', before, d, b.changes);
    }
  }

  lemma {:induction false} MadeStep(
    changes: seq<FileChange>, ps: seq<nat>, diffs: seq<Diff>, d: Diff, changes': seq<FileChange>)
    returns (ps': seq<nat>)
    requires InOrder(changes, ps, diffs) && Extends(changes, changes', d)
    ensures InOrder(changes', ps', diffs + [d])
  {
    if changes' == changes {
      InOrderStays(changes, ps, diffs, d);
      ps' := ps;
    } else {
      ps' := ps + [|diffs|];
      InOrderGrows(changes, ps, diffs, d, changes'[|changes|]);
      assert changes' == changes + [changes'[|changes|]];
    }
  }

  // ----- The other columns of the report

  function HunkCount(cs: seq<FileChange>): nat {
    if cs == [] then 0 else HunkCount(cs[..|cs| - 1]) + |cs[|cs| - 1].hunks|
  }

  function DiffsHunks(ds: seq<Diff>): nat {
    if ds == [] then 0
    else DiffsHunks(ds[..|ds| - 1]) + if ds[|ds| - 1].path == "" then 0 else DiffHunks(ds[|ds| - 1].text)
  }

  /** Hunks seen and sent, reviewed paths and skipped files are what they say. */
  ghost predicate Tallied(a: Assembly, hunks: nat) {
    && a.hunksTotal == hunks && a.hunksInPrompt == HunkCount(a.changes) && a.skippedFiles == |a.excluded|
    && |a.reviewedPaths| == |a.changes|
    && forall i :: 0 <= i < |a.changes| ==> a.reviewedPaths[i] == a.changes[i].path
  }

  lemma {:induction false} KeptTallied(a: Assembly, c: FileChange, lines: nat, hunks: nat)
    requires Tallied(a, hunks)
    ensures Tallied(KeepFile(a, c, lines), hunks)
  {
    assert (a.changes + [c])[..|a.changes|] == a.changes;
  }

  lemma {:induction false} DiffTallied(a: Assembly, d: Diff, s: Settings, hunks: nat)
    requires Tallied(a, hunks) && AddDiff(a, d, s).Assembled? && d.path != ""
    ensures Tallied(AddDiff(a, d, s).a, hunks + DiffHunks(d.text))
  {
    var counted := Counted(a, DiffLines(d.text), DiffHunks(d.text));
    assert Tallied(counted, hunks + DiffHunks(d.text));
    if d.excluded.None? && |a.changes| < s.maxFiles {
      HunksTallied(counted, d, DiffLines(d.text), ParseText(d.text).hunks, s, hunks + DiffHunks(d.text));
    }
  }

  lemma {:induction false} AdmittedTallied(a: Assembly, d: Diff, lines: nat, adm: Admission, hunks: nat)
    requires Tallied(a, hunks)
    ensures Tallied(AddAdmitted(a, d, lines, adm), hunks)
  {
    KeptTallied(a, ChangeOf(d, adm), lines, hunks);
  }

  lemma {:induction false} HunksTallied(a: Assembly, d: Diff, lines: nat, hs: seq<ParsedHunk>, s: Settings, hunks: nat)
    requires Tallied(a, hunks)
    ensures Tallied(AddHunks(a, d, lines, hs, s), hunks)
  {
    if hs != [] {
      var adm := HunksAdmitted(a, d, lines, hs, s);
      AdmittedTallied(a, d, lines, adm, hunks);
    }
  }

  lemma {:induction false} HunksAdmitted(a: Assembly, d: Diff, lines: nat, hs: seq<ParsedHunk>, s: Settings)
    returns (adm: Admission)
    requires hs != []
    ensures AddHunks(a, d, lines, hs, s) == AddAdmitted(a, d, lines, adm)
  {
    adm := Admit(hs, s.maxChangedLines - a.reviewedLines, s.contextLinesAfter);
  }

  lemma {:induction false} ReportTallied(diffs: seq<Diff>, s: Settings)
    requires AssembleAll(diffs, s).Assembled?
    ensures Tallied(AssembleAll(diffs, s).a, DiffsHunks(diffs))
  {
    if diffs != [] {
      var before, d := diffs[..|diffs| - 1], diffs[|diffs| - 1];
      ReportTallied(before, s);
      if d.path != "" {
        DiffTallied(AssembleAll(before, s).a, d, s, DiffsHunks(before));
      }
    }
  }

  // ----- Full scope

  /** A file as it appears when none of it is left out. */
  function FullChange(d: Diff, hs: seq<ParsedHunk>): FileChange {
    FileChange(d.path, d.oldPath, TotalChanged(hs), false, Whole(hs))
  }

  /** The changes of a request in which every file the policy admits appears in full. */
  function FullChanges(ds: seq<Diff>): seq<FileChange> {
    if ds == [] then [] else FullChanges(ds[..|ds| - 1]) + FullPart(ds[|ds| - 1])
  }

  predicate OnlyPolicy(ss: seq<Skipped>) { forall i :: 0 <= i < |ss| ==> ss[i].reason.Policy? }

  /** No limit has been met so far. */
  predicate Unlimited(a: Assembly) { !a.truncated && !a.degraded && !HasScopeLimit(a.excluded) }

  lemma {:induction false} ScopeLimitAppend(excluded: seq<(string, Reason)>, x: (string, Reason))
    ensures HasScopeLimit(excluded + [x]) <==> HasScopeLimit(excluded) || x.1 == ScopeLimit
  {
    var longer := excluded + [x];
    assert longer[|excluded|] == x;
    if HasScopeLimit(excluded) {
      var i :| 0 <= i < |excluded| && excluded[i].1 == ScopeLimit;
      assert longer[i] == excluded[i];
    }
  }

  /** What the loop adds to the request for one diff, when no limit is met. */
  function FullPart(d: Diff): seq<FileChange> {
    var r := ParseText(d.text);
    if d.path != "" && d.excluded.None? && r.Parsed? && TotalChanged(r.hunks) > 0 then [FullChange(d, r.hunks)] else []
  }

  lemma {:induction false} UnlimitedAdmitted(a: Assembly, d: Diff, lines: nat, hunks: nat, adm: Admission, budget: nat)
    requires Unlimited(AddAdmitted(a, d, lines, adm)) && Spends(adm, lines, hunks, budget)
    ensures Unlimited(a) && !adm.cut
    ensures AddAdmitted(a, d, lines, adm).skipped == a.skipped
    ensures AddAdmitted(a, d, lines, adm).changes == a.changes + if lines > 0 then [ChangeOf(d, adm)] else []
  {
    ScopeLimitAppend(a.excluded, (d.path, ScopeLimit));
  }

  lemma {:induction false} UnlimitedHunks(a: Assembly, d: Diff, hs: seq<ParsedHunk>, s: Settings)
    requires a.reviewedLines <= s.maxChangedLines && Unlimited(AddHunks(a, d, TotalChanged(hs), hs, s))
    ensures
      var b := AddHunks(a, d, TotalChanged(hs), hs, s);
      && Unlimited(a)
      && b.skipped == a.skipped
      && b.changes == a.changes + if TotalChanged(hs) > 0 then [FullChange(d, hs)] else []
  {
    if hs == [] {
      ScopeLimitAppend(a.excluded, (d.path, NoHunks));
    } else {
      var budget := s.maxChangedLines - a.reviewedLines;
      var adm := Admit(hs, budget, s.contextLinesAfter);
      AdmitSpends(hs, budget, s.contextLinesAfter);
      UnlimitedAdmitted(a, d, TotalChanged(hs), |hs|, adm, budget);
      AdmitWhole(hs, budget, s.contextLinesAfter);
    }
  }

  lemma {:induction false} UnlimitedStep(a: Assembly, d: Diff, s: Settings)
    requires AddDiff(a, d, s).Assembled? && Unlimited(AddDiff(a, d, s).a) && a.reviewedLines <= s.maxChangedLines
    ensures Unlimited(a)
    ensures OnlyPolicy(a.skipped) ==> OnlyPolicy(AddDiff(a, d, s).a.skipped)
    ensures AddDiff(a, d, s).a.changes == a.changes + FullPart(d)
  {
    if d.path != "" {
      var counted := Counted(a, DiffLines(d.text), DiffHunks(d.text));
      if d.excluded.Some? {
        ScopeLimitAppend(a.excluded, (d.path, Policy(d.excluded.value)));
      } else if |a.changes| < s.maxFiles {
        UnlimitedHunks(counted, d, ParseText(d.text).hunks, s);
      }
    }
  }

  /**
    In full-scope mode the request holds every hunk of every file the policy
    admits, whole, and only the policy's own exclusions are skipped.
   */
  lemma {:induction false} FullScopeIsComplete(diffs: seq<Diff>, s: Settings)
    requires s.maxChangedLines >= 0 && s.maxFiles >= 0 && AssembleAll(diffs, s).Assembled?
    requires ModeOf(AssembleAll(diffs, s).a) == FullScope
    ensures AssembleAll(diffs, s).a.changes == FullChanges(diffs)
    ensures OnlyPolicy(AssembleAll(diffs, s).a.skipped)
  {
    if diffs != [] {
      var before := diffs[..|diffs| - 1];
      CoverageConserved(before, s);
      UnlimitedStep(AssembleAll(before, s).a, diffs[|diffs| - 1], s);
      FullScopeIsComplete(before, s);
    }
  }

  // ----- What the request contains

  ghost predicate AllWellFormed(c: FileChange) {
    forall k :: 0 <= k < |c.hunks| ==> WellFormed(c.hunks[k].h)
  }

  lemma {:induction false} HunksWellFormed(a: Assembly, d: Diff, lines: nat, hs: seq<ParsedHunk>, s: Settings)
    requires forall i :: 0 <= i < |a.changes| ==> AllWellFormed(a.changes[i])
    requires (forall i :: 0 <= i < |hs| ==> WellFormed(hs[i])) && a.reviewedLines <= s.maxChangedLines
    ensures
      var b := AddHunks(a, d, lines, hs, s);
      forall i :: 0 <= i < |b.changes| ==> AllWellFormed(b.changes[i])
  {
    var budget := s.maxChangedLines - a.reviewedLines;
    var adm := Admit(hs, budget, s.contextLinesAfter);
    assert AllWellFormed(ChangeOf(d, adm)) by {
      forall k | 0 <= k < |adm.hunks| ensures WellFormed(adm.hunks[k].h) {
        AdmittedHunks(hs, budget, s.contextLinesAfter, k);
      }
    }
  }

  lemma {:induction false} ChangesWellFormed(diffs: seq<Diff>, s: Settings)
    requires s.maxChangedLines >= 0 && s.maxFiles >= 0 && AssembleAll(diffs, s).Assembled?
    ensures
      var a := AssembleAll(diffs, s).a;
      forall i :: 0 <= i < |a.changes| ==> AllWellFormed(a.changes[i])
  {
    if diffs != [] {
      var before, d := diffs[..|diffs| - 1], diffs[|diffs| - 1];
      ChangesWellFormed(before, s);
      CoverageConserved(before, s);
      var a := AssembleAll(before, s).a;
      if d.path != "" && d.excluded.None? && |a.changes| < s.maxFiles {
        ParsedHunksWellFormed(d.text);
        HunksWellFormed(Counted(a, DiffLines(d.text), DiffHunks(d.text)), d, DiffLines(d.text),
          ParseText(d.text).hunks, s);
      }
    }
  }

  /** Every hunk of an assembled request, truncated or not, is the printed form of a well-formed parsed hunk. */
  lemma {:induction false} RequestPrinted(diffs: seq<Diff>, s: Settings, c: nat, k: nat) returns (h: ParsedHunk)
    requires s.maxChangedLines >= 0 && s.maxFiles >= 0 && AssembleAll(diffs, s).Assembled?
    requires c < |RequestOf(AssembleAll(diffs, s).a)| && k < |RequestOf(AssembleAll(diffs, s).a)[c].hunks|
    ensures
      var hunk := RequestOf(AssembleAll(diffs, s).a)[c].hunks[k];
      WellFormed(h) && hunk == ToHunk(h).(truncated := hunk.truncated)
  {
    ChangesWellFormed(diffs, s);
    h := AssembleAll(diffs, s).a.changes[c].hunks[k].h;
  }
}
