/** What the limits of a review request do to a hunk, to a request and to its report. */
module AssemblerLimits {
  import opened Text
  import opened Hunks
  import opened Assembler
  import opened AssemblerProofs

  // ----- Where a hunk is cut

  function ContextLines(lines: seq<string>): nat {
    if lines == [] then 0 else ContextLines(lines[..|lines| - 1]) + if " " <= lines[|lines| - 1] then 1 else 0
  }

  /** Behind `from` only context and its markers are kept, up to the limit and no less than fits. */
  ghost predicate KeptContext(lines: seq<string>, from: nat, end: nat, limit: int) {
    && from <= end <= |lines|
    && (forall i :: from <= i < end ==> " " <= lines[i] || lines[i] == NO_NEWLINE)
    && ContextLines(lines[from..end]) <= MaxZero(limit)
    && (end == |lines| || (if " " <= lines[end] then ContextLines(lines[from..end]) == MaxZero(limit)
                           else lines[end] != NO_NEWLINE))
  }

  function MaxZero(n: int): nat { if n < 0 then 0 else n }

  lemma {:induction false} ContextFirst(lines: seq<string>)
    requires lines != []
    ensures ContextLines(lines) == (if " " <= lines[0] then 1 else 0) + ContextLines(lines[1..])
  {
    if |lines| > 1 {
      var n := |lines| - 1;
      ContextFirst(lines[..n]);
      assert lines[..n][1..] == lines[1..][..n - 1];
    }
  }

  lemma {:induction false} ContextExact(lines: seq<string>, from: nat, limit: int)
    requires from <= |lines|
    ensures KeptContext(lines, from, ContextEnd(lines, from, limit), limit)
    decreases |lines| - from
  {
    var end := ContextEnd(lines, from, limit);
    if from < end {
      assert lines[from..end][1..] == lines[from + 1..end];
      ContextFirst(lines[from..end]);
      if " " <= lines[from] {
        ContextExact(lines, from + 1, limit - 1);
      } else {
        ContextExact(lines, from + 1, limit);
      }
    }
  }

  lemma {:induction false} CutBehindChange(lines: seq<string>, i: nat, budget: nat)
    requires i <= |lines| && budget > 0 && ChangedLines(lines[..i]) + budget <= ChangedLines(lines)
    ensures CutAt(lines, i, budget) > i && IsChange(lines[CutAt(lines, i, budget) - 1])
    decreases |lines| - i
  {
    assert lines[..|lines|] == lines;
    ChangedStep(lines, i);
    if !IsChange(lines[i]) {
      CutBehindChange(lines, i + 1, budget);
    } else if budget > 1 {
      CutBehindChange(lines, i + 1, budget - 1);
    }
  }

  /**
    A hunk that is over the budget is cut behind the change that uses it up,
    and keeps the context that follows, as far as the limit on context allows.
   */
  lemma {:induction false} CutExactly(h: ParsedHunk, remaining: int, trailing: int) returns (cut: nat, end: nat)
    requires 0 < remaining < ChangedLines(h.lines)
    ensures 0 < cut <= |h.lines| && IsChange(h.lines[cut - 1]) && ChangedLines(h.lines[..cut]) == remaining
    ensures KeptContext(h.lines, cut, end, trailing)
    ensures TruncatedHunk(h, remaining, trailing) == h.(lines := h.lines[..end])
  {
    cut := CutAt(h.lines, 0, remaining);
    end := ContextEnd(h.lines, cut, trailing);
    assert h.lines[..0] == [];
    CutExact(h.lines, 0, remaining);
    CutBehindChange(h.lines, 0, remaining);
    ContextExact(h.lines, cut, trailing);
  }

  // ----- The mode of a report

  ghost predicate AnyTruncated(changes: seq<FileChange>) { exists i :: 0 <= i < |changes| && changes[i].truncated }

  /** The flags of an assembly say what its lists show. */
  ghost predicate Flagged(a: Assembly) {
    && (a.degraded ==> HasScopeLimit(a.excluded))
    && (a.truncated <==> AnyTruncated(a.changes) || HasScopeLimit(a.excluded))
  }

  lemma {:induction false} TruncatedAppend(changes: seq<FileChange>, c: FileChange)
    ensures AnyTruncated(changes + [c]) <==> AnyTruncated(changes) || c.truncated
  {
    var longer := changes + [c];
    assert longer[|changes|] == c;
    if AnyTruncated(changes) {
      var i :| 0 <= i < |changes| && changes[i].truncated;
      assert longer[i] == changes[i];
    }
  }

  lemma {:induction false} AdmittedFlagged(a: Assembly, d: Diff, lines: nat, adm: Admission)
    requires Flagged(a)
    ensures Flagged(AddAdmitted(a, d, lines, adm))
  {
    TruncatedAppend(a.changes, ChangeOf(d, adm));
    ScopeLimitAppend(a.excluded, (d.path, ScopeLimit));
  }

  lemma {:induction false} DiffFlagged(a: Assembly, d: Diff, s: Settings)
    requires Flagged(a) && AddDiff(a, d, s).Assembled?
    ensures Flagged(AddDiff(a, d, s).a)
  {
    var counted := Counted(a, DiffLines(d.text), DiffHunks(d.text));
    if d.excluded.Some? {
      ScopeLimitAppend(a.excluded, (d.path, Policy(d.excluded.value)));
    } else if |a.changes| >= s.maxFiles {
      ScopeLimitAppend(a.excluded, (d.path, ScopeLimit));
    } else if d.path != "" {
      var hs := ParseText(d.text).hunks;
      ScopeLimitAppend(a.excluded, (d.path, NoHunks));
      if hs != [] {
        var adm := HunksAdmitted(counted, d, DiffLines(d.text), hs, s);
        AdmittedFlagged(counted, d, DiffLines(d.text), adm);
      }
    }
  }

  lemma {:induction false} AlwaysFlagged(diffs: seq<Diff>, s: Settings, a: Assembly)
    requires AssembleAll(diffs, s) == Assembled(a)
    ensures Flagged(a)
  {
    if diffs != [] {
      var before := LastDiff(diffs, s, a);
      AlwaysFlagged(diffs[..|diffs| - 1], s, before);
      DiffFlagged(before, diffs[|diffs| - 1], s);
    }
  }

  /**
    A report is degraded exactly if a limit kept some file out, truncated
    exactly if no file was kept out but the lines of one were cut, and in full
    scope otherwise.
   */
  lemma {:induction false} ModeIff(diffs: seq<Diff>, s: Settings, a: Assembly)
    requires AssembleAll(diffs, s) == Assembled(a)
    ensures ModeOf(a) == Degradation <==> exists i :: 0 <= i < |a.excluded| && a.excluded[i].1 == ScopeLimit
    ensures ModeOf(a) == Truncated <==> ModeOf(a) != Degradation && AnyTruncated(a.changes)
  {
    AlwaysFlagged(diffs, s, a);
  }

  // ----- Settings and ratio

  /** Settings that are given are used, and the others are twenty lines of context, 2500 changed lines and 80 files. */
  lemma {:induction false} SettingsUsed(diffs: seq<Diff>, s: Settings, a: Assembly)
    requires AssembleAll(diffs, WithDefaults(s)) == Assembled(a)
    ensures a.reviewedLines <= if s.maxChangedLines > 0 then s.maxChangedLines else 2500
    ensures |a.changes| <= if s.maxFiles > 0 then s.maxFiles else 80
    ensures WithDefaults(Settings(0, 0, 0)) == Settings(20, 2500, 80)
    ensures s.contextLinesAfter > 0 && s.maxChangedLines > 0 && s.maxFiles > 0 ==> WithDefaults(s) == s
    ensures WithDefaults(WithDefaults(s)) == WithDefaults(s)
  {
    CoverageConserved(diffs, WithDefaults(s));
  }

  lemma {:induction false} Share(part: real, total: real)
    requires 0.0 <= part <= total && total > 0.0
    ensures part / total * total == part && 0.0 <= part / total <= 1.0 && (part / total == 1.0 <==> part == total)
  {
    assert total / total == 1.0;
  }

  lemma {:induction false} RatioShare(a: Assembly)
    requires a.reviewedLines <= a.totalLines
    ensures RatioOf(a) * a.totalLines as real == a.reviewedLines as real
    ensures 0.0 <= RatioOf(a) <= 1.0 && (RatioOf(a) == 1.0 <==> a.reviewedLines == a.totalLines)
  {
    if a.totalLines > 0 {
      Share(a.reviewedLines as real, a.totalLines as real);
    }
  }

  /** The reported ratio is the share of the changed lines that were reviewed, and one if there are none. */
  lemma {:induction false} RatioExact(diffs: seq<Diff>, s: Settings, a: Assembly)
    requires s.maxChangedLines >= 0 && s.maxFiles >= 0 && AssembleAll(diffs, s) == Assembled(a)
    ensures RatioOf(a) * a.totalLines as real == a.reviewedLines as real
    ensures 0.0 <= RatioOf(a) <= 1.0 && (RatioOf(a) == 1.0 <==> a.reviewedLines == a.totalLines)
  {
    CoverageConserved(diffs, s);
    RatioShare(a);
  }
}
