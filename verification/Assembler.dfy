/**
  Assembling a review request under a budget (Assemble and truncate of
  internal/context/assembler.go), with its account of what was left out.
  The path filters are a parameter: each diff carries the reason for which the
  policy excludes it, if any.
 */
module Assembler {
  import opened Text
  import opened Hunks

  datatype PolicyReason = Generated | TooLarge | Binary | Vendor | LockFile | PathNotIncluded | PathExcluded

  datatype Reason = Policy(why: PolicyReason) | NoHunks | ScopeLimit | TruncatedTail

  datatype Diff = Diff(path: string, oldPath: string, text: string, excluded: Option<PolicyReason>)

  datatype Settings = Settings(contextLinesAfter: int, maxChangedLines: int, maxFiles: int)

  function WithDefaults(s: Settings): (r: Settings)
    ensures r.contextLinesAfter > 0 && r.maxChangedLines > 0 && r.maxFiles > 0
  {
    Settings(
      if s.contextLinesAfter <= 0 then 20 else s.contextLinesAfter,
      if s.maxChangedLines <= 0 then 2500 else s.maxChangedLines,
      if s.maxFiles <= 0 then 80 else s.maxFiles)
  }

  /** An admitted hunk, before it is rendered. */
  datatype Kept = Kept(h: ParsedHunk, truncated: bool)

  datatype FileChange = FileChange(path: string, oldPath: string, changedLines: nat, truncated: bool, hunks: seq<Kept>)

  datatype Skipped = Skipped(path: string, reason: Reason, changedLines: nat)

  datatype Mode = FullScope | Truncated | Degradation

  datatype Assembly = Assembly(
    changes: seq<FileChange>,
    excluded: seq<(string, Reason)>,
    truncated: bool,
    degraded: bool,
    reviewedLines: nat,
    totalLines: nat,
    skippedLines: int,
    skippedFiles: nat,
    hunksTotal: nat,
    hunksInPrompt: nat,
    reviewedPaths: seq<string>,
    skipped: seq<Skipped>)

  const NothingYet := Assembly([], [], false, false, 0, 0, 0, 0, 0, 0, [], [])

  datatype Result = Assembled(a: Assembly) | ParseFailed(path: string)

  // ----- Counting

  function TotalChanged(hs: seq<ParsedHunk>): nat {
    if hs == [] then 0 else TotalChanged(hs[..|hs| - 1]) + ChangedLines(hs[|hs| - 1].lines)
  }

  /** countChangedLines and countHunks: a diff that does not parse counts as empty. */
  function DiffLines(text: string): nat {
    var r := ParseText(text);
    if r.Parsed? then TotalChanged(r.hunks) else 0
  }

  function DiffHunks(text: string): nat {
    var r := ParseText(text);
    if r.Parsed? then |r.hunks| else 0
  }

  // ----- Truncating a hunk

  const NO_NEWLINE := "\\ No newline at end of file"

  /** The position just behind the change line that uses up the budget, looking from position i. */
  function CutAt(lines: seq<string>, i: nat, budget: nat): (end: nat)
    requires i <= |lines|
    ensures i <= end <= |lines|
    decreases |lines| - i
  {
    if budget == 0 || i == |lines| then i
    else CutAt(lines, i + 1, if IsChange(lines[i]) then budget - 1 else budget)
  }

  /** How far the trailing context behind position i may be kept. */
  function ContextEnd(lines: seq<string>, i: nat, budget: int): (end: nat)
    requires i <= |lines|
    ensures i <= end <= |lines|
    decreases |lines| - i
  {
    if i == |lines| then i
    else if " " <= lines[i] then if budget <= 0 then i else ContextEnd(lines, i + 1, budget - 1)
    else if lines[i] == NO_NEWLINE then ContextEnd(lines, i + 1, budget)
    else i
  }

  function TruncatedHunk(h: ParsedHunk, remaining: int, trailing: int): ParsedHunk {
    if remaining <= 0 || ChangedLines(h.lines) <= remaining then h
    else h.(lines := h.lines[..ContextEnd(h.lines, CutAt(h.lines, 0, remaining), trailing)])
  }

  /** The inner loop of truncate: the context behind the last change that fits. */
  method KeepContext(lines: seq<string>, from: nat, trailing: int) returns (end: nat)
    requires from <= |lines|
    ensures end == ContextEnd(lines, from, trailing)
  {
    end := from;
    var added := 0;
    while end < |lines|
      invariant end <= |lines| && ContextEnd(lines, from, trailing) == ContextEnd(lines, end, trailing - added)
    {
      var next := lines[end];
      if " " <= next {
        if added >= trailing {
          break;
        }
        added := added + 1;
      } else if next != NO_NEWLINE {
        break;
      }
      end := end + 1;
    }
  }

  method Truncate(h: ParsedHunk, remaining: int, trailing: int) returns (t: ParsedHunk)
    ensures t == TruncatedHunk(h, remaining, trailing)
  {
    if remaining <= 0 || ChangedLines(h.lines) <= remaining {
      return h;
    }
    var seen, i := 0, 0;
    while i < |h.lines|
      invariant i <= |h.lines| && 0 <= seen < remaining
      invariant CutAt(h.lines, 0, remaining) == CutAt(h.lines, i, remaining - seen)
      decreases |h.lines| - i
    {
      var line := h.lines[i];
      i := i + 1;
      if IsChange(line) {
        seen := seen + 1;
        if seen == remaining {
          break;
        }
      }
    }
    var end := KeepContext(h.lines, i, trailing);
    return h.(lines := h.lines[..end]);
  }

  // ----- Admitting the hunks of one file

  datatype Admission = Admission(hunks: seq<Kept>, changed: nat, cut: bool)

  /** One more hunk, with what is left of the budget. */
  function AdmitOne(so: Admission, h: ParsedHunk, budget: int, trailing: int): Admission {
    var remaining := budget - so.changed;
    if remaining <= 0 then so.(cut := true)
    else
      var whole := ChangedLines(h.lines) <= remaining;
      var kept := TruncatedHunk(h, remaining, trailing);
      var changed := ChangedLines(kept.lines);
      if changed == 0 then so
      else Admission(so.hunks + [Kept(kept, !whole)], so.changed + changed, so.cut || !whole)
  }

  /** The hunks of one file that fit in the budget. */
  function Admit(hs: seq<ParsedHunk>, budget: int, trailing: int): Admission {
    if hs == [] then Admission([], 0, false)
    else AdmitOne(Admit(hs[..|hs| - 1], budget, trailing), hs[|hs| - 1], budget, trailing)
  }

  lemma {:induction false} ExhaustedStays(hs: seq<ParsedHunk>, n: nat, budget: int, trailing: int)
    requires n < |hs| && budget - Admit(hs[..n], budget, trailing).changed <= 0
    ensures Admit(hs, budget, trailing) == Admit(hs[..n], budget, trailing).(cut := true)
    decreases |hs|
  {
    var shorter := hs[..|hs| - 1];
    if n < |hs| - 1 {
      assert shorter[..n] == hs[..n];
      ExhaustedStays(shorter, n, budget, trailing);
    }
  }

  /** The loop body, while there is budget left. */
  method AdmitHunk(so: Admission, hunk: ParsedHunk, budget: int, trailing: int) returns (r: Admission)
    requires budget - so.changed > 0
    ensures r == AdmitOne(so, hunk, budget, trailing)
  {
    var remaining, parsed, truncatedHunk := budget - so.changed, hunk, false;
    if ChangedLines(parsed.lines) > remaining {
      parsed := Truncate(parsed, remaining, trailing);
      truncatedHunk := true;
    }
    var changed := ChangedLines(parsed.lines);
    if changed == 0 {
      return so;
    }
    return Admission(so.hunks + [Kept(parsed, truncatedHunk)], so.changed + changed, so.cut || truncatedHunk);
  }

  method AdmitHunks(hs: seq<ParsedHunk>, budget: int, trailing: int) returns (r: Admission)
    ensures r == Admit(hs, budget, trailing)
  {
    r := Admission([], 0, false);
    for i := 0 to |hs|
      invariant r == Admit(hs[..i], budget, trailing)
    {
      assert hs[..i + 1][..i] == hs[..i];
      if budget - r.changed <= 0 {
        ExhaustedStays(hs, i, budget, trailing);
        return r.(cut := true);
      }
      r := AdmitHunk(r, hs[i], budget, trailing);
    }
    assert hs[..|hs|] == hs;
  }

  // ----- One diff, and all of them

  function SkipFile(a: Assembly, path: string, reason: Reason, lines: nat): Assembly {
    a.(
    excluded := a.excluded + [(path, reason)],
    skippedFiles := a.skippedFiles + 1,
    skipped := a.skipped + [Skipped(path, reason, lines)])
  }

  function ChangeOf(d: Diff, adm: Admission): FileChange {
    FileChange(d.path, d.oldPath, adm.changed, adm.cut, adm.hunks)
  }

  function KeepFile(a: Assembly, c: FileChange, lines: nat): Assembly {
    var kept := a.(
    changes := a.changes + [c],
    truncated := a.truncated || c.truncated,
    reviewedLines := a.reviewedLines + c.changedLines,
    reviewedPaths := a.reviewedPaths + [c.path],
    skippedLines := a.skippedLines - c.changedLines,
    hunksInPrompt := a.hunksInPrompt + |c.hunks|);
    if c.truncated && lines > c.changedLines
    then kept.(skipped := kept.skipped + [Skipped(c.path, TruncatedTail, lines - c.changedLines)]) else kept
  }

  function Counted(a: Assembly, lines: nat, hunks: nat): Assembly {
    a.(skippedLines := a.skippedLines + lines, totalLines := a.totalLines + lines, hunksTotal := a.hunksTotal + hunks)
  }

  /** A file whose hunks have been admitted, or of which nothing was. */
  function AddAdmitted(a: Assembly, d: Diff, lines: nat, adm: Admission): Assembly {
    if adm.hunks != [] then KeepFile(a, ChangeOf(d, adm), lines)
    else if adm.cut then SkipFile(a.(truncated := true), d.path, ScopeLimit, lines)
    else a
  }

  /** A file within the limits, once it is parsed. */
  function AddHunks(a: Assembly, d: Diff, lines: nat, hs: seq<ParsedHunk>, s: Settings): Assembly {
    if hs == [] then a.(excluded := a.excluded + [(d.path, NoHunks)], skippedFiles := a.skippedFiles + 1)
    else AddAdmitted(a, d, lines, Admit(hs, s.maxChangedLines - a.reviewedLines, s.contextLinesAfter))
  }

  function AddCounted(a: Assembly, d: Diff, lines: nat, parsed: ParseResult, s: Settings): Result {
    if d.excluded.Some? then Assembled(SkipFile(a, d.path, Policy(d.excluded.value), lines))
    else if |a.changes| >= s.maxFiles then
      Assembled(SkipFile(a.(truncated := true, degraded := true), d.path, ScopeLimit, lines))
    else if parsed.Invalid? then ParseFailed(d.path)
    else Assembled(AddHunks(a, d, lines, parsed.hunks, s))
  }

  /** The body of the loop over the diffs. */
  function AddDiff(a: Assembly, d: Diff, s: Settings): Result {
    if d.path == "" then Assembled(a)
    else
      var lines := DiffLines(d.text);
      AddCounted(Counted(a, lines, DiffHunks(d.text)), d, lines, ParseText(d.text), s)
  }

  function AssembleAll(diffs: seq<Diff>, s: Settings): Result {
    if diffs == [] then Assembled(NothingYet)
    else
      var before := AssembleAll(diffs[..|diffs| - 1], s);
      if before.ParseFailed? then before else AddDiff(before.a, diffs[|diffs| - 1], s)
  }

  // ----- The request and its report

  function Render(k: Kept): Hunk { ToHunk(k.h).(truncated := k.truncated) }

  function RenderChange(c: FileChange): Change {
    Change(c.path, c.oldPath, c.changedLines, c.truncated,
           seq(|c.hunks|, i requires 0 <= i < |c.hunks| => Render(c.hunks[i])))
  }

  /** The changes as the reviewer gets them. */
  function RequestOf(a: Assembly): seq<Change> {
    seq(|a.changes|, i requires 0 <= i < |a.changes| => RenderChange(a.changes[i]))
  }

  predicate HasScopeLimit(excluded: seq<(string, Reason)>) {
    exists i :: 0 <= i < |excluded| && excluded[i].1 == ScopeLimit
  }

  function ModeOf(a: Assembly): Mode {
    if a.degraded || HasScopeLimit(a.excluded) then Degradation
    else if a.truncated then Truncated
    else FullScope
  }

  function RatioOf(a: Assembly): real {
    if a.totalLines > 0 then a.reviewedLines as real / a.totalLines as real else 1.0
  }

  /** The hunks of one file are admitted, or the file is skipped. */
  method KeepHunks(a: Assembly, d: Diff, lines: nat, hs: seq<ParsedHunk>, s: Settings) returns (r: Assembly)
    ensures r == AddHunks(a, d, lines, hs, s)
  {
    if hs == [] {
      return a.(excluded := a.excluded + [(d.path, NoHunks)], skippedFiles := a.skippedFiles + 1);
    }
    var adm := AdmitHunks(hs, s.maxChangedLines - a.reviewedLines, s.contextLinesAfter);
    if adm.hunks == [] {
      if adm.cut {
        return SkipFile(a.(truncated := true), d.path, ScopeLimit, lines);
      }
      return a;
    }
    return KeepFile(a, ChangeOf(d, adm), lines);
  }

  /** The loop body, branch by branch. */
  method ProcessDiff(so: Assembly, d: Diff, s: Settings) returns (r: Result)
    ensures r == AddDiff(so, d, s)
  {
    if d.path == "" {
      return Assembled(so);
    }
    var lines := DiffLines(d.text);
    var a := Counted(so, lines, DiffHunks(d.text));
    if d.excluded.Some? {
      return Assembled(SkipFile(a, d.path, Policy(d.excluded.value), lines));
    }
    if |a.changes| >= s.maxFiles {
      return Assembled(SkipFile(a.(truncated := true, degraded := true), d.path, ScopeLimit, lines));
    }
    var parsed := ParseHunks(d.text);
    if parsed.Invalid? {
      return ParseFailed(d.path);
    }
    var kept := KeepHunks(a, d, lines, parsed.hunks, s);
    return Assembled(kept);
  }

  /** Assemble, over the diffs in the order they are processed. */
  method Assemble(diffs: seq<Diff>, settings: Settings) returns (r: Result)
    ensures r == AssembleAll(diffs, WithDefaults(settings))
  {
    var s := WithDefaults(settings);
    r := Assembled(NothingYet);
    for i := 0 to |diffs|
      invariant r.Assembled? && r == AssembleAll(diffs[..i], s)
    {
      assert diffs[..i + 1][..i] == diffs[..i];
      r := ProcessDiff(r.a, diffs[i], s);
      if r.ParseFailed? {
        FailureStays(diffs, s, i + 1);
        return;
      }
    }
    assert diffs[..|diffs|] == diffs;
  }

  lemma {:induction false} FailureStays(diffs: seq<Diff>, s: Settings, n: nat)
    requires n <= |diffs| && AssembleAll(diffs[..n], s).ParseFailed?
    ensures AssembleAll(diffs, s) == AssembleAll(diffs[..n], s)
    decreases |diffs|
  {
    if n == |diffs| {
      assert diffs[..n] == diffs;
    } else {
      assert diffs[..|diffs| - 1][..n] == diffs[..n];
      FailureStays(diffs[..|diffs| - 1], s, n);
    }
  }
}
