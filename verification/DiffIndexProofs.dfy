/** The index agrees with the hunk text, and findings are placed on lines the change touched. */
module DiffIndexProofs {
  import opened Text
  import opened Hunks
  import opened HunkRoundTrip
  import opened DiffIndex

  // ----- Which lines a hunk text touches, declaratively

  /** How far the lines advance on the old side. */
  function OldSteps(lines: seq<string>): nat {
    if lines == [] then 0
    else
      var line := lines[|lines| - 1];
      OldSteps(lines[..|lines| - 1]) + if Deleted(line) || Context(line) then 1 else 0
  }

  function NewSteps(lines: seq<string>): nat {
    if lines == [] then 0
    else
      var line := lines[|lines| - 1];
      NewSteps(lines[..|lines| - 1]) + if Added(line) || Context(line) then 1 else 0
  }

  /** Line x of the old file is deleted by a hunk text that starts at line o. */
  ghost predicate OldLineAt(o: int, lines: seq<string>, x: int) {
    exists k :: 0 <= k < |lines| && Deleted(lines[k]) && x == o + OldSteps(lines[..k])
  }

  ghost predicate NewLineAt(n: int, lines: seq<string>, x: int) {
    exists k :: 0 <= k < |lines| && Added(lines[k]) && x == n + NewSteps(lines[..k])
  }

  /** The last line before position j that is not neutral is a deletion. */
  ghost predicate Pending(lines: seq<string>, j: int) {
    exists i :: 0 <= i < j <= |lines| && Deleted(lines[i]) && forall m :: i < m < j ==> Neutral(lines[m])
  }

  /** A run of deletions that is not replaced by additions ends at position j. */
  ghost predicate PureDeletionEnds(lines: seq<string>, j: int) {
    0 <= j <= |lines| && (j == |lines| || Context(lines[j])) && Pending(lines, j)
  }

  /** Line x of the new file is next to a run of pure deletions that ends before the last position. */
  ghost predicate AnchorBefore(n: int, newStart: int, lines: seq<string>, end: int, x: int)
    requires end <= |lines| + 1
  {
    exists j :: 0 <= j < end && PureDeletionEnds(lines, j) && x in AnchorsAt(n + NewSteps(lines[..j]), newStart)
  }

  ghost predicate AnchorAt(n: int, newStart: int, lines: seq<string>, x: int) {
    AnchorBefore(n, newStart, lines, |lines| + 1, x)
  }

  // ----- The walk computes exactly these lines

  lemma {:induction false} PendingStep(lines: seq<string>)
    requires lines != []
    ensures
      var n := |lines| - 1;
      Pending(lines, n + 1) <==> Deleted(lines[n]) || (Neutral(lines[n]) && Pending(lines[..n], n))
  {
    var n := |lines| - 1;
    var before := lines[..n];
    if Neutral(lines[n]) && Pending(before, n) {
      var i :| 0 <= i < n && Deleted(before[i]) && forall m :: i < m < n ==> Neutral(before[m]);
      assert Deleted(lines[i]) && forall m :: i < m < n ==> Neutral(lines[m]) by {
        assert forall m :: 0 <= m < n ==> lines[m] == before[m];
      }
    }
    if Pending(lines, n + 1) && !Deleted(lines[n]) {
      var i :| 0 <= i < n + 1 && Deleted(lines[i]) && forall m :: i < m < n + 1 ==> Neutral(lines[m]);
      assert i < n && Neutral(lines[n]);
      assert Deleted(before[i]) && forall m :: i < m < n ==> Neutral(before[m]) by {
        assert forall m :: 0 <= m < n ==> lines[m] == before[m];
      }
    }
  }

  lemma {:induction false} WalkStep(w: Walk, line: string, newStart: int)
    ensures
      var w' := WalkLine(w, line, newStart);
      && w'.oldN == w.oldN + (if Deleted(line) || Context(line) then 1 else 0)
      && w'.newN == w.newN + (if Added(line) || Context(line) then 1 else 0)
      && (w'.pending <==> Deleted(line) || (Neutral(line) && w.pending))
      && w'.oldLines == (if Deleted(line) then w.oldLines + {w.oldN} else w.oldLines)
      && w'.newLines == (if Added(line) then w.newLines + {w.newN} else w.newLines)
  {
  }

  lemma {:induction false} WalkPosition(w: Walk, lines: seq<string>, newStart: int)
    requires !w.pending
    ensures
      var w' := WalkLines(w, lines, newStart);
      && w'.oldN == w.oldN + OldSteps(lines)
      && w'.newN == w.newN + NewSteps(lines)
      && (w'.pending <==> Pending(lines, |lines|))
  {
    if lines != [] {
      var before, line := lines[..|lines| - 1], lines[|lines| - 1];
      WalkPosition(w, before, newStart);
      PendingStep(lines);
      WalkStep(WalkLines(w, before, newStart), line, newStart);
    }
  }

  lemma {:induction false} OldLineStep(o: int, lines: seq<string>, x: int)
    requires lines != []
    ensures
      var k := |lines| - 1;
      OldLineAt(o, lines, x) <==> OldLineAt(o, lines[..k], x) || (Deleted(lines[k]) && x == o + OldSteps(lines[..k]))
  {
    var k := |lines| - 1;
    var before := lines[..k];
    forall i | 0 <= i < k ensures before[i] == lines[i] && before[..i] == lines[..i] {}
    if OldLineAt(o, before, x) {
      var i :| 0 <= i < |before| && Deleted(before[i]) && x == o + OldSteps(before[..i]);
      assert Deleted(lines[i]);
    }
    if OldLineAt(o, lines, x) {
      var i :| 0 <= i < |lines| && Deleted(lines[i]) && x == o + OldSteps(lines[..i]);
      assert i < k ==> Deleted(before[i]);
    }
  }

  lemma {:induction false} NewLineStep(n: int, lines: seq<string>, x: int)
    requires lines != []
    ensures
      var k := |lines| - 1;
      NewLineAt(n, lines, x) <==> NewLineAt(n, lines[..k], x) || (Added(lines[k]) && x == n + NewSteps(lines[..k]))
  {
    var k := |lines| - 1;
    var before := lines[..k];
    forall i | 0 <= i < k ensures before[i] == lines[i] && before[..i] == lines[..i] {}
    if NewLineAt(n, before, x) {
      var i :| 0 <= i < |before| && Added(before[i]) && x == n + NewSteps(before[..i]);
      assert Added(lines[i]);
    }
    if NewLineAt(n, lines, x) {
      var i :| 0 <= i < |lines| && Added(lines[i]) && x == n + NewSteps(lines[..i]);
      assert i < k ==> Added(before[i]);
    }
  }

  lemma {:induction false} WalkLineSets(w: Walk, lines: seq<string>, newStart: int, x: int)
    requires !w.pending
    ensures
      var w' := WalkLines(w, lines, newStart);
      && (x in w'.oldLines <==> x in w.oldLines || OldLineAt(w.oldN, lines, x))
      && (x in w'.newLines <==> x in w.newLines || NewLineAt(w.newN, lines, x))
  {
    if lines != [] {
      WalkLineSets(w, lines[..|lines| - 1], newStart, x);
      WalkPosition(w, lines[..|lines| - 1], newStart);
      OldLineStep(w.oldN, lines, x);
      NewLineStep(w.newN, lines, x);
      WalkStep(WalkLines(w, lines[..|lines| - 1], newStart), lines[|lines| - 1], newStart);
    }
  }

  lemma {:induction false} EndsInPrefix(lines: seq<string>, k: int, j: int)
    requires 0 <= j < k <= |lines|
    ensures PureDeletionEnds(lines[..k], j) <==> PureDeletionEnds(lines, j)
  {
    var before := lines[..k];
    assert forall m :: 0 <= m < k ==> before[m] == lines[m];
    if Pending(lines, j) {
      var i :| 0 <= i < j <= |lines| && Deleted(lines[i]) && forall m :: i < m < j ==> Neutral(lines[m]);
      assert Deleted(before[i]);
    }
    if Pending(before, j) {
      var i :| 0 <= i < j <= |before| && Deleted(before[i]) && forall m :: i < m < j ==> Neutral(before[m]);
      assert Deleted(lines[i]);
    }
  }

  lemma {:induction false} AnchorPrefix(n: int, newStart: int, lines: seq<string>, k: int, x: int)
    requires 0 <= k <= |lines|
    ensures AnchorBefore(n, newStart, lines[..k], k, x) <==> AnchorBefore(n, newStart, lines, k, x)
  {
    var before := lines[..k];
    forall j | 0 <= j < k ensures (PureDeletionEnds(before, j) <==> PureDeletionEnds(lines, j))
      && before[..j] == lines[..j] {
      EndsInPrefix(lines, k, j);
    }
  }

  lemma {:induction false} WalkAnchors(w: Walk, lines: seq<string>, newStart: int, x: int)
    requires !w.pending
    ensures x in WalkLines(w, lines, newStart).anchors
       <==> x in w.anchors || AnchorBefore(w.newN, newStart, lines, |lines|, x)
  {
    if lines != [] {
      var k := |lines| - 1;
      WalkAnchors(w, lines[..k], newStart, x);
      WalkPosition(w, lines[..k], newStart);
      AnchorPrefix(w.newN, newStart, lines, k, x);
      assert Pending(lines, k) <==> Pending(lines[..k], k) by {
        PendingPrefix(lines, k);
      }
      assert AnchorBefore(w.newN, newStart, lines, k + 1, x) <==>
        (AnchorBefore(w.newN, newStart, lines, k, x)
         || (PureDeletionEnds(lines, k) && x in AnchorsAt(w.newN + NewSteps(lines[..k]), newStart)));
    }
  }

  lemma {:induction false} PendingPrefix(lines: seq<string>, k: int)
    requires 0 <= k <= |lines|
    ensures Pending(lines, k) <==> Pending(lines[..k], k)
  {
    var before := lines[..k];
    assert forall m :: 0 <= m < k ==> before[m] == lines[m];
    if Pending(lines, k) {
      var i :| 0 <= i < k <= |lines| && Deleted(lines[i]) && forall m :: i < m < k ==> Neutral(lines[m]);
      assert Deleted(before[i]);
    }
    if Pending(before, k) {
      var i :| 0 <= i < k <= |before| && Deleted(before[i]) && forall m :: i < m < k ==> Neutral(before[m]);
      assert Deleted(lines[i]);
    }
  }

  /** Indexing an untruncated hunk adds exactly the declared lines and anchors. */
  lemma {:induction false} IndexedLines(f: FileIndex, h: Hunk, x: int)
    requires !h.truncated
    ensures
      var f', lines := Indexed(f, h), Body(h);
      var (o, n) := Starts(h);
      && (x in f'.oldLines <==> x in f.oldLines || OldLineAt(o, lines, x))
      && (x in f'.newLines <==> x in f.newLines || NewLineAt(n, lines, x))
      && (x in f'.anchors <==> x in f.anchors || AnchorAt(n, h.newStart, lines, x))
  {
    var (o, n) := Starts(h);
    var lines := Body(h);
    var w := Walk(o, n, false, f.oldLines, f.newLines, f.anchors);
    WalkLineSets(w, lines, h.newStart, x);
    WalkAnchors(w, lines, h.newStart, x);
    WalkPosition(w, lines, h.newStart);
    assert lines[..|lines|] == lines;
    assert AnchorAt(n, h.newStart, lines, x) <==>
      (AnchorBefore(n, h.newStart, lines, |lines|, x)
       || (PureDeletionEnds(lines, |lines|) && x in AnchorsAt(n + NewSteps(lines), h.newStart)));
  }

  // ----- Hunks as the assembler prints them

  lemma {:induction false} FieldsOf(word: string, rest: string)
    requires word != "" && forall i :: 0 <= i < |word| ==> !IsSpace(word[i])
    ensures Fields(word + " " + rest) == [word] + Fields(rest)
  {
    var s := word + (" " + rest);
    assert s == word + " " + rest;
    WordThen(word, " " + rest);
    assert s[..|word|] == word && s[|word|..] == " " + rest;
    assert (" " + rest)[1..] == rest;
  }

  lemma {:induction false} CutAtComma(digits: string, rest: string)
    requires AllDigits(digits)
    ensures UntilComma(digits + "," + rest) == digits
  {
    if digits == "" {
      assert digits + "," + rest == "," + rest;
    } else {
      assert (digits + "," + rest)[1..] == digits[1..] + "," + rest;
      CutAtComma(digits[1..], rest);
    }
  }

  lemma {:induction false} StartOfPrinted(sign: char, start: nat, count: nat)
    requires (sign == '-' || sign == '+') && start <= MAX_INT
    ensures Atoi(UntilComma(TrimSigns([sign] + Show(start) + "," + Show(count)))) == Some(start)
  {
    var s := Show(start) + "," + Show(count);
    assert [sign] + Show(start) + "," + Show(count) == [sign] + s;
    assert ([sign] + s)[1..] == s;
    assert IsDigit(s[0]);
    CutAtComma(Show(start), Show(count));
  }

  lemma {:induction false} NoSpaceInRange(sign: char, start: nat, count: nat)
    requires sign == '-' || sign == '+'
    ensures
      var s := [sign] + Show(start) + "," + Show(count);
      forall i :: 0 <= i < |s| ==> !IsSpace(s[i])
  {
    var a, b := Show(start), Show(count);
    var s := [sign] + a + "," + b;
    forall i | 0 <= i < |s| ensures !IsSpace(s[i]) {
      if 1 <= i <= |a| {
        assert s[i] == a[i - 1] && IsDigit(a[i - 1]);
      } else if i > |a| + 1 {
        assert s[i] == b[i - |a| - 2] && IsDigit(b[i - |a| - 2]);
      }
    }
  }

  lemma {:induction false} ThreeFields(a: string, b: string, c: string, rest: string)
    requires a != "" && forall i :: 0 <= i < |a| ==> !IsSpace(a[i])
    requires b != "" && forall i :: 0 <= i < |b| ==> !IsSpace(b[i])
    requires c != "" && forall i :: 0 <= i < |c| ==> !IsSpace(c[i])
    ensures
      var fields := Fields(a + " " + (b + " " + (c + " " + rest)));
      |fields| >= 3 && fields[1] == b && fields[2] == c
  {
    FieldsOf(a, b + " " + (c + " " + rest));
    FieldsOf(b, c + " " + rest);
    FieldsOf(c, rest);
  }

  function RangeText(sign: char, start: nat, count: nat): string { [sign] + Show(start) + "," + Show(count) }

  lemma {:induction false} HeaderShape(oldStart: nat, oldLines: nat, newStart: nat, newLines: nat, trailer: string)
    ensures FormatHeader(oldStart, oldLines, newStart, newLines, trailer)
         == "@@" + " " + (RangeText('-', oldStart, oldLines) + " " + (RangeText('+', newStart,
           newLines) + " " + ("@@" + trailer)))
  {
  }

  lemma {:induction false} StartsOfFields(line: string, a: string, b: string, o: nat, n: nat)
    requires |Fields(line)| >= 3 && Fields(line)[1] == a && Fields(line)[2] == b && "-" <= a && "+" <= b
    requires Atoi(UntilComma(TrimSigns(a))) == Some(o) && Atoi(UntilComma(TrimSigns(b))) == Some(n)
    ensures HeaderStarts(line) == Some((o, n))
  {
  }

  /** The index reads the starts of a printed header back. */
  lemma {:induction false} PrintedStarts(oldStart: nat, oldLines: nat, newStart: nat, newLines: nat, trailer: string)
    requires oldStart <= MAX_INT && newStart <= MAX_INT
    ensures HeaderStarts(FormatHeader(oldStart, oldLines, newStart, newLines, trailer)) == Some((oldStart, newStart))
  {
    var line := FormatHeader(oldStart, oldLines, newStart, newLines, trailer);
    var o, n := RangeText('-', oldStart, oldLines), RangeText('+', newStart, newLines);
    HeaderShape(oldStart, oldLines, newStart, newLines, trailer);
    NoSpaceInRange('-', oldStart, oldLines);
    NoSpaceInRange('+', newStart, newLines);
    var at := "@@";
    assert !IsSpace(at[0]) && !IsSpace(at[1]);
    ThreeFields(at, o, n, "@@" + trailer);
    StartOfPrinted('-', oldStart, oldLines);
    StartOfPrinted('+', newStart, newLines);
    StartsOfFields(line, o, n, oldStart, newStart);
  }

  /** The patch of a parsed hunk is walked from its own starts over its own lines. */
  lemma {:induction false} PatchWalked(h: ParsedHunk)
    requires WellFormed(h)
    ensures Starts(ToHunk(h)) == (h.oldStart, h.newStart) && Body(ToHunk(h)) == h.lines
  {
    PrintedBreakless(h);
    SplitJoin([HeaderOf(h)] + h.lines);
    PrintedStarts(h.oldStart, CountOld(h.lines), h.newStart, CountNew(h.lines), h.trailer);
    assert ([HeaderOf(h)] + h.lines)[1..] == h.lines;
  }

  /** A line the assembler and the index classify alike. */
  predicate Regular(line: string) { line == "" || line[0] in {' ', '+', '-', '\\'} }

  function OddLines(lines: seq<string>): nat {
    if lines == [] then 0 else OddLines(lines[..|lines| - 1]) + if Regular(lines[|lines| - 1]) then 0 else 1
  }

  lemma {:induction false} StepsAndCounts(lines: seq<string>)
    ensures OldSteps(lines) == CountOld(lines) + OddLines(lines)
    ensures NewSteps(lines) == CountNew(lines) + OddLines(lines)
    ensures OddLines(lines) == 0 <==> forall i :: 0 <= i < |lines| ==> Regular(lines[i])
  {
    if lines != [] {
      StepsAndCounts(lines[..|lines| - 1]);
    }
  }

  ghost predicate AllRegular(lines: seq<string>) { forall i :: 0 <= i < |lines| ==> Regular(lines[i]) }

  /**
    The walk over a printed hunk ends where the assembler's counts say, on
    either side, if and only if every line is regular.
   */
  lemma {:induction false} WalkEndsIff(h: ParsedHunk, f: FileIndex)
    requires WellFormed(h)
    ensures
      var k, w := ToHunk(h), WalkHunk(f, ToHunk(h));
      && (w.oldN == k.oldStart + k.oldLines <==> AllRegular(h.lines))
      && (w.newN == k.newStart + k.newLines <==> AllRegular(h.lines))
  {
    PatchWalked(h);
    StepsAndCounts(h.lines);
    WalkPosition(Walk(h.oldStart, h.newStart, false, f.oldLines, f.newLines, f.anchors), h.lines, h.newStart);
  }

  /** A line that starts with any other character is stepped over by the index and not counted by the assembler. */
  lemma {:induction false} OddLineDerails(h: ParsedHunk, f: FileIndex)
    requires h == ParsedHunk(1, 1, "", ["x"])
    ensures WellFormed(h) && WalkHunk(f, ToHunk(h)).oldN != ToHunk(h).oldStart + ToHunk(h).oldLines
  {
    assert !Regular(h.lines[0]);
    WalkEndsIff(h, f);
  }

  // ----- The file index holds exactly what its hunks touch

  /** An untruncated hunk changes line x on the side, or has a deletion anchor there. */
  ghost predicate Touches(h: Hunk, side: Side, x: int) {
    && !h.truncated
    && if side == OldSide then OldLineAt(Starts(h).0, Body(h), x)
       else NewLineAt(Starts(h).1, Body(h), x) || AnchorAt(Starts(h).1, h.newStart, Body(h), x)
  }

  /** The span of the hunk on the side holds the whole range. */
  predicate Covers(h: Hunk, side: Side, start: int, end: int) {
    var first, count := if side == OldSide then h.oldStart else h.newStart,
      if side == OldSide then h.oldLines else h.newLines;
    first <= start && end < first + if count > 1 then count else 1
  }

  /** A patch is walked behind its header line; without a readable one, from the hunk's own starts. */
  lemma {:induction false} StartsMeaning(h: Hunk)
    ensures HeaderStarts(Split(h.patch)[0]).None? || !IsHeader(Split(h.patch)[0]) ==>
      Starts(h) == (h.oldStart, h.newStart)
    ensures !IsHeader(Split(h.patch)[0]) ==> Body(h) == Split(h.patch)
    ensures IsHeader(Split(h.patch)[0]) ==> Body(h) == Split(h.patch)[1..]
  {
  }

  ghost predicate Touched(hunks: seq<Hunk>, side: Side, x: int) {
    exists k :: 0 <= k < |hunks| && Touches(hunks[k], side, x)
  }

  ghost predicate InOneHunk(hunks: seq<Hunk>, side: Side, start: int, end: int) {
    exists k :: 0 <= k < |hunks| && !hunks[k].truncated && Covers(hunks[k], side, start, end)
  }

  ghost predicate InTruncatedHunk(hunks: seq<Hunk>, side: Side, start: int, end: int) {
    exists k :: 0 <= k < |hunks| && hunks[k].truncated && Covers(hunks[k], side, start, end)
  }

  lemma {:induction false} LastTouches(hunks: seq<Hunk>, side: Side, x: int)
    requires hunks != []
    ensures Touched(hunks, side, x) <==> Touched(hunks[..|hunks| - 1], side, x) || Touches(hunks[|hunks| - 1], side, x)
  {
    var n := |hunks| - 1;
    if k :| 0 <= k < |hunks| && Touches(hunks[k], side, x) {
      assert k < n ==> Touches(hunks[..n][k], side, x);
    }
    if k :| 0 <= k < n && Touches(hunks[..n][k], side, x) {
      assert Touches(hunks[k], side, x);
    }
  }

  lemma {:induction false} LastCovers(hunks: seq<Hunk>, side: Side, start: int, end: int)
    requires hunks != []
    ensures
      var before, last := hunks[..|hunks| - 1], hunks[|hunks| - 1];
      && (InOneHunk(hunks, side, start, end) <==>
            InOneHunk(before, side, start, end) || (!last.truncated && Covers(last, side, start, end)))
      && (InTruncatedHunk(hunks, side, start, end) <==>
            InTruncatedHunk(before, side, start, end) || (last.truncated && Covers(last, side, start, end)))
  {
    var n := |hunks| - 1;
    forall k | 0 <= k < n ensures hunks[..n][k] == hunks[k] {}
    if k :| 0 <= k < n && Covers(hunks[..n][k], side, start, end) {
      assert Covers(hunks[k], side, start, end);
    }
  }

  lemma {:induction false} FileLines(hunks: seq<Hunk>, x: int)
    ensures
      var f := FileOf(hunks);
      && (x in f.oldLines <==> Touched(hunks, OldSide, x))
      && (x in f.newLines || x in f.anchors <==> Touched(hunks, NewSide, x))
  {
    if hunks != [] {
      var before, last := hunks[..|hunks| - 1], hunks[|hunks| - 1];
      FileLines(before, x);
      LastTouches(hunks, OldSide, x);
      LastTouches(hunks, NewSide, x);
      if !last.truncated {
        IndexedLines(FileOf(before), last, x);
      }
    }
  }

  lemma {:induction false} WithinAppend(spans: seq<Span>, span: Span, start: int, end: int)
    ensures Within(spans + [span], start, end) <==>
      Within(spans, start, end) || (span.start <= start && end <= span.end)
  {
    var longer := spans + [span];
    assert longer[|spans|] == span;
    if i :| 0 <= i < |spans| && spans[i].start <= start && end <= spans[i].end {
      assert longer[i] == spans[i];
    }
  }

  lemma {:induction false} FileSpans(hunks: seq<Hunk>, start: int, end: int)
    ensures
      var f := FileOf(hunks);
      && (Within(f.oldSpans, start, end) <==> InOneHunk(hunks, OldSide, start, end))
      && (Within(f.newSpans, start, end) <==> InOneHunk(hunks, NewSide, start, end))
      && (Within(f.partialOld, start, end) <==> InTruncatedHunk(hunks, OldSide, start, end))
      && (Within(f.partialNew, start, end) <==> InTruncatedHunk(hunks, NewSide, start, end))
  {
    if hunks != [] {
      var before, last := FileOf(hunks[..|hunks| - 1]), hunks[|hunks| - 1];
      FileSpans(hunks[..|hunks| - 1], start, end);
      LastCovers(hunks, OldSide, start, end);
      LastCovers(hunks, NewSide, start, end);
      if last.truncated {
        WithinAppend(before.partialOld, OldSpan(last), start, end);
        WithinAppend(before.partialNew, NewSpan(last), start, end);
      } else {
        WithinAppend(before.oldSpans, OldSpan(last), start, end);
        WithinAppend(before.newSpans, NewSpan(last), start, end);
      }
    }
  }

  // ----- What verify accepts

  ghost function Names(c: Change): set<string> {
    if c.hunks == [] then {} else {TrimSpace(c.path), TrimSpace(c.oldPath)} - {""}
  }

  /** The change that the index keeps for a path: the last one with hunks that names it. */
  ghost predicate Owner(changes: seq<Change>, path: string, c: nat) {
    c < |changes| && path in Names(changes[c]) && forall d :: c < d < |changes| ==> path !in Names(changes[d])
  }

  lemma {:induction false} IndexStep(changes: seq<Change>, path: string)
    requires changes != []
    ensures
      var last := |changes| - 1;
      var before, after := IndexOf(changes[..last]), IndexOf(changes);
      if path in Names(changes[last]) then path in after && after[path] == FileOf(changes[last].hunks)
      else (path in after <==> path in before) && (path in before ==> after[path] == before[path])
  {
  }

  lemma {:induction false} OwnerIndexed(changes: seq<Change>, path: string, c: nat)
    requires Owner(changes, path, c)
    ensures path in IndexOf(changes) && IndexOf(changes)[path] == FileOf(changes[c].hunks)
  {
    var last := |changes| - 1;
    IndexStep(changes, path);
    if c < last {
      OwnerIndexed(changes[..last], path, c);
    }
  }

  lemma {:induction false} IndexedHasOwner(changes: seq<Change>, path: string) returns (c: nat)
    requires path in IndexOf(changes)
    ensures Owner(changes, path, c)
  {
    var last := |changes| - 1;
    IndexStep(changes, path);
    if path in Names(changes[last]) {
      c := last;
    } else {
      c := IndexedHasOwner(changes[..last], path);
      OwnerStays(changes, path, c);
    }
  }

  lemma {:induction false} OwnerStays(changes: seq<Change>, path: string, c: nat)
    requires changes != [] && Owner(changes[..|changes| - 1], path, c) && path !in Names(changes[|changes| - 1])
    ensures Owner(changes, path, c)
  {
    var before := changes[..|changes| - 1];
    forall d | c < d < |changes| ensures path !in Names(changes[d]) {
      assert d < |before| ==> before[d] == changes[d];
    }
  }

  /** What the location must satisfy: a touched line with its range in one hunk, or a range in a truncated hunk. */
  ghost predicate InDiffOf(hunks: seq<Hunk>, loc: Location) {
    var end := MaxInt(loc.startLine, loc.endLine);
    || (Touched(hunks, loc.side, loc.startLine) && InOneHunk(hunks, loc.side, loc.startLine, end))
    || InTruncatedHunk(hunks, loc.side, loc.startLine, end)
  }

  /** The verdict on a location in a changed file, in terms of the hunk texts alone. */
  lemma {:induction false} VerifyIff(changes: seq<Change>, loc: Location, c: nat)
    requires Owner(changes, TrimSpace(loc.path), c) && loc.startLine > 0
    ensures Verify(IndexOf(changes), loc) == if InDiffOf(changes[c].hunks, loc) then InDiff else OutOfDiff
  {
    OwnerIndexed(changes, TrimSpace(loc.path), c);
    FileLines(changes[c].hunks, loc.startLine);
    FileSpans(changes[c].hunks, loc.startLine, MaxInt(loc.startLine, loc.endLine));
  }

  /**
    A finding with a start line that is placed inline in a changed file starts
    on a changed line or a deletion anchor with its range inside one hunk, or
    its range lies in a truncated hunk.
   */
  lemma {:induction false} InlineIsInDiff(changes: seq<Change>, loc: Location) returns (c: nat)
    requires PlacementOf(IndexOf(changes), loc) == Inline && loc.startLine > 0
      && TrimSpace(loc.path) in IndexOf(changes)
    ensures Owner(changes, TrimSpace(loc.path), c) && InDiffOf(changes[c].hunks, loc)
  {
    c := IndexedHasOwner(changes, TrimSpace(loc.path));
    VerifyIff(changes, loc, c);
  }

  /**
    Where a finding goes: to the summary without a file to put it in, to its
    file if it starts outside the diff of a changed file, and inline otherwise.
   */
  lemma {:induction false} PlacementIff(changes: seq<Change>, loc: Location)
    ensures
      var placement, path := PlacementOf(IndexOf(changes), loc), TrimSpace(loc.path);
      && (placement == Summary <==>
            path == "" || (loc.startLine <= 0 && loc.endLine <= 0 && path[|path| - 1] == '/'))
      && (placement == FileLevel <==>
            path != "" && loc.startLine > 0 &&
              exists c: nat :: Owner(changes, path, c) && !InDiffOf(changes[c].hunks, loc))
  {
    var path := TrimSpace(loc.path);
    if path in IndexOf(changes) {
      var c := IndexedHasOwner(changes, path);
      if loc.startLine > 0 {
        VerifyIff(changes, loc, c);
        forall d: nat | Owner(changes, path, d)
          ensures Verify(IndexOf(changes), loc) == if InDiffOf(changes[d].hunks, loc) then InDiff else OutOfDiff
        {
          VerifyIff(changes, loc, d);
        }
      }
    } else {
      forall d: nat | Owner(changes, path, d) ensures false {
        OwnerIndexed(changes, path, d);
      }
    }
  }

  // ----- Changed lines of printed hunks

  lemma {:induction false} StepsMonotone(lines: seq<string>, k: nat)
    requires k <= |lines|
    ensures OldSteps(lines[..k]) <= OldSteps(lines) && NewSteps(lines[..k]) <= NewSteps(lines)
    ensures k < |lines| && Deleted(lines[k]) ==> OldSteps(lines[..k]) < OldSteps(lines)
    ensures k < |lines| && Added(lines[k]) ==> NewSteps(lines[..k]) < NewSteps(lines)
    decreases |lines|
  {
    if k < |lines| {
      var shorter := lines[..|lines| - 1];
      assert shorter[..k] == lines[..k];
      StepsMonotone(shorter, k);
    } else {
      assert lines[..k] == lines;
    }
  }

  /** An untruncated hunk of the change that owns the path. */
  ghost predicate Printed(changes: seq<Change>, path: string, c: nat, k: nat, h: ParsedHunk) {
    && Owner(changes, path, c) && k < |changes[c].hunks| && changes[c].hunks[k] == ToHunk(h)
    && WellFormed(h) && TrimSpace(path) == path
  }

  /** What the text of the hunk changes on the side. */
  ghost predicate Changes(h: ParsedHunk, side: Side, x: int) {
    if side == OldSide then OldLineAt(h.oldStart, h.lines, x)
    else NewLineAt(h.newStart, h.lines, x) || AnchorAt(h.newStart, h.newStart, h.lines, x)
  }

  lemma {:induction false} PrintedTouches(h: ParsedHunk, side: Side, x: int)
    requires WellFormed(h)
    ensures Touches(ToHunk(h), side, x) <==> Changes(h, side, x)
  {
    PatchWalked(h);
  }

  /** Some hunk of the file, truncated or not, holds the range. */
  ghost predicate Spanned(hunks: seq<Hunk>, side: Side, start: int, end: int) {
    InOneHunk(hunks, side, start, end) || InTruncatedHunk(hunks, side, start, end)
  }

  /** A location that starts on a changed line of any hunk is accepted exactly when some hunk's span holds its range. */
  lemma {:induction false} ChangedLineAcceptedIff(changes: seq<Change>, loc: Location, c: nat, k: nat, h: ParsedHunk)
    requires Printed(changes, loc.path, c, k, h) && loc.startLine >= 1 && Changes(h, loc.side, loc.startLine)
    ensures Verify(IndexOf(changes), loc) == InDiff <==>
      Spanned(changes[c].hunks, loc.side, loc.startLine, MaxInt(loc.startLine, loc.endLine))
  {
    PrintedTouches(h, loc.side, loc.startLine);
    assert Touches(changes[c].hunks[k], loc.side, loc.startLine);
    VerifyIff(changes, loc, c);
  }

  lemma {:induction false} OwnSpan(h: ParsedHunk, side: Side, x: int)
    requires AllRegular(h.lines)
      && if side == OldSide then OldLineAt(h.oldStart, h.lines, x) else NewLineAt(h.newStart, h.lines, x)
    ensures Covers(ToHunk(h), side, x, x)
  {
    StepsAndCounts(h.lines);
    if side == OldSide {
      var j :| 0 <= j < |h.lines| && Deleted(h.lines[j]) && x == h.oldStart + OldSteps(h.lines[..j]);
      StepsMonotone(h.lines, j);
    } else {
      var j :| 0 <= j < |h.lines| && Added(h.lines[j]) && x == h.newStart + NewSteps(h.lines[..j]);
      StepsMonotone(h.lines, j);
    }
  }

  lemma {:induction false} CoveredLineAccepted(changes: seq<Change>, loc: Location, c: nat, k: nat, h: ParsedHunk)
    requires Printed(changes, loc.path, c, k, h) && loc.startLine >= 1 && loc.endLine <= loc.startLine
    requires Changes(h, loc.side, loc.startLine) && Covers(ToHunk(h), loc.side, loc.startLine, loc.startLine)
    ensures Verify(IndexOf(changes), loc) == InDiff
  {
    ChangedLineAcceptedIff(changes, loc, c, k, h);
    assert Covers(changes[c].hunks[k], loc.side, loc.startLine, loc.startLine);
  }

  /** In a regular hunk every deleted line is accepted on the old side. */
  lemma {:induction false} DeletedLinesAccepted(changes: seq<Change>, loc: Location, c: nat, k: nat, h: ParsedHunk)
    requires Printed(changes, loc.path, c, k, h) && AllRegular(h.lines) && loc.startLine >= 1
    requires loc.side == OldSide && loc.endLine <= loc.startLine && OldLineAt(h.oldStart, h.lines, loc.startLine)
    ensures Verify(IndexOf(changes), loc) == InDiff
  {
    OwnSpan(h, OldSide, loc.startLine);
    CoveredLineAccepted(changes, loc, c, k, h);
  }

  /** In a regular hunk every added line is accepted on the new side. */
  lemma {:induction false} AddedLinesAccepted(changes: seq<Change>, loc: Location, c: nat, k: nat, h: ParsedHunk)
    requires Printed(changes, loc.path, c, k, h) && AllRegular(h.lines) && loc.startLine >= 1
    requires loc.side == NewSide && loc.endLine <= loc.startLine && NewLineAt(h.newStart, h.lines, loc.startLine)
    ensures Verify(IndexOf(changes), loc) == InDiff
  {
    OwnSpan(h, NewSide, loc.startLine);
    CoveredLineAccepted(changes, loc, c, k, h);
  }

  /** So is a changed line that is kept in a regular truncated hunk. */
  lemma {:induction false} TruncatedLinesAccepted(changes: seq<Change>, loc: Location, c: nat, k: nat, h: ParsedHunk)
    requires Owner(changes, loc.path, c) && TrimSpace(loc.path) == loc.path && k < |changes[c].hunks|
    requires changes[c].hunks[k] == ToHunk(h).(truncated := true) && AllRegular(h.lines)
    requires loc.startLine >= 1 && loc.endLine <= loc.startLine
    requires if loc.side == OldSide then OldLineAt(h.oldStart, h.lines, loc.startLine)
      else NewLineAt(h.newStart, h.lines, loc.startLine)
    ensures Verify(IndexOf(changes), loc) == InDiff
  {
    OwnSpan(h, loc.side, loc.startLine);
    assert Covers(changes[c].hunks[k], loc.side, loc.startLine, loc.startLine);
    VerifyIff(changes, loc, c);
  }

  // ----- Runs of pure deletions

  /** The anchors of a run of pure deletions that ends at position j. */
  function RunAnchors(h: ParsedHunk, j: nat): set<int>
    requires j <= |h.lines|
  {
    AnchorsAt(h.newStart + NewSteps(h.lines[..j]), h.newStart)
  }

  function OneLine(path: string, side: Side, x: int): Location { Location(path, side, x, x, "", "") }

  ghost predicate Accepted(changes: seq<Change>, path: string, x: int) {
    Verify(IndexOf(changes), OneLine(path, NewSide, x)) == InDiff
  }

  /** An anchor is accepted exactly when it is a line number and some hunk's span holds it. */
  lemma {:induction false} AnchorAcceptedIff(
    changes: seq<Change>, path: string, c: nat, k: nat, h: ParsedHunk, j: nat, x: int)
    requires Printed(changes, path, c, k, h) && PureDeletionEnds(h.lines, j) && x in RunAnchors(h, j)
    ensures Accepted(changes, path, x) <==> x >= 1 && Spanned(changes[c].hunks, NewSide, x, x)
  {
    assert AnchorAt(h.newStart, h.newStart, h.lines, x);
    if x >= 1 {
      ChangedLineAcceptedIff(changes, OneLine(path, NewSide, x), c, k, h);
    }
  }

  lemma {:induction false} AnchorSpan(h: ParsedHunk, j: nat, x: int)
    requires AllRegular(h.lines) && j <= |h.lines| && x in RunAnchors(h, j)
    ensures NewSteps(h.lines[..j]) <= CountNew(h.lines)
    ensures Covers(ToHunk(h), NewSide, x, x) <==> x - h.newStart < MaxInt(CountNew(h.lines), 1)
  {
    StepsMonotone(h.lines, j);
    StepsAndCounts(h.lines);
  }

  /** In a regular hunk with new start at least 1 every run of pure deletions has an accepted anchor. */
  lemma {:induction false} DeletionAccepted(changes: seq<Change>, path: string, c: nat, k: nat, h: ParsedHunk, j: nat)
    returns (x: int)
    requires Printed(changes, path, c, k, h) && AllRegular(h.lines) && h.newStart >= 1 && PureDeletionEnds(h.lines, j)
    ensures x in RunAnchors(h, j) && Accepted(changes, path, x)
  {
    var steps := NewSteps(h.lines[..j]);
    x := if steps > 0 then h.newStart + steps - 1 else h.newStart;
    AnchorSpan(h, j, x);
    assert Covers(changes[c].hunks[k], NewSide, x, x);
    AnchorAcceptedIff(changes, path, c, k, h, j, x);
  }

  ghost predicate DeletionAnchored(changes: seq<Change>, path: string, h: ParsedHunk, j: nat)
    requires j <= |h.lines|
  {
    exists x :: x in RunAnchors(h, j) && Accepted(changes, path, x)
  }

  /**
    In any file and any hunk, a run of pure deletions has an accepted line on the
    new side if and only if the line behind the run or the hunk's line before it
    is a line number that some hunk's span holds.
   */
  lemma {:induction false} DeletionAnchoredIff(
    changes: seq<Change>, path: string, c: nat, k: nat, h: ParsedHunk, j: nat)
    requires Printed(changes, path, c, k, h) && PureDeletionEnds(h.lines, j)
    ensures
      var at, hunks := h.newStart + NewSteps(h.lines[..j]), changes[c].hunks;
      DeletionAnchored(changes, path, h, j) <==>
      || (at >= 1 && Spanned(hunks, NewSide, at, at))
      || (at - 1 >= MaxInt(h.newStart, 1) && Spanned(hunks, NewSide, at - 1, at - 1))
  {
    RunAccepted(changes, path, c, k, h, j);
    TwoAnchors(h, j, (x: int) => x >= 1 && Spanned(changes[c].hunks, NewSide, x, x));
  }

  lemma {:induction false} RunAccepted(changes: seq<Change>, path: string, c: nat, k: nat, h: ParsedHunk, j: nat)
    requires Printed(changes, path, c, k, h) && PureDeletionEnds(h.lines, j)
    ensures DeletionAnchored(changes, path, h, j) <==>
      exists x :: x in RunAnchors(h, j) && x >= 1 && Spanned(changes[c].hunks, NewSide, x, x)
  {
    forall x | x in RunAnchors(h, j)
      ensures Accepted(changes, path, x) <==> x >= 1 && Spanned(changes[c].hunks, NewSide, x, x)
    {
      AnchorAcceptedIff(changes, path, c, k, h, j, x);
    }
  }

  lemma {:induction false} TwoAnchors(h: ParsedHunk, j: nat, p: int -> bool)
    requires j <= |h.lines|
    ensures
      var at := h.newStart + NewSteps(h.lines[..j]);
      (exists x :: x in RunAnchors(h, j) && p(x)) <==> p(at) || (at - 1 >= h.newStart && p(at - 1))
  {
    var at := h.newStart + NewSteps(h.lines[..j]);
    assert at in RunAnchors(h, j) && (at - 1 >= h.newStart ==> at - 1 in RunAnchors(h, j));
  }

  /**
    In closed form for the only hunk of a file, when it is regular: the hunk does
    not start at line 0, or enough lines of the new file stand around the run.
   */
  lemma {:induction false} LoneDeletionIff(changes: seq<Change>, path: string, c: nat, h: ParsedHunk, j: nat)
    requires Printed(changes, path, c, 0, h) && |changes[c].hunks| == 1 && AllRegular(h.lines)
    requires PureDeletionEnds(h.lines, j)
    ensures
      var steps := NewSteps(h.lines[..j]);
      DeletionAnchored(changes, path, h, j) <==> h.newStart >= 1 || steps >= 2 || (steps == 1 && CountNew(h.lines) >= 2)
  {
    forall x | x in RunAnchors(h, j) ensures Accepted(changes, path, x) <==> Reachable(h, x) {
      LoneAnchor(changes, path, c, h, j, x);
    }
    AnchorNumbers(h, j);
  }

  /** A line number inside the hunk's own span. */
  predicate Reachable(h: ParsedHunk, x: int) { x >= 1 && x - h.newStart < MaxInt(CountNew(h.lines), 1) }

  lemma {:induction false} AnchorNumbers(h: ParsedHunk, j: nat)
    requires AllRegular(h.lines) && j <= |h.lines|
    ensures
      var steps := NewSteps(h.lines[..j]);
      (exists x :: x in RunAnchors(h, j) && Reachable(h, x)) <==>
      h.newStart >= 1 || steps >= 2 || (steps == 1 && CountNew(h.lines) >= 2)
  {
    var at := h.newStart + NewSteps(h.lines[..j]);
    AnchorSpan(h, j, at);
    assert at in RunAnchors(h, j);
    if at > h.newStart {
      assert at - 1 in RunAnchors(h, j);
    }
  }

  lemma {:induction false} LoneAnchor(changes: seq<Change>, path: string, c: nat, h: ParsedHunk, j: nat, x: int)
    requires Printed(changes, path, c, 0, h) && |changes[c].hunks| == 1 && AllRegular(h.lines)
    requires PureDeletionEnds(h.lines, j) && x in RunAnchors(h, j)
    ensures Accepted(changes, path, x) <==> Reachable(h, x)
  {
    AnchorSpan(h, j, x);
    AnchorAcceptedIff(changes, path, c, 0, h, j, x);
    LoneSpan(changes[c].hunks, x);
  }

  lemma {:induction false} LoneSpan(hunks: seq<Hunk>, x: int)
    requires |hunks| == 1 && !hunks[0].truncated
    ensures Spanned(hunks, NewSide, x, x) <==> Covers(hunks[0], NewSide, x, x)
  {
  }

  /** The hunk of a deleted file starts at line 0, and its deletion has no line a comment can go to. */
  lemma {:induction false} DeletedFileUnanchored(changes: seq<Change>, path: string, c: nat, h: ParsedHunk)
    requires h == ParsedHunk(1, 0, "", ["-a"])
    requires Printed(changes, path, c, 0, h) && |changes[c].hunks| == 1
    ensures PureDeletionEnds(h.lines, 1) && !DeletionAnchored(changes, path, h, 1)
  {
    assert Deleted(h.lines[0]);
    assert h.lines[..1] == h.lines && h.lines[..0] == [];
    LoneDeletionIff(changes, path, c, h, 1);
  }

  /** Behind a line of no known kind an added line can fall outside the span, and is then rejected. */
  lemma {:induction false} OddLineRejects(changes: seq<Change>, loc: Location, c: nat, h: ParsedHunk)
    requires h == ParsedHunk(1, 1, "", ["x", "+a"])
    requires Printed(changes, loc.path, c, 0, h) && |changes[c].hunks| == 1
    requires loc.side == NewSide && loc.startLine == loc.endLine == 2
    ensures Changes(h, NewSide, 2) && Verify(IndexOf(changes), loc) != InDiff
  {
    assert Context(h.lines[0]) && Added(h.lines[1]);
    assert h.lines[..1][..0] == [] && NewSteps(h.lines[..1]) == 1;
    assert CountNew(h.lines[..0]) == 0 && CountNew(h.lines[..1]) == 0 && CountNew(h.lines) == 1;
    ChangedLineAcceptedIff(changes, loc, c, 0, h);
    LoneSpan(changes[c].hunks, 2);
  }
}
