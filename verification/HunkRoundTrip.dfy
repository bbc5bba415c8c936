/** Printing hunks and parsing the patches again. */
module HunkRoundTrip {
  import opened Text
  import opened Hunks
  import opened HunkSections

  predicate EndsCR(s: string) { s != "" && s[|s| - 1] == '\r' }

  function StripCR(s: string): string { if EndsCR(s) then s[..|s| - 1] else s }

  /** Loses a trailing CR on every line but the last. */
  function StripFront(lines: seq<string>): (r: seq<string>)
    ensures |r| == |lines|
  {
    if |lines| <= 1 then lines else [StripCR(lines[0])] + StripFront(lines[1..])
  }

  function DropEmptyTail(lines: seq<string>): seq<string> {
    if lines != [] && lines[|lines| - 1] == "" then DropEmptyTail(lines[..|lines| - 1]) else lines
  }

  /** What is left of a hunk after it is printed and parsed again. */
  function Cleaned(h: ParsedHunk): ParsedHunk {
    if h.lines == [] then h
    else h.(trailer := StripCR(h.trailer), lines := DropEmptyTail(StripFront(h.lines)))
  }

  /** No empty line at the end, and no CR in front of a line break. */
  predicate Lossless(h: ParsedHunk) {
    h.lines == []
    || (&& h.lines[|h.lines| - 1] != ""
        && !EndsCR(h.trailer)
        && forall i :: 0 <= i < |h.lines| - 1 ==> !EndsCR(h.lines[i]))
  }

  ghost predicate Breakless(lines: seq<string>) { forall i :: 0 <= i < |lines| ==> '\n' !in lines[i] }

  // ----- Splitting and joining

  lemma {:induction false} FirstLine(a: string, rest: string)
    requires '\n' !in a
    ensures LineLength(a + "\n" + rest) == |a|
    ensures LineLength(a) == |a|
  {
    if a == "" {
      assert a + "\n" + rest == "\n" + rest;
    } else {
      assert (a + "\n" + rest)[1..] == a[1..] + "\n" + rest;
      FirstLine(a[1..], rest);
    }
  }

  lemma {:induction false} SplitJoin(lines: seq<string>)
    requires lines != [] && Breakless(lines)
    ensures Split(Join(lines, "\n")) == lines
  {
    if |lines| == 1 {
      FirstLine(lines[0], "");
    } else {
      var a, rest := lines[0], Join(lines[1..], "\n");
      FirstLine(a, rest);
      assert a + "\n" + rest == Join(lines, "\n");
      assert (a + "\n" + rest)[..|a|] == a && (a + "\n" + rest)[|a| + 1..] == rest;
      SplitJoin(lines[1..]);
    }
  }

  lemma {:induction false} JoinLast(lines: seq<string>)
    requires |lines| >= 2
    ensures Join(lines, "\n") == Join(lines[..|lines| - 1], "\n") + "\n" + lines[|lines| - 1]
  {
    var n := |lines| - 1;
    if n == 1 {
      assert lines[1..] == [lines[1]] && lines[..1] == [lines[0]];
    } else {
      JoinLast(lines[1..]);
      assert lines[1..][..n - 1] == lines[..n][1..];
    }
  }

  // ----- What the two clean-up passes do to joined lines

  lemma {:induction false} DropCRWhole(a: string)
    requires '\n' !in a
    ensures DropCR(a) == a
  {
    if a != "" {
      DropCRWhole(a[1..]);
      assert |a| >= 2 ==> a[1] in a;
    }
  }

  lemma {:induction false} DropCRHead(s: string)
    requires s != "" && !(|s| >= 2 && s[0] == '\r' && s[1] == '\n')
    ensures DropCR(s) == [s[0]] + DropCR(s[1..])
  {
  }

  lemma {:induction false} StripCRHead(a: string)
    requires a != "" && a != "\r"
    ensures StripCR(a) == [a[0]] + StripCR(a[1..])
  {
  }

  lemma {:induction false} DropCRLine(a: string, rest: string)
    requires '\n' !in a
    ensures DropCR(a + "\n" + rest) == StripCR(a) + "\n" + DropCR(rest)
  {
    var s := a + "\n" + rest;
    if a == "" {
      assert s[1..] == rest;
      DropCRHead(s);
    } else if a == "\r" {
      assert s[2..] == rest;
    } else {
      assert s[1..] == a[1..] + "\n" + rest;
      assert |a| >= 2 ==> s[1] == a[1] && a[1] in a;
      DropCRHead(s);
      DropCRLine(a[1..], rest);
      StripCRHead(a);
    }
  }

  lemma {:induction false} DropCRJoin(lines: seq<string>)
    requires lines != [] && Breakless(lines)
    ensures DropCR(Join(lines, "\n")) == Join(StripFront(lines), "\n")
    ensures Breakless(StripFront(lines))
  {
    if |lines| == 1 {
      DropCRWhole(lines[0]);
    } else {
      DropCRLine(lines[0], Join(lines[1..], "\n"));
      DropCRJoin(lines[1..]);
      assert StripFront(lines)[1..] == StripFront(lines[1..]);
    }
  }

  lemma {:induction false} JoinEnd(lines: seq<string>)
    requires lines != [] && lines[|lines| - 1] != ""
    ensures
      var t, last := Join(lines, "\n"), lines[|lines| - 1];
      t != "" && t[|t| - 1] == last[|last| - 1]
  {
    if |lines| > 1 {
      JoinLast(lines);
    }
  }

  lemma {:induction false} TrimNewlinesJoin(front: seq<string>, lines: seq<string>)
    requires front != [] && front[|front| - 1] != "" && Breakless(front + lines)
    ensures TrimNewlines(Join(front + lines, "\n")) == Join(front + DropEmptyTail(lines), "\n")
    ensures Breakless(front + DropEmptyTail(lines))
    decreases |lines|
  {
    var all := front + lines;
    if lines != [] && lines[|lines| - 1] == "" {
      var fewer := lines[..|lines| - 1];
      JoinLast(all);
      assert all[..|all| - 1] == front + fewer;
      var shorter := Join(front + fewer, "\n");
      assert Join(all, "\n") == shorter + "\n";
      assert (shorter + "\n")[..|shorter|] == shorter;
      assert forall i :: 0 <= i < |front + fewer| ==> (front + fewer)[i] == all[i];
      TrimNewlinesJoin(front, fewer);
    } else {
      JoinEnd(all);
      assert all[|all| - 1][|all[|all| - 1]| - 1] in all[|all| - 1];
    }
  }

  // ----- The header

  lemma {:induction false} DigitsThen(digits: string, rest: string)
    requires AllDigits(digits) && (rest == "" || !IsDigit(rest[0]))
    ensures DigitCount(digits + rest) == |digits|
  {
    if digits == "" {
      assert digits + rest == rest;
    } else {
      assert (digits + rest)[1..] == digits[1..] + rest;
      DigitsThen(digits[1..], rest);
    }
  }

  lemma {:induction false} RangeOfDigits(a: string, b: string, rest: string)
    requires a != "" && b != "" && AllDigits(a) && AllDigits(b) && rest != "" && !IsDigit(rest[0])
    ensures Range(a + "," + b + rest) == Some((Clamp(NumberOf(a)), rest))
  {
    var tail := "," + b + rest;
    var s := a + tail;
    assert a + "," + b + rest == s;
    DigitsThen(a, tail);
    assert s[..|a|] == a && s[|a|..] == tail;
    assert tail[1..] == b + rest;
    DigitsThen(b, rest);
    assert (b + rest)[|b|..] == rest;
  }

  lemma {:induction false} RangeOfPrinted(start: nat, count: nat, rest: string)
    requires rest != "" && !IsDigit(rest[0]) && start <= MAX_INT
    ensures Range(Show(start) + "," + Show(count) + rest) == Some((start, rest))
  {
    RangeOfDigits(Show(start), Show(count), rest);
  }

  lemma {:induction false} HeaderOfParts(x: string, o: nat, y: string, n: nat, trailer: string)
    requires Range(x) == Some((o, " +" + y)) && Range(y) == Some((n, " @@" + trailer))
    ensures MatchHeader("@@ -" + x) == Some(Header(o, n, trailer))
  {
    assert ("@@ -" + x)[4..] == x;
    assert (" +" + y)[2..] == y;
    assert (" @@" + trailer)[3..] == trailer;
  }

  lemma {:induction false} HeaderParts(a: string, b: string, c: string, d: string, trailer: string)
    ensures "@@ -" + a + "," + b + " +" + c + "," + d + " @@" + trailer
         == "@@ -" + (a + "," + b + (" +" + (c + "," + d + (" @@" + trailer))))
  {
  }

  /** A printed header is read back with the same starts and trailer. */
  lemma {:induction false} PrintedHeaderRead(
    oldStart: nat, oldLines: nat, newStart: nat, newLines: nat, trailer: string)
    requires oldStart <= MAX_INT && newStart <= MAX_INT
    ensures MatchHeader(FormatHeader(oldStart, oldLines, newStart, newLines, trailer))
         == Some(Header(oldStart, newStart, trailer))
  {
    var newPart := Show(newStart) + "," + Show(newLines) + (" @@" + trailer);
    RangeOfPrinted(oldStart, oldLines, " +" + newPart);
    RangeOfPrinted(newStart, newLines, " @@" + trailer);
    HeaderOfParts(Show(oldStart) + "," + Show(oldLines) + (" +" + newPart), oldStart, newPart, newStart, trailer);
    HeaderParts(Show(oldStart), Show(oldLines), Show(newStart), Show(newLines), trailer);
  }

  // ----- The round trip

  lemma {:induction false} CleanedLines(lines: seq<string>, i: nat)
    requires i < |DropEmptyTail(StripFront(lines))|
    requires forall j :: 0 <= j < |lines| ==> !IsHeader(lines[j])
    ensures !IsHeader(DropEmptyTail(StripFront(lines))[i])
  {
    DropEmptyTailPrefix(StripFront(lines));
    StripFrontAt(lines, i);
  }

  lemma {:induction false} DropEmptyTailPrefix(lines: seq<string>)
    ensures DropEmptyTail(lines) <= lines
    ensures DropEmptyTail(lines) == lines <==> lines == [] || lines[|lines| - 1] != ""
  {
    if lines != [] && lines[|lines| - 1] == "" {
      DropEmptyTailPrefix(lines[..|lines| - 1]);
    }
  }

  lemma {:induction false} StripFrontAt(lines: seq<string>, i: nat)
    requires i < |lines|
    ensures StripFront(lines)[i] == if i < |lines| - 1 then StripCR(lines[i]) else lines[i]
  {
    if i > 0 {
      StripFrontAt(lines[1..], i - 1);
    }
  }

  lemma {:induction false} TrimRightKeeps(s: string)
    requires s != "" && !IsSpace(s[0])
    ensures TrimRight(s) != ""
  {
    if |s| > 1 && IsSpace(s[|s| - 1]) {
      TrimRightKeeps(s[..|s| - 1]);
    }
  }

  lemma {:induction false} StripHeader(h: ParsedHunk)
    ensures StripCR(HeaderOf(h)) == HeaderOf(h.(trailer := StripCR(h.trailer)))
  {
    var front := FormatHeader(h.oldStart, CountOld(h.lines), h.newStart, CountNew(h.lines), "");
    assert HeaderOf(h) == front + h.trailer;
    assert front[|front| - 1] == '@';
    if h.trailer != "" {
      assert HeaderOf(h)[|HeaderOf(h)| - 1] == h.trailer[|h.trailer| - 1];
    }
  }

  /** The printed form of a hunk has no line break of its own. */
  lemma {:induction false} PrintedBreakless(h: ParsedHunk)
    requires WellFormed(h)
    ensures Breakless([HeaderOf(h)] + h.lines)
  {
    forall s: string | AllDigits(s) ensures '\n' !in s {}
    assert '\n' !in HeaderOf(h);
  }

  /** How a header line is written. */
  type Writer = ParsedHunk -> string

  function PatchLines(hs: seq<ParsedHunk>, write: Writer): seq<string> {
    if hs == [] then []
    else PatchLines(hs[..|hs| - 1], write) + [write(hs[|hs| - 1])] + hs[|hs| - 1].lines
  }

  /** The patches of some hunks, one below the other. */
  function PatchAll(hs: seq<ParsedHunk>): string { Join(PatchLines(hs, HeaderOf), "\n") }

  function StripAll(lines: seq<string>): (r: seq<string>)
    ensures |r| == |lines|
  {
    seq(|lines|, i requires 0 <= i < |lines| => StripCR(lines[i]))
  }

  /** A hunk that is followed by another one loses every CR at the end of a line. */
  function Stripped(h: ParsedHunk): ParsedHunk { h.(trailer := StripCR(h.trailer), lines := StripAll(h.lines)) }

  function AllStripped(hs: seq<ParsedHunk>): (r: seq<ParsedHunk>)
    ensures |r| == |hs|
  {
    seq(|hs|, i requires 0 <= i < |hs| => Stripped(hs[i]))
  }

  /** What is left of a list of hunks after it is printed and parsed again. */
  function CleanedAll(hs: seq<ParsedHunk>): seq<ParsedHunk> {
    if hs == [] then [] else AllStripped(hs[..|hs| - 1]) + [Cleaned(hs[|hs| - 1])]
  }

  predicate NoCR(h: ParsedHunk) { !EndsCR(h.trailer) && forall i :: 0 <= i < |h.lines| ==> !EndsCR(h.lines[i]) }

  /** Nothing to lose: no CR in front of a line break, and no empty line at the very end. */
  predicate LosslessAll(hs: seq<ParsedHunk>) {
    (forall i :: 0 <= i < |hs| - 1 ==> NoCR(hs[i])) && (hs != [] ==> Lossless(hs[|hs| - 1]))
  }

  predicate AllWellFormed(hs: seq<ParsedHunk>) { forall i :: 0 <= i < |hs| ==> WellFormed(hs[i]) }

  lemma {:induction false} PatchLinesBreakless(hs: seq<ParsedHunk>, write: Writer)
    requires forall i :: 0 <= i < |hs| ==> Breakless([write(hs[i])] + hs[i].lines)
    ensures Breakless(PatchLines(hs, write))
  {
    if hs != [] {
      var before, h := hs[..|hs| - 1], hs[|hs| - 1];
      PatchLinesBreakless(before, write);
      assert PatchLines(hs, write) == PatchLines(before, write) + ([write(h)] + h.lines);
    }
  }

  lemma {:induction false} StripFrontSplit(a: seq<string>, b: seq<string>)
    requires b != []
    ensures StripFront(a + b) == StripAll(a) + StripFront(b)
  {
    var all, split := StripFront(a + b), StripAll(a) + StripFront(b);
    forall i | 0 <= i < |all| ensures all[i] == split[i] {
      StripFrontAt(a + b, i);
      if i >= |a| {
        StripFrontAt(b, i - |a|);
      }
    }
  }

  lemma {:induction false} HeaderOfStripped(h: ParsedHunk, trailer: string)
    requires WellFormed(h)
    ensures
      var header := HeaderOf(h.(trailer := trailer));
      IsHeader(header) && MatchHeader(header) == Some(Header(h.oldStart, h.newStart, trailer))
  {
    PrintedHeaderRead(h.oldStart, CountOld(h.lines), h.newStart, CountNew(h.lines), trailer);
  }

  lemma {:induction false} StripAllSplit(a: seq<string>, header: string, b: seq<string>)
    ensures StripAll(a + [header] + b) == StripAll(a) + [StripCR(header)] + StripAll(b)
  {
  }

  /** What it takes for a stripped hunk to be read back. */
  ghost predicate ReadsBack(h: ParsedHunk, write: Writer, read: Reader) {
    && IsHeader(StripCR(write(h)))
    && read(StripCR(write(h))) == Some(Header(h.oldStart, h.newStart, StripCR(h.trailer)))
    && forall i :: 0 <= i < |h.lines| ==> !IsHeader(StripCR(h.lines[i]))
  }

  lemma {:induction false} StrippedAppended(
    front: seq<string>, hs: seq<ParsedHunk>, h: ParsedHunk, write: Writer, read: Reader)
    requires ParseWith(front, read) == Parsed(hs) && ReadsBack(h, write, read)
    ensures ParseWith(front + [StripCR(write(h))] + StripAll(h.lines), read) == Parsed(hs + [Stripped(h)])
  {
    ParseAppend(front, hs, StripCR(write(h)), Stripped(h), read);
  }

  lemma {:induction false} StrippedLines(hs: seq<ParsedHunk>, write: Writer)
    requires hs != []
    ensures
      var before, h := hs[..|hs| - 1], hs[|hs| - 1];
      && AllStripped(hs) == AllStripped(before) + [Stripped(h)]
      && StripAll(PatchLines(hs, write))
        == StripAll(PatchLines(before, write)) + [StripCR(write(h))] + StripAll(h.lines)
  {
    StripAllSplit(PatchLines(hs[..|hs| - 1], write), write(hs[|hs| - 1]), hs[|hs| - 1].lines);
  }

  /** Hunks that are followed by another one. */
  lemma {:induction false} ParseStripped(hs: seq<ParsedHunk>, write: Writer, read: Reader)
    requires forall i :: 0 <= i < |hs| ==> ReadsBack(hs[i], write, read)
    ensures ParseWith(StripAll(PatchLines(hs, write)), read) == Parsed(AllStripped(hs))
  {
    if hs != [] {
      var before := hs[..|hs| - 1];
      ParseStripped(before, write, read);
      StrippedLines(hs, write);
      StrippedAppended(StripAll(PatchLines(before, write)), AllStripped(before), hs[|hs| - 1], write, read);
    }
  }

  lemma {:induction false} PrintedReadsBack(h: ParsedHunk)
    requires WellFormed(h)
    ensures ReadsBack(h, HeaderOf, MatchHeader)
  {
    StripHeader(h);
    HeaderOfStripped(h, StripCR(h.trailer));
  }

  /** The header of the last hunk, as it is read back. */
  function LastHeader(h: ParsedHunk): string { HeaderOf(h.(trailer := Cleaned(h).trailer)) }

  lemma {:induction false} LastStripped(h: ParsedHunk)
    ensures StripFront([HeaderOf(h)] + h.lines) == [LastHeader(h)] + StripFront(h.lines)
  {
    StripHeader(h);
    assert ([HeaderOf(h)] + h.lines)[1..] == h.lines;
  }

  /** The lines that are left of the printed text. */
  function LeftOver(before: seq<ParsedHunk>, header: string, h: ParsedHunk, write: Writer): seq<string> {
    StripAll(PatchLines(before, write)) + [header] + DropEmptyTail(StripFront(h.lines))
  }

  lemma {:induction false} PrintedCleaned(before: seq<ParsedHunk>, header: string, h: ParsedHunk, write: Writer)
    requires forall i :: 0 <= i < |before| ==> Breakless([write(before[i])] + before[i].lines)
    requires Breakless([write(h)] + h.lines) && header != ""
    requires StripFront([write(h)] + h.lines) == [header] + StripFront(h.lines)
    ensures TrimNewlines(DropCR(Join(PatchLines(before + [h], write), "\n")))
         == Join(LeftOver(before, header, h, write), "\n")
    ensures Breakless(LeftOver(before, header, h, write))
  {
    var hs, a, b := before + [h], PatchLines(before, write), [write(h)] + h.lines;
    assert hs[..|hs| - 1] == before;
    assert PatchLines(hs, write) == a + b;
    PatchLinesBreakless(hs, write);
    DropCRJoin(a + b);
    StripFrontSplit(a, b);
    var front := StripAll(a) + [header];
    assert StripAll(a) + ([header] + StripFront(h.lines)) == front + StripFront(h.lines);
    TrimNewlinesJoin(front, StripFront(h.lines));
  }

  lemma {:induction false} LeftOverParsed(before: seq<ParsedHunk>, h: ParsedHunk)
    requires AllWellFormed(before) && WellFormed(h)
    ensures ParseLines(LeftOver(before, LastHeader(h), h, HeaderOf)) == Parsed(AllStripped(before) + [Cleaned(h)])
  {
    var clean := Cleaned(h);
    forall i | 0 <= i < |before| ensures ReadsBack(before[i], HeaderOf, MatchHeader) {
      PrintedReadsBack(before[i]);
    }
    ParseStripped(before, HeaderOf, MatchHeader);
    HeaderOfStripped(h, clean.trailer);
    assert clean.lines == DropEmptyTail(StripFront(h.lines));
    forall i | 0 <= i < |clean.lines| ensures !IsHeader(clean.lines[i]) {
      CleanedLines(h.lines, i);
    }
    ParseAppend(StripAll(PatchLines(before, HeaderOf)), AllStripped(before), LastHeader(h), clean, MatchHeader);
  }

  lemma {:induction false} JoinStart(lines: seq<string>)
    requires lines != [] && lines[0] != ""
    ensures Join(lines, "\n") != "" && Join(lines, "\n")[0] == lines[0][0]
  {
  }

  lemma {:induction false} StartsWithHeader(before: seq<ParsedHunk>, h: ParsedHunk)
    ensures
      var left := LeftOver(before, LastHeader(h), h, HeaderOf);
      left[0] != "" && left[0][0] == '@'
  {
    if before != [] {
      FirstPatchLine(before, HeaderOf);
      StripHeader(before[0]);
    }
  }

  lemma {:induction false} FirstPatchLine(hs: seq<ParsedHunk>, write: Writer)
    requires hs != []
    ensures PatchLines(hs, write) != [] && PatchLines(hs, write)[0] == write(hs[0])
  {
    if |hs| > 1 {
      FirstPatchLine(hs[..|hs| - 1], write);
    }
  }

  /** Printing any list of hunks and parsing the text yields that list again, and says exactly what is lost. */
  lemma {:induction false} PrintThenParseAll(hs: seq<ParsedHunk>)
    requires AllWellFormed(hs)
    ensures ParseText(PatchAll(hs)) == Parsed(CleanedAll(hs))
  {
    if hs != [] {
      var before, h := hs[..|hs| - 1], hs[|hs| - 1];
      assert before + [h] == hs;
      forall i | 0 <= i < |hs| ensures Breakless([HeaderOf(hs[i])] + hs[i].lines) {
        PrintedBreakless(hs[i]);
      }
      LastStripped(h);
      PrintedCleaned(before, LastHeader(h), h, HeaderOf);
      StartsWithHeader(before, h);
      LeftOverParsed(before, h);
      ParseJoined(PatchAll(hs), LeftOver(before, LastHeader(h), h, HeaderOf));
    }
  }

  lemma {:induction false} ParseJoined(text: string, left: seq<string>)
    requires left != [] && Breakless(left) && TrimNewlines(DropCR(text)) == Join(left, "\n")
    requires left[0] != "" && left[0][0] == '@'
    ensures ParseText(text) == ParseLines(left)
  {
    JoinStart(left);
    TrimRightKeeps(Join(left, "\n"));
    SplitJoin(left);
  }

  lemma {:induction false} CleanedIff(h: ParsedHunk)
    ensures Cleaned(h) == h <==> Lossless(h)
  {
    if h.lines != [] {
      var n := |h.lines|;
      DropEmptyTailPrefix(StripFront(h.lines));
      forall i | 0 <= i < n ensures StripFront(h.lines)[i] == if i < n - 1 then StripCR(h.lines[i]) else h.lines[i] {
        StripFrontAt(h.lines, i);
      }
      if Lossless(h) {
        assert StripFront(h.lines) == h.lines;
      } else if Cleaned(h) == h {
        assert false;
      }
    }
  }

  lemma {:induction false} StrippedIff(h: ParsedHunk)
    ensures Stripped(h) == h <==> NoCR(h)
  {
    if Stripped(h) == h {
      forall i | 0 <= i < |h.lines| ensures !EndsCR(h.lines[i]) {
        assert StripCR(h.lines[i]) == Stripped(h).lines[i] == h.lines[i];
      }
    }
    if NoCR(h) {
      assert StripAll(h.lines) == h.lines;
    }
  }

  lemma {:induction false} CleanedAllIff(hs: seq<ParsedHunk>)
    ensures CleanedAll(hs) == hs <==> LosslessAll(hs)
  {
    if hs != [] {
      var n := |hs| - 1;
      CleanedIff(hs[n]);
      forall i | 0 <= i < n ensures CleanedAll(hs)[i] == hs[i] <==> NoCR(hs[i]) {
        StrippedIff(hs[i]);
      }
      assert CleanedAll(hs)[n] == Cleaned(hs[n]);
    }
  }

  /**
    Printing a list of parsed hunks and parsing the text returns exactly that
    list if and only if no CR stands before a line break and the last line of all
    is not empty.
   */
  lemma {:induction false} RoundTripAllIff(hs: seq<ParsedHunk>)
    requires AllWellFormed(hs)
    ensures ParseText(PatchAll(hs)) == Parsed(hs) <==> LosslessAll(hs)
  {
    PrintThenParseAll(hs);
    CleanedAllIff(hs);
  }

  /** For one hunk. */
  lemma {:induction false} PrintThenParse(h: ParsedHunk)
    requires WellFormed(h)
    ensures ParseText(Patch(h)) == Parsed([Cleaned(h)])
  {
    PrintThenParseAll([h]);
    assert [h][..0] == [] && PatchLines([], HeaderOf) == [];
    assert PatchLines([h], HeaderOf) == [HeaderOf(h)] + h.lines;
    assert CleanedAll([h]) == [Cleaned(h)];
  }

  lemma {:induction false} RoundTripIff(h: ParsedHunk)
    requires WellFormed(h)
    ensures ParseText(Patch(h)) == Parsed([h]) <==> Lossless(h)
  {
    PrintThenParse(h);
    CleanedIff(h);
  }

  /** An added line followed by an empty one comes back without the empty one. */
  lemma {:induction false} EmptyTailLost(h: ParsedHunk)
    requires h == ParsedHunk(1, 1, "", ["+", ""])
    ensures WellFormed(h) && ParseText(Patch(h)) != Parsed([h])
  {
    RoundTripIff(h);
  }
}
