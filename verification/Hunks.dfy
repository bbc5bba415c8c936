/**
  Reading and printing unified-diff hunks (parseHunks, toHunk and
  formatHunkHeader of internal/context/assembler.go).
 */
module Hunks {
  import opened Text

  datatype ParsedHunk = ParsedHunk(oldStart: nat, newStart: nat, trailer: string, lines: seq<string>)

  datatype ParseResult = Parsed(hunks: seq<ParsedHunk>) | Invalid(line: string)

  const MAX_INT := 0x7FFF_FFFF_FFFF_FFFF

  // ----- Lines of a text

  function LineLength(s: string): (n: nat)
    ensures n <= |s| && '\n' !in s[..n] && (n < |s| ==> s[n] == '\n')
  {
    if s == "" || s[0] == '\n' then 0
    else
      var n := 1 + LineLength(s[1..]);
      assert s[..n] == [s[0]] + s[1..][..n - 1];
      n
  }

  /** strings.Split at newlines. */
  function Split(s: string): (lines: seq<string>)
    ensures |lines| > 0 && forall i :: 0 <= i < |lines| ==> '\n' !in lines[i]
    decreases |s|
  {
    var n := LineLength(s);
    if n == |s| then
      assert s[..n] == s;
      [s]
    else [s[..n]] + Split(s[n + 1..])
  }

  /** strings.ReplaceAll of CR LF by LF. */
  function DropCR(s: string): string {
    if s == "" then ""
    else if |s| >= 2 && s[0] == '\r' && s[1] == '\n' then "\n" + DropCR(s[2..])
    else [s[0]] + DropCR(s[1..])
  }

  function TrimNewlines(s: string): string {
    if s != "" && s[|s| - 1] == '\n' then TrimNewlines(s[..|s| - 1]) else s
  }

  // ----- Numbers

  predicate IsDigit(c: char) { '0' <= c <= '9' }

  function DigitCount(s: string): (n: nat)
    ensures n <= |s|
  {
    if s == "" || !IsDigit(s[0]) then 0 else 1 + DigitCount(s[1..])
  }

  predicate AllDigits(s: string) { forall i :: 0 <= i < |s| ==> IsDigit(s[i]) }

  function NumberOf(digits: string): nat
    requires AllDigits(digits)
  {
    if digits == "" then 0
    else 10 * NumberOf(digits[..|digits| - 1]) + (digits[|digits| - 1] as int - '0' as int)
  }

  function Show(n: nat): (s: string)
    ensures s != "" && AllDigits(s) && NumberOf(s) == n
  {
    var d := ('0' as int + n % 10) as char;
    if n < 10 then
      assert [d][..0] == "";
      [d]
    else
      var s := Show(n / 10);
      assert (s + [d])[..|s|] == s;
      s + [d]
  }

  lemma {:induction false} DigitCountAllDigits(s: string)
    ensures AllDigits(s[..DigitCount(s)])
  {
    if s != "" && IsDigit(s[0]) {
      DigitCountAllDigits(s[1..]);
      var n := DigitCount(s);
      assert s[..n] == [s[0]] + s[1..][..n - 1];
    }
  }

  /** A number as strconv.Atoi reads it when its range error is ignored. */
  function Clamp(n: nat): nat { if n <= MAX_INT then n else MAX_INT }

  // ----- Hunk headers

  datatype Header = Header(oldStart: nat, newStart: nat, trailer: string)

  /** digits, optionally followed by a comma and digits; returns the first number and the rest. */
  function Range(s: string): Option<(nat, string)> {
    var n := DigitCount(s);
    if n == 0 then None
    else
      var rest := s[n..];
      DigitCountAllDigits(s);
      var start := Clamp(NumberOf(s[..n]));
      if "," <= rest && DigitCount(rest[1..]) > 0 then Some((start, rest[1..][DigitCount(rest[1..])..]))
      else Some((start, rest))
  }

  /** The pattern ^@@ -a(,b)? +c(,d)? @@(.*)$ . */
  function MatchHeader(line: string): Option<Header> {
    if !("@@ -" <= line) then None
    else
      var old' := Range(line[4..]);
      if old'.None? || !(" +" <= old'.value.1) then None
      else
        var new' := Range(old'.value.1[2..]);
        if new'.None? || !(" @@" <= new'.value.1) then None
        else Some(Header(old'.value.0, new'.value.0, new'.value.1[3..]))
  }

  function FormatHeader(oldStart: nat, oldLines: nat, newStart: nat, newLines: nat, trailer: string): string {
    "@@ -" + Show(oldStart) + "," + Show(oldLines) + " +" + Show(newStart) + "," + Show(newLines) + " @@" + trailer
  }

  // ----- Parsing

  predicate IsHeader(line: string) { "@@" <= line }

  /** How a header line is read. */
  type Reader = string -> Option<Header>

  function AddLine(r: ParseResult, line: string, read: Reader): ParseResult {
    if r.Invalid? then r
    else if IsHeader(line) then
      var h := read(line);
      if h.None? then Invalid(line)
      else Parsed(r.hunks + [ParsedHunk(h.value.oldStart, h.value.newStart, h.value.trailer, [])])
    else if r.hunks == [] then r
    else
      var last := r.hunks[|r.hunks| - 1];
      Parsed(r.hunks[|r.hunks| - 1 := last.(lines := last.lines + [line])])
  }

  function ParseWith(lines: seq<string>, read: Reader): ParseResult {
    if lines == [] then Parsed([]) else AddLine(ParseWith(lines[..|lines| - 1], read), lines[|lines| - 1], read)
  }

  function ParseLines(lines: seq<string>): ParseResult { ParseWith(lines, MatchHeader) }

  function ParseText(text: string): ParseResult {
    var t := TrimNewlines(DropCR(text));
    if TrimSpace(t) == "" then Parsed([]) else ParseLines(Split(t))
  }

  /** The loop of parseHunks. */
  method ReadLines(lines: seq<string>, read: Reader) returns (r: ParseResult)
    ensures r == ParseWith(lines, read)
  {
    var hunks: seq<ParsedHunk> := [];
    for i := 0 to |lines|
      invariant ParseWith(lines[..i], read) == Parsed(hunks)
    {
      var line := lines[i];
      assert lines[..i + 1][..i] == lines[..i];
      if "@@" <= line {
        var h := read(line);
        if h.None? {
          StaysInvalid(lines, i + 1, read);
          return Invalid(line);
        }
        hunks := hunks + [ParsedHunk(h.value.oldStart, h.value.newStart, h.value.trailer, [])];
      } else if hunks != [] {
        var last := hunks[|hunks| - 1];
        hunks := hunks[|hunks| - 1 := last.(lines := last.lines + [line])];
      }
    }
    assert lines[..|lines|] == lines;
    return Parsed(hunks);
  }

  method ParseHunks(text: string) returns (r: ParseResult)
    ensures r == ParseText(text)
  {
    var t := TrimNewlines(DropCR(text));
    if TrimSpace(t) == "" {
      return Parsed([]);
    }
    r := ReadLines(Split(t), MatchHeader);
  }

  lemma {:induction false} StaysInvalid(lines: seq<string>, n: nat, read: Reader)
    requires n <= |lines| && ParseWith(lines[..n], read).Invalid?
    ensures ParseWith(lines, read) == ParseWith(lines[..n], read)
    decreases |lines|
  {
    if n == |lines| {
      assert lines[..n] == lines;
    } else {
      var shorter := lines[..|lines| - 1];
      assert shorter[..n] == lines[..n];
      StaysInvalid(shorter, n, read);
    }
  }

  // ----- Printing

  function CountOld(lines: seq<string>): nat {
    if lines == [] then 0
    else
      var line := lines[|lines| - 1];
      CountOld(lines[..|lines| - 1]) + if " " <= line || "-" <= line then 1 else 0
  }

  function CountNew(lines: seq<string>): nat {
    if lines == [] then 0
    else
      var line := lines[|lines| - 1];
      CountNew(lines[..|lines| - 1]) + if " " <= line || "+" <= line then 1 else 0
  }

  method CountLineSpans(lines: seq<string>) returns (oldLines: nat, newLines: nat)
    ensures oldLines == CountOld(lines) && newLines == CountNew(lines)
  {
    oldLines, newLines := 0, 0;
    for i := 0 to |lines|
      invariant oldLines == CountOld(lines[..i]) && newLines == CountNew(lines[..i])
    {
      var line := lines[i];
      assert lines[..i + 1][..i] == lines[..i];
      if line == "" {
        continue;
      }
      if line[0] == ' ' {
        oldLines, newLines := oldLines + 1, newLines + 1;
      } else if line[0] == '-' {
        oldLines := oldLines + 1;
      } else if line[0] == '+' {
        newLines := newLines + 1;
      }
    }
    assert lines[..|lines|] == lines;
  }

  function HeaderOf(h: ParsedHunk): string {
    FormatHeader(h.oldStart, CountOld(h.lines), h.newStart, CountNew(h.lines), h.trailer)
  }

  predicate IsChange(line: string) { "+" <= line || "-" <= line }

  function ChangedLines(lines: seq<string>): nat {
    if lines == [] then 0 else ChangedLines(lines[..|lines| - 1]) + if IsChange(lines[|lines| - 1]) then 1 else 0
  }

  /** A hunk as it is put in the review request. */
  datatype Hunk = Hunk(
    oldStart: int, oldLines: int, newStart: int, newLines: int, patch: string, changedLines: nat, truncated: bool)

  datatype Change = Change(path: string, oldPath: string, changedLines: nat, truncated: bool, hunks: seq<Hunk>)

  function ToHunk(h: ParsedHunk): Hunk {
    Hunk(h.oldStart, CountOld(h.lines), h.newStart, CountNew(h.lines), Patch(h), ChangedLines(h.lines), false)
  }

  function Patch(h: ParsedHunk): string { Join([HeaderOf(h)] + h.lines, "\n") }

  /** What parsing guarantees of every hunk it returns. */
  predicate WellFormed(h: ParsedHunk) {
    && h.oldStart <= MAX_INT && h.newStart <= MAX_INT && '\n' !in h.trailer
    && forall i :: 0 <= i < |h.lines| ==> '\n' !in h.lines[i] && !IsHeader(h.lines[i])
  }

  lemma {:induction false} RangeRest(s: string)
    requires Range(s).Some? && '\n' !in s
    ensures '\n' !in Range(s).value.1 && Range(s).value.0 <= MAX_INT
  {
  }

  lemma {:induction false} HeaderFacts(line: string)
    requires '\n' !in line && MatchHeader(line).Some?
    ensures
      var h := MatchHeader(line).value;
      h.oldStart <= MAX_INT && h.newStart <= MAX_INT && '\n' !in h.trailer
  {
    RangeRest(line[4..]);
    var rest := Range(line[4..]).value.1;
    RangeRest(rest[2..]);
  }

  lemma {:induction false} LinesWellFormed(lines: seq<string>)
    requires forall i :: 0 <= i < |lines| ==> '\n' !in lines[i]
    ensures ParseLines(lines).Parsed? ==>
              forall k :: 0 <= k < |ParseLines(lines).hunks| ==> WellFormed(ParseLines(lines).hunks[k])
  {
    if lines != [] {
      LinesWellFormed(lines[..|lines| - 1]);
      var line := lines[|lines| - 1];
      if MatchHeader(line).Some? {
        HeaderFacts(line);
      }
    }
  }

  lemma {:induction false} ParsedHunksWellFormed(text: string)
    ensures ParseText(text).Parsed? ==>
              forall k :: 0 <= k < |ParseText(text).hunks| ==> WellFormed(ParseText(text).hunks[k])
  {
    LinesWellFormed(Split(TrimNewlines(DropCR(text))));
  }
}
