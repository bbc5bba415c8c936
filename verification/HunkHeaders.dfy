/** The lines a hunk header may be, and what the lines of a hunk are counted as. */
module HunkHeaders {
  import opened Text
  import opened Hunks
  import opened HunkRoundTrip

  predicate Number(s: string) { s != "" && AllDigits(s) }

  /** The count of a range, with its comma, may be left out. */
  predicate OptionalCount(s: string) { s == "" || ("," <= s && Number(s[1..])) }

  /** "@@ -a[,b] +c[,d] @@ trailer", with the two starts as the header has them. */
  predicate Written(line: string, a: string, b: string, c: string, d: string, h: Header) {
    && Number(a) && Number(c) && OptionalCount(b) && OptionalCount(d)
    && line == "@@ -" + (a + b + (" +" + (c + d + (" @@" + h.trailer))))
    && h.oldStart == Saturated(NumberOf(a)) && h.newStart == Saturated(NumberOf(c))
  }

  /** A number, or the largest 64-bit integer if that is smaller. */
  function Saturated(n: nat): nat { if n < 9223372036854775807 then n else 9223372036854775807 }

  lemma {:induction false} RangeWritten(a: string, b: string, rest: string)
    requires Number(a) && OptionalCount(b) && rest != "" && !IsDigit(rest[0]) && rest[0] != ','
    ensures Range(a + b + rest) == Some((Clamp(NumberOf(a)), rest))
  {
    if b == "" {
      assert a + b + rest == a + rest;
      DigitsThen(a, rest);
    } else {
      assert b == "," + b[1..];
      assert a + b + rest == a + "," + b[1..] + rest;
      RangeOfDigits(a, b[1..], rest);
    }
  }

  lemma {:induction false} RangeParts(s: string) returns (a: string, b: string)
    requires Range(s).Some?
    ensures Number(a) && OptionalCount(b) && s == a + b + Range(s).value.1 && Range(s).value.0 == Clamp(NumberOf(a))
  {
    var n := DigitCount(s);
    var rest := s[n..];
    DigitCountAllDigits(s);
    a := s[..n];
    if "," <= rest && DigitCount(rest[1..]) > 0 {
      var m := DigitCount(rest[1..]);
      DigitCountAllDigits(rest[1..]);
      b := rest[..m + 1];
      assert b[1..] == rest[1..][..m];
      assert rest == b + rest[1..][m..];
      assert s == a + rest;
      assert a + b + rest[1..][m..] == a + (b + rest[1..][m..]);
    } else {
      b := "";
      assert s == a + rest;
    }
  }

  /** A line is read as a header exactly if it is written like one, with or without the counts. */
  lemma {:induction false} HeaderIff(line: string, h: Header)
    ensures MatchHeader(line) == Some(h) <==> exists a, b, c, d :: Written(line, a, b, c, d, h)
  {
    if MatchHeader(line) == Some(h) {
      var a, b, c, d := HeaderRead(line, h);
    }
    if a, b, c, d :| Written(line, a, b, c, d, h) {
      HeaderWritten(line, a, b, c, d, h);
    }
  }

  lemma {:induction false} PrefixRest(prefix: string, s: string)
    requires prefix <= s
    ensures s == prefix + s[|prefix|..]
  {
  }

  lemma {:induction false} HeaderRanges(line: string, h: Header) returns (x: string, y: string)
    requires MatchHeader(line) == Some(h)
    ensures line == "@@ -" + x && Range(x) == Some((h.oldStart, " +" + y))
    ensures Range(y) == Some((h.newStart, " @@" + h.trailer))
  {
    x := line[4..];
    PrefixRest("@@ -", line);
    var rest := Range(x).value.1;
    y := rest[2..];
    PrefixRest(" +", rest);
    PrefixRest(" @@", Range(y).value.1);
  }

  lemma {:induction false} HeaderRead(line: string, h: Header) returns (a: string, b: string, c: string, d: string)
    requires MatchHeader(line) == Some(h)
    ensures Written(line, a, b, c, d, h)
  {
    var x, y := HeaderRanges(line, h);
    a, b := RangeParts(x);
    c, d := RangeParts(y);
  }

  lemma {:induction false} HeaderWritten(line: string, a: string, b: string, c: string, d: string, h: Header)
    requires Written(line, a, b, c, d, h)
    ensures MatchHeader(line) == Some(h)
  {
    var tail := " @@" + h.trailer;
    var rest := " +" + (c + d + tail);
    RangeWritten(c, d, tail);
    RangeWritten(a, b, rest);
    HeaderOfParts(a + b + rest, h.oldStart, c + d + tail, h.newStart, h.trailer);
  }

  // ----- Counting

  /** The positions of the lines that start with the sign. */
  function Marked(lines: seq<string>, sign: string): set<nat> { set i: nat | i < |lines| && sign <= lines[i] }

  lemma {:induction false} MarkedStep(lines: seq<string>, sign: string)
    requires lines != []
    ensures
      var n := |lines| - 1;
      |Marked(lines, sign)| == |Marked(lines[..n], sign)| + if sign <= lines[n] then 1 else 0
  {
    var n: nat := |lines| - 1;
    assert Marked(lines, sign) == Marked(lines[..n], sign) + if sign <= lines[n] then {n} else {};
  }

  lemma {:induction false} OneSign(line: string)
    ensures " " <= line ==> !("-" <= line) && !("+" <= line)
    ensures "-" <= line ==> !("+" <= line)
  {
    assert " " <= line ==> line[0] == ' ';
    assert "-" <= line ==> line[0] == '-';
    assert "+" <= line ==> line[0] == '+';
  }

  /** Old lines are kept or removed, new lines kept or added, changed lines removed or added, each counted once. */
  lemma {:induction false} LinesCounted(lines: seq<string>)
    ensures CountOld(lines) == |Marked(lines, " ")| + |Marked(lines, "-")|
    ensures CountNew(lines) == |Marked(lines, " ")| + |Marked(lines, "+")|
    ensures ChangedLines(lines) == |Marked(lines, "-")| + |Marked(lines, "+")|
  {
    if lines != [] {
      OneSign(lines[|lines| - 1]);
      LinesCounted(lines[..|lines| - 1]);
      MarkedStep(lines, " ");
      MarkedStep(lines, "-");
      MarkedStep(lines, "+");
    }
  }
}
