/**
  What parsing a diff yields, for any text: one hunk for each header line, with
  exactly the lines up to the next header.
 */
module HunkSections {
  import opened Text
  import opened TextProofs
  import opened Hunks

  /** The positions of the header lines. */
  function Headers(lines: seq<string>): (ps: seq<nat>)
    ensures forall k :: 0 <= k < |ps| ==> ps[k] < |lines|
  {
    if lines == [] then []
    else Headers(lines[..|lines| - 1]) + if IsHeader(lines[|lines| - 1]) then [|lines| - 1] else []
  }

  /** They are all the header lines, in order. */
  lemma {:induction false} HeadersExact(lines: seq<string>)
    ensures forall i :: i in Headers(lines) <==> 0 <= i < |lines| && "@@" <= lines[i]
    ensures forall a, b :: 0 <= a < b < |Headers(lines)| ==> Headers(lines)[a] < Headers(lines)[b]
  {
    if lines != [] {
      var before := lines[..|lines| - 1];
      HeadersExact(before);
      assert forall i :: 0 <= i < |before| ==> before[i] == lines[i];
    }
  }

  /** The position behind the section of header k. */
  function SectionEnd(lines: seq<string>, k: nat): (end: nat)
    requires k < |Headers(lines)|
    ensures end <= |lines|
  {
    if k + 1 < |Headers(lines)| then Headers(lines)[k + 1] else |lines|
  }

  /** The hunk holds what the header at position p says and the lines between it and the end. */
  predicate IsSection(lines: seq<string>, p: nat, end: nat, h: ParsedHunk, read: Reader) {
    && p < end <= |lines| && read(lines[p]) == Some(Header(h.oldStart, h.newStart, h.trailer))
    && h.lines == lines[p + 1..end]
  }

  predicate AllRead(lines: seq<string>, read: Reader) {
    forall i :: 0 <= i < |lines| && IsHeader(lines[i]) ==> read(lines[i]).Some?
  }

  ghost predicate Sectioned(lines: seq<string>, hunks: seq<ParsedHunk>, read: Reader) {
    && |hunks| == |Headers(lines)|
    && forall k :: 0 <= k < |hunks| ==> IsSection(lines, Headers(lines)[k], SectionEnd(lines, k), hunks[k], read)
  }

  lemma {:induction false} SectionStays(lines: seq<string>, n: nat, p: nat, end: nat, h: ParsedHunk, read: Reader)
    requires n <= |lines| && IsSection(lines[..n], p, end, h, read)
    ensures IsSection(lines, p, end, h, read)
  {
    assert lines[..n][p + 1..end] == lines[p + 1..end];
  }

  lemma {:induction false} SectionGrows(lines: seq<string>, p: nat, h: ParsedHunk, read: Reader)
    requires lines != [] && IsSection(lines[..|lines| - 1], p, |lines| - 1, h, read)
    ensures IsSection(lines, p, |lines|, h.(lines := h.lines + [lines[|lines| - 1]]), read)
  {
    var n := |lines| - 1;
    assert lines[..n][p + 1..n] == lines[p + 1..n];
    assert lines[p + 1..n + 1] == lines[p + 1..n] + [lines[n]];
  }

  lemma {:induction false} NewSection(lines: seq<string>, h: ParsedHunk, read: Reader)
    requires lines != [] && h.lines == []
    requires read(lines[|lines| - 1]) == Some(Header(h.oldStart, h.newStart, h.trailer))
    ensures IsSection(lines, |lines| - 1, |lines|, h, read)
  {
  }

  lemma {:induction false} HeaderSection(lines: seq<string>, hunks: seq<ParsedHunk>, h: ParsedHunk, read: Reader)
    requires lines != [] && Sectioned(lines[..|lines| - 1], hunks, read)
    requires h.lines == [] && IsHeader(lines[|lines| - 1])
    requires read(lines[|lines| - 1]) == Some(Header(h.oldStart, h.newStart, h.trailer))
    ensures Sectioned(lines, hunks + [h], read)
  {
    var n, longer := |lines| - 1, hunks + [h];
    assert Headers(lines) == Headers(lines[..n]) + [n];
    forall k | 0 <= k < |longer| ensures IsSection(lines, Headers(lines)[k], SectionEnd(lines, k), longer[k], read) {
      if k < |hunks| {
        SectionStays(lines, n, Headers(lines[..n])[k], SectionEnd(lines[..n], k), hunks[k], read);
      } else {
        NewSection(lines, h, read);
      }
    }
  }

  lemma {:induction false} BodySection(lines: seq<string>, hunks: seq<ParsedHunk>, read: Reader)
    requires lines != [] && Sectioned(lines[..|lines| - 1], hunks, read) && hunks != [] && !IsHeader(lines[|lines| - 1])
    ensures
      var last := hunks[|hunks| - 1];
      Sectioned(lines, hunks[|hunks| - 1 := last.(lines := last.lines + [lines[|lines| - 1]])], read)
  {
    var n, m := |lines| - 1, |hunks| - 1;
    var longer := hunks[m := hunks[m].(lines := hunks[m].lines + [lines[n]])];
    assert Headers(lines) == Headers(lines[..n]);
    forall k | 0 <= k < |longer| ensures IsSection(lines, Headers(lines)[k], SectionEnd(lines, k), longer[k], read) {
      if k < m {
        SectionStays(lines, n, Headers(lines[..n])[k], SectionEnd(lines[..n], k), hunks[k], read);
      } else {
        SectionGrows(lines, Headers(lines[..n])[m], hunks[m], read);
      }
    }
  }

  /**
    For any lines: they parse if and only if every header line can be read, and
    then there is one hunk for each header line, in order, with exactly the lines
    up to the next header.
   */
  lemma {:induction false} ParsedSections(lines: seq<string>, read: Reader)
    ensures ParseWith(lines, read).Parsed? <==> AllRead(lines, read)
    ensures ParseWith(lines, read).Parsed? ==> Sectioned(lines, ParseWith(lines, read).hunks, read)
  {
    if lines != [] {
      var before, line := lines[..|lines| - 1], lines[|lines| - 1];
      ParsedSections(before, read);
      ReadStep(lines, read);
      if ParseWith(lines, read).Parsed? {
        var hunks := ParseWith(before, read).hunks;
        if IsHeader(line) {
          var h := read(line).value;
          HeaderSection(lines, hunks, ParsedHunk(h.oldStart, h.newStart, h.trailer, []), read);
        } else if hunks != [] {
          BodySection(lines, hunks, read);
        }
      }
    }
  }

  lemma {:induction false} ReadStep(lines: seq<string>, read: Reader)
    requires lines != []
    ensures
      var line := lines[|lines| - 1];
      AllRead(lines, read) <==> AllRead(lines[..|lines| - 1], read) && (IsHeader(line) ==> read(line).Some?)
  {
    var before := lines[..|lines| - 1];
    assert forall i :: 0 <= i < |before| ==> before[i] == lines[i];
  }

  /** The error names the first header line that cannot be read. */
  lemma {:induction false} FirstBadHeader(lines: seq<string>, read: Reader) returns (i: nat)
    requires ParseWith(lines, read).Invalid?
    ensures i < |lines| && IsHeader(lines[i]) && read(lines[i]).None? && AllRead(lines[..i], read)
    ensures ParseWith(lines, read) == Invalid(lines[i])
  {
    var before := lines[..|lines| - 1];
    if ParseWith(before, read).Invalid? {
      i := FirstBadHeader(before, read);
      assert before[..i] == lines[..i];
    } else {
      i := |lines| - 1;
      ParsedSections(before, read);
    }
  }

  /** The lines that are parsed: those of the text without CR before a line break and without line breaks at its end. */
  function TextLines(text: string): seq<string> { Split(TrimNewlines(DropCR(text))) }

  lemma {:induction false} SplitInside(s: string, i: nat, j: nat)
    requires i < |Split(s)| && j < |Split(s)[i]|
    ensures Split(s)[i][j] in s
    decreases |s|
  {
    var n := LineLength(s);
    if n < |s| && i > 0 {
      SplitInside(s[n + 1..], i - 1, j);
      assert forall c :: c in s[n + 1..] ==> c in s;
    }
  }

  lemma {:induction false} BlankHasNoHeader(s: string)
    requires AllSpace(s)
    ensures Headers(Split(s)) == [] && AllRead(Split(s), MatchHeader)
  {
    forall i | 0 <= i < |Split(s)| ensures !IsHeader(Split(s)[i]) {
      if IsHeader(Split(s)[i]) {
        SplitInside(s, i, 0);
      }
    }
    HeadersExact(Split(s));
    if Headers(Split(s)) != [] {
      assert Headers(Split(s))[0] in Headers(Split(s));
    }
  }

  /** So for any diff text: it parses exactly when all its headers can be read, into exactly their sections. */
  lemma {:induction false} TextSections(text: string)
    ensures ParseText(text).Parsed? <==> AllRead(TextLines(text), MatchHeader)
    ensures ParseText(text).Parsed? ==> Sectioned(TextLines(text), ParseText(text).hunks, MatchHeader)
  {
    var t := TrimNewlines(DropCR(text));
    BlankIff(t);
    if AllSpace(t) {
      BlankHasNoHeader(t);
    } else {
      ParsedSections(TextLines(text), MatchHeader);
    }
  }

  // ----- Building up what is parsed

  lemma {:induction false} HeaderStep(
    front: seq<string>, hs: seq<ParsedHunk>, header: string, h: ParsedHunk, read: Reader)
    requires ParseWith(front, read) == Parsed(hs) && IsHeader(header) && h.lines == []
    requires read(header) == Some(Header(h.oldStart, h.newStart, h.trailer))
    ensures ParseWith(front + [header], read) == Parsed(hs + [h])
  {
    assert (front + [header])[..|front|] == front;
  }

  lemma {:induction false} LineStep(all: seq<string>, hs: seq<ParsedHunk>, h: ParsedHunk, read: Reader)
    requires all != [] && !IsHeader(all[|all| - 1]) && ParseWith(all[..|all| - 1], read) == Parsed(hs + [h])
    ensures ParseWith(all, read) == Parsed(hs + [h.(lines := h.lines + [all[|all| - 1]])])
  {
    var so, longer := hs + [h], h.(lines := h.lines + [all[|all| - 1]]);
    assert so != [] && so[|so| - 1] == h && so[|so| - 1 := longer] == hs + [longer];
  }

  /** Plain lines behind a header go to its hunk. */
  lemma {:induction false} LinesAppended(front: seq<string>, hs: seq<ParsedHunk>, h: ParsedHunk, read: Reader)
    requires ParseWith(front, read) == Parsed(hs + [h.(lines := [])])
    requires forall i :: 0 <= i < |h.lines| ==> !IsHeader(h.lines[i])
    ensures ParseWith(front + h.lines, read) == Parsed(hs + [h])
    decreases |h.lines|
  {
    var all := front + h.lines;
    if h.lines == [] {
      assert all == front && h.(lines := []) == h;
    } else {
      var n := |h.lines| - 1;
      LinesAppended(front, hs, h.(lines := h.lines[..n]), read);
      assert all[..|all| - 1] == front + h.lines[..n];
      LineStep(all, hs, h.(lines := h.lines[..n]), read);
      assert h.lines[..n] + [h.lines[n]] == h.lines;
    }
  }

  /** A header and plain lines behind any parsed lines add one hunk. */
  lemma {:induction false} ParseAppend(
    front: seq<string>, hs: seq<ParsedHunk>, header: string, h: ParsedHunk, read: Reader)
    requires ParseWith(front, read) == Parsed(hs) && IsHeader(header)
    requires read(header) == Some(Header(h.oldStart, h.newStart, h.trailer))
    requires forall i :: 0 <= i < |h.lines| ==> !IsHeader(h.lines[i])
    ensures ParseWith(front + [header] + h.lines, read) == Parsed(hs + [h])
  {
    HeaderStep(front, hs, header, h.(lines := []), read);
    LinesAppended(front + [header], hs, h, read);
  }
}
