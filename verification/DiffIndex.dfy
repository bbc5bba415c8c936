/**
  The index of changed lines (internal/reviewcore/diffindex.go) and the
  placement of findings that rests on it (publishCandidateForFinding in
  internal/reviewcore/engine.go).
 */
module DiffIndex {
  import opened Text
  import opened Hunks

  datatype Span = Span(start: int, end: int)

  datatype FileIndex = FileIndex(
    oldLines: set<int>,
    newLines: set<int>,
    anchors: set<int>,
    oldSpans: seq<Span>,
    newSpans: seq<Span>,
    partialOld: seq<Span>,
    partialNew: seq<Span>)

  const EmptyFile := FileIndex({}, {}, {}, [], [], [], [])

  // ----- The header line of a patch

  function TrimSigns(s: string): string {
    if s != "" && (s[0] == '-' || s[0] == '+') then TrimSigns(s[1..]) else s
  }

  function UntilComma(s: string): string {
    if s == "" || s[0] == ',' then "" else [s[0]] + UntilComma(s[1..])
  }

  /** strconv.Atoi of a text without a sign. */
  function Atoi(s: string): Option<nat> {
    if s != "" && AllDigits(s) && NumberOf(s) <= MAX_INT then Some(NumberOf(s)) else None
  }

  /** parseHunkHeader: the two starts, from the second and third field. */
  function HeaderStarts(line: string): Option<(nat, nat)> {
    var fields := Fields(line);
    if |fields| < 3 || !("-" <= fields[1]) || !("+" <= fields[2]) then None
    else
      var o, n := Atoi(UntilComma(TrimSigns(fields[1]))), Atoi(UntilComma(TrimSigns(fields[2])));
      if o.None? || n.None? then None else Some((o.value, n.value))
  }

  // ----- Walking the lines of a hunk

  predicate Deleted(line: string) { line != "" && line[0] == '-' }
  predicate Added(line: string) { line != "" && line[0] == '+' }
  predicate Neutral(line: string) { line == "" || line[0] == '\\' }
  predicate Context(line: string) { !Deleted(line) && !Added(line) && !Neutral(line) }

  datatype Walk = Walk(oldN: int, newN: int, pending: bool, oldLines: set<int>, newLines: set<int>, anchors: set<int>)

  function AnchorsAt(newN: int, newStart: int): set<int> {
    (if newN - 1 >= newStart then {newN - 1} else {}) + {newN}
  }

  function WalkLine(w: Walk, line: string, newStart: int): Walk {
    if Neutral(line) then w
    else if Deleted(line) then w.(oldLines := w.oldLines + {w.oldN}, oldN := w.oldN + 1, pending := true)
    else if Added(line) then w.(newLines := w.newLines + {w.newN}, newN := w.newN + 1, pending := false)
    else w.(
      anchors := if w.pending then w.anchors + AnchorsAt(w.newN, newStart) else w.anchors,
      pending := false, oldN := w.oldN + 1, newN := w.newN + 1)
  }

  function WalkLines(w: Walk, lines: seq<string>, newStart: int): Walk {
    if lines == [] then w
    else WalkLine(WalkLines(w, lines[..|lines| - 1], newStart), lines[|lines| - 1], newStart)
  }

  function MaxInt(a: int, b: int): int { if a > b then a else b }

  function OldSpan(h: Hunk): Span { Span(h.oldStart, h.oldStart + MaxInt(h.oldLines, 1) - 1) }

  function NewSpan(h: Hunk): Span { Span(h.newStart, h.newStart + MaxInt(h.newLines, 1) - 1) }

  function Starts(h: Hunk): (int, int) {
    var first := Split(h.patch)[0];
    if IsHeader(first) && HeaderStarts(first).Some? then HeaderStarts(first).value else (h.oldStart, h.newStart)
  }

  function Body(h: Hunk): seq<string> {
    var lines := Split(h.patch);
    if IsHeader(lines[0]) then lines[1..] else lines
  }

  /** The walk over all lines, with the anchors of a deletion at the very end. */
  function WalkAll(f: FileIndex, o: int, n: int, lines: seq<string>, newStart: int): Walk {
    var w := WalkLines(Walk(o, n, false, f.oldLines, f.newLines, f.anchors), lines, newStart);
    if w.pending then w.(anchors := w.anchors + AnchorsAt(w.newN, newStart)) else w
  }

  function WalkHunk(f: FileIndex, h: Hunk): Walk { WalkAll(f, Starts(h).0, Starts(h).1, Body(h), h.newStart) }

  /** Only the line sets have changed, to those of the walk. */
  predicate Walked(f: FileIndex, f': FileIndex, w: Walk) {
    f' == f.(oldLines := w.oldLines, newLines := w.newLines, anchors := w.anchors)
  }

  function Indexed(f: FileIndex, h: Hunk): FileIndex {
    if h.truncated then f.(partialOld := f.partialOld + [OldSpan(h)], partialNew := f.partialNew + [NewSpan(h)])
    else
      var w := WalkHunk(f, h);
      f.(oldLines := w.oldLines, newLines := w.newLines, anchors := w.anchors,
      oldSpans := f.oldSpans + [OldSpan(h)], newSpans := f.newSpans + [NewSpan(h)])
  }

  function FileOf(hunks: seq<Hunk>): FileIndex {
    if hunks == [] then EmptyFile else Indexed(FileOf(hunks[..|hunks| - 1]), hunks[|hunks| - 1])
  }

  /** The index of a request: the last change with hunks wins a path. */
  function IndexOf(changes: seq<Change>): map<string, FileIndex> {
    if changes == [] then map[]
    else
      var before := IndexOf(changes[..|changes| - 1]);
      var c := changes[|changes| - 1];
      if c.hunks == [] then before else WithPath(WithPath(before, c.path, FileOf(c.hunks)), c.oldPath, FileOf(c.hunks))
  }

  function WithPath(files: map<string, FileIndex>, path: string, file: FileIndex): map<string, FileIndex> {
    if TrimSpace(path) == "" then files else files[TrimSpace(path) := file]
  }

  class FileLineIndex {
    var oldLines: set<int>
    var newLines: set<int>
    var anchors: set<int>
    var oldSpans: seq<Span>
    var newSpans: seq<Span>
    var partialOld: seq<Span>
    var partialNew: seq<Span>

    constructor ()
      ensures Value() == EmptyFile
    {
      oldLines, newLines, anchors := {}, {}, {};
      oldSpans, newSpans, partialOld, partialNew := [], [], [], [];
    }

    function Value(): FileIndex
      reads this
    {
      FileIndex(oldLines, newLines, anchors, oldSpans, newSpans, partialOld, partialNew)
    }

    /** The loop of indexHunk over the lines behind the header. */
    method IndexLines(lines: seq<string>, oldStart: int, newStart: int, spanStart: int)
      modifies this
      ensures Walked(old(Value()), Value(), WalkAll(old(Value()), oldStart, newStart, lines, spanStart))
    {
      var oldN, newN, pending := oldStart, newStart, false;
      ghost var start := Walk(oldN, newN, false, oldLines, newLines, anchors);
      for i := 0 to |lines|
        invariant Walk(oldN, newN, pending, oldLines, newLines, anchors) == WalkLines(start, lines[..i], spanStart)
        invariant oldSpans == old(oldSpans) && newSpans == old(newSpans)
        invariant partialOld == old(partialOld) && partialNew == old(partialNew)
      {
        var line := lines[i];
        assert lines[..i + 1][..i] == lines[..i];
        if line == "" || line[0] == '\\' {
          continue;
        }
        if line[0] == '-' {
          oldLines := oldLines + {oldN};
          oldN := oldN + 1;
          pending := true;
        } else if line[0] == '+' {
          newLines := newLines + {newN};
          newN := newN + 1;
          pending := false;
        } else {
          if pending {
            if newN - 1 >= spanStart {
              anchors := anchors + {newN - 1};
            }
            anchors := anchors + {newN};
            pending := false;
          }
          oldN, newN := oldN + 1, newN + 1;
        }
      }
      assert lines[..|lines|] == lines;
      if pending {
        if newN - 1 >= spanStart {
          anchors := anchors + {newN - 1};
        }
        anchors := anchors + {newN};
      }
    }

    /** indexHunk. */
    method IndexHunk(hunk: Hunk)
      modifies this
      ensures Value() == Indexed(old(Value()), hunk)
    {
      if hunk.truncated {
        partialOld := partialOld + [OldSpan(hunk)];
        partialNew := partialNew + [NewSpan(hunk)];
        return;
      }
      oldSpans := oldSpans + [OldSpan(hunk)];
      newSpans := newSpans + [NewSpan(hunk)];
      var oldN, newN := hunk.oldStart, hunk.newStart;
      var lines := Split(hunk.patch);
      if IsHeader(lines[0]) {
        var starts := HeaderStarts(lines[0]);
        if starts.Some? {
          oldN, newN := starts.value.0, starts.value.1;
        }
        lines := lines[1..];
      }
      IndexLines(lines, oldN, newN, hunk.newStart);
    }
  }

  method BuildChangedLineIndex(changes: seq<Change>) returns (files: map<string, FileIndex>)
    ensures files == IndexOf(changes)
  {
    files := map[];
    for i := 0 to |changes|
      invariant files == IndexOf(changes[..i])
    {
      var change := changes[i];
      assert changes[..i + 1][..i] == changes[..i];
      if change.hunks == [] {
        continue;
      }
      var file := new FileLineIndex();
      for j := 0 to |change.hunks|
        invariant file.Value() == FileOf(change.hunks[..j])
      {
        assert change.hunks[..j + 1][..j] == change.hunks[..j];
        file.IndexHunk(change.hunks[j]);
      }
      assert change.hunks[..|change.hunks|] == change.hunks;
      if TrimSpace(change.path) != "" {
        files := files[TrimSpace(change.path) := file.Value()];
      }
      if TrimSpace(change.oldPath) != "" {
        files := files[TrimSpace(change.oldPath) := file.Value()];
      }
    }
    assert changes[..|changes|] == changes;
  }

  // ----- Verifying a location

  datatype Side = OldSide | NewSide

  /** CanonicalLocation; snippet and metadata are carried along for the platforms. */
  datatype Location = Location(
    path: string, side: Side, startLine: int, endLine: int, snippet: string, platformMetadata: string)

  datatype LocationVerdict = Unknown | InDiff | OutOfDiff

  predicate Within(spans: seq<Span>, start: int, end: int) {
    exists i :: 0 <= i < |spans| && spans[i].start <= start && end <= spans[i].end
  }

  method WithinSpans(spans: seq<Span>, start: int, end: int) returns (within: bool)
    ensures within == Within(spans, start, end)
  {
    for i := 0 to |spans|
      invariant !Within(spans[..i], start, end)
    {
      if start >= spans[i].start && end <= spans[i].end {
        return true;
      }
      assert forall j :: 0 <= j < i ==> spans[j] == spans[..i][j];
      assert forall j :: 0 <= j < i + 1 ==> spans[..i + 1][j] == spans[j];
    }
    assert spans[..|spans|] == spans;
    return false;
  }

  function Verify(files: map<string, FileIndex>, loc: Location): LocationVerdict {
    var path := TrimSpace(loc.path);
    if path == "" || loc.startLine <= 0 || path !in files then Unknown
    else
      var file := files[path];
      var end := MaxInt(loc.startLine, loc.endLine);
      var inDiff :=
        match loc.side
        case OldSide =>
          || (loc.startLine in file.oldLines && Within(file.oldSpans, loc.startLine, end))
          || Within(file.partialOld, loc.startLine, end)
        case NewSide =>
          || ((loc.startLine in file.newLines || loc.startLine in file.anchors)
            && Within(file.newSpans, loc.startLine, end))
          || Within(file.partialNew, loc.startLine, end);
      if inDiff then InDiff else OutOfDiff
  }

  // ----- Placing a finding

  datatype Placement = Summary | FileLevel | Inline

  predicate SupportsInline(loc: Location) {
    var path := TrimSpace(loc.path);
    path != "" && (loc.startLine > 0 || loc.endLine > 0 || path[|path| - 1] != '/')
  }

  function PlacementOf(files: map<string, FileIndex>, loc: Location): Placement {
    if !SupportsInline(loc) then Summary
    else if Verify(files, loc) == OutOfDiff then FileLevel
    else Inline
  }
}
