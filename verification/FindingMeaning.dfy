/**
  What normalisation, matching and the columns of a row mean, in terms of the
  reported texts and the listed rows.
 */
module FindingMeaning {
  import opened Text
  import opened TextProofs
  import opened Findings
  import opened FindingProofs
  import opened FindingIssues

  // ----- Paths

  predicate NoDoubleSlash(s: string) { forall i :: 0 <= i < |s| - 1 ==> !(s[i] == '/' && s[i + 1] == '/') }

  lemma {:induction false} Replaced(s: string, a: char, b: char)
    requires a != b
    ensures |ReplaceChar(s, a, b)| == |s| && a !in ReplaceChar(s, a, b)
    ensures forall i :: 0 <= i < |s| ==> ReplaceChar(s, a, b)[i] == if s[i] == a then b else s[i]
  {
    if s != "" {
      Replaced(s[1..], a, b);
      assert ReplaceChar(s, a, b)[1..] == ReplaceChar(s[1..], a, b);
    }
  }

  lemma {:induction false} Collapsed(s: string)
    ensures NoDoubleSlash(CollapseSlashes(s)) && forall c :: c in CollapseSlashes(s) ==> c in s
    ensures s != "" ==> CollapseSlashes(s) != "" && CollapseSlashes(s)[0] == s[0]
    ensures NoDoubleSlash(s) ==> CollapseSlashes(s) == s
  {
    if |s| >= 2 {
      Collapsed(s[1..]);
      assert s == [s[0]] + s[1..];
    }
  }

  /** A path as normalisation leaves it alone: tight, with single forward slashes and no "./" in front. */
  predicate CleanPath(path: string) {
    Tight(path) && '\\' !in path && NoDoubleSlash(path) && !("./" <= path)
  }

  lemma {:induction false} TightIsTrimmed(s: string)
    requires Tight(s)
    ensures TrimSpace(s) == s
  {
    TrimPadding("", s, "");
    assert "" + s + "" == s;
  }

  /** Clean paths are kept as they are, and no path keeps a backslash or a double slash. */
  lemma {:induction false} PathNormal(path: string)
    ensures '\\' !in NormalizePath(path) && NoDoubleSlash(NormalizePath(path))
    ensures CleanPath(path) ==> NormalizePath(path) == path
  {
    var r := ReplaceChar(TrimSpace(path), '\\', '/');
    Replaced(TrimSpace(path), '\\', '/');
    Collapsed(r);
    if CleanPath(path) {
      TightIsTrimmed(path);
      assert r == path;
    }
  }

  /** Padding does not matter to a path, backslashes count as slashes, and one "./" in front is dropped. */
  lemma {:induction false} PathVariants(path: string, a: string, b: string)
    requires CleanPath(path) && AllSpace(a) && AllSpace(b)
    ensures NormalizePath(a + path + b) == path
    ensures NormalizePath(ReplaceChar(path, '/', '\\')) == path
    ensures path != "" && path[0] != '/' ==> NormalizePath("./" + path) == path
  {
    TrimPadding(a, path, b);
    PathNormal(path);
    TightIsTrimmed(path);
    BackslashPath(path);
    if path != "" && path[0] != '/' {
      DottedPath(path);
    }
  }

  lemma {:induction false} BackslashPath(path: string)
    requires CleanPath(path)
    ensures NormalizePath(ReplaceChar(path, '/', '\\')) == path
  {
    var other := ReplaceChar(path, '/', '\\');
    Replaced(path, '/', '\\');
    assert Tight(other);
    TightIsTrimmed(other);
    Replaced(other, '\\', '/');
    assert ReplaceChar(other, '\\', '/') == path;
    Collapsed(path);
  }

  lemma {:induction false} DottedPath(path: string)
    requires CleanPath(path) && path != "" && path[0] != '/'
    ensures NormalizePath("./" + path) == path
  {
    var dotted := "./" + path;
    assert Tight(dotted) && NoDoubleSlash(dotted) && '\\' !in dotted;
    TightIsTrimmed(dotted);
    Replaced(dotted, '\\', '/');
    assert ReplaceChar(dotted, '\\', '/') == dotted;
    Collapsed(dotted);
    assert dotted[2..] == path;
  }

  // ----- Snippets

  predicate Word(w: string) { w != "" && forall i :: 0 <= i < |w| ==> !IsSpace(w[i]) }

  lemma {:induction false} WordPrefix(s: string)
    ensures forall i :: 0 <= i < WordLength(s) ==> !IsSpace(s[i])
    ensures WordLength(s) < |s| ==> IsSpace(s[WordLength(s)])
    ensures s != "" && !IsSpace(s[0]) ==> WordLength(s) > 0
  {
    if s != "" && !IsSpace(s[0]) {
      WordPrefix(s[1..]);
    }
  }

  lemma {:induction false} FieldsAreWords(s: string)
    ensures forall i :: 0 <= i < |Fields(s)| ==> Word(Fields(s)[i])
    decreases |s|
  {
    if s != "" {
      if IsSpace(s[0]) {
        FieldsAreWords(s[1..]);
      } else {
        WordPrefix(s);
        FieldsAreWords(s[WordLength(s)..]);
      }
    }
  }

  lemma {:induction false} FieldsOfJoin(words: seq<string>)
    requires forall i :: 0 <= i < |words| ==> Word(words[i])
    ensures Fields(Join(words, " ")) == words
  {
    if |words| == 1 {
      WordThen(words[0], "");
      assert words[0] + "" == words[0];
      assert words == [words[0]];
    } else if |words| > 1 {
      var rest := Join(words[1..], " ");
      FieldsOfJoin(words[1..]);
      var s := words[0] + (" " + rest);
      assert Join(words, " ") == s;
      WordThen(words[0], " " + rest);
      assert s[..|words[0]|] == words[0] && s[|words[0]|..] == " " + rest;
      assert (" " + rest)[1..] == rest;
      assert words == [words[0]] + words[1..];
    }
  }

  /** Two snippets are one to the fingerprint exactly when they consist of the same words. */
  lemma {:induction false} SnippetIff(a: Finding, b: Finding)
    ensures Fields(Normalize(a).snippet) == Fields(a.snippet)
    ensures Normalize(a).snippet == Normalize(b).snippet <==> Fields(a.snippet) == Fields(b.snippet)
  {
    FieldsAreWords(a.snippet);
    FieldsAreWords(b.snippet);
    FieldsOfJoin(Fields(a.snippet));
    FieldsOfJoin(Fields(b.snippet));
  }

  // ----- Kinds, keys and the other columns

  const KINDS: seq<(seq<string>, string)> :=
    [(["new", "new_line", "added"], "new_line"), (["old", "old_line", "deleted"], "old_line"),
     (["context", "context_line", "unchanged"], "context_line")]

  /** A kind that says one of the words, in any case and with any padding, is that kind of line. */
  lemma {:induction false} KindSaid(f: Finding, i: nat, word: string)
    requires i < |KINDS| && word in KINDS[i].0 && Says(f.kind, word)
    ensures Normalize(f).kind == KINDS[i].1
  {
    PlainKinds(i, word);
    SaidWord(f.kind, word);
    KindOfWord(f.kind, i, word);
  }

  predicate PlainWord(word: string) {
    word != "" && LowerCase(word) && forall j :: 0 <= j < |word| ==> '!' <= word[j] <= '~'
  }

  lemma {:induction false} PlainKinds(i: nat, word: string)
    requires i < |KINDS| && word in KINDS[i].0
    ensures PlainWord(word)
  {
    if i == 0 {
      assert word == "new" || word == "new_line" || word == "added";
    } else if i == 1 {
      assert word == "old" || word == "old_line" || word == "deleted";
    } else {
      assert word == "context" || word == "context_line" || word == "unchanged";
    }
  }

  lemma {:induction false} KindOfWord(kind: string, i: nat, word: string)
    requires i < |KINDS| && word in KINDS[i].0 && ToLower(TrimSpace(kind)) == word
    ensures NormalizeKind(kind) == KINDS[i].1
  {
    assert |KINDS| == 3;
    assert i == 0 || i == 1 || i == 2;
    assert KINDS[0] == (["new", "new_line", "added"], "new_line");
    assert KINDS[1] == (["old", "old_line", "deleted"], "old_line");
    assert KINDS[2] == (["context", "context_line", "unchanged"], "context_line");
  }

  /** Without a kind, a finding on a line of one side only gets that side's; on both or none it gets none. */
  lemma {:induction false} KindFallback(f: Finding)
    requires AllSpace(f.kind)
    ensures Normalize(f).kind
         == if f.newLine.Some? && f.oldLine.None? then "new"
            else if f.oldLine.Some? && f.newLine.None? then "old"
            else ""
  {
    BlankIff(f.kind);
  }

  /** A finding without a key is known by its title and path; no finding is left without a key. */
  lemma {:induction false} KeyFallback(f: Finding)
    ensures Normalize(f).key != ""
    ensures !AllSpace(f.key) ==> Normalize(f).key == TrimSpace(f.key)
    ensures AllSpace(f.key) && Normalize(f).title != "" && CleanPath(Normalize(f).path) ==>
      Normalize(f).key == ToLower(Normalize(f).title + "::" + Normalize(f).path)
  {
    BlankIff(f.key);
    PathNormal(Normalize(f).path);
    var s := TrimSpace(f.title) + "::" + NormalizePath(NormalizePath(f.path));
    assert |ToLower(s)| == |s| >= 2;
  }

  /** Padding around the words of a report never matters, and lines and confidence are kept. */
  lemma {:induction false} PaddingIgnored(f: Finding, a: string, b: string)
    requires AllSpace(a) && AllSpace(b) && Tight(f.category) && Tight(f.severity) && Tight(f.title) && Tight(f.symbol)
    requires Tight(f.key) && CleanPath(f.path)
    ensures
      var padded := f.(category := a + f.category + b, severity := a + f.severity + b, title := a + f.title + b,
      path := a + f.path + b, key := a + f.key + b, symbol := a + f.symbol + b);
      Normalize(padded) == Normalize(f)
    ensures
      var n := Normalize(f);
      && n.category == f.category && n.severity == f.severity && n.title == f.title && n.symbol == f.symbol
      && n.path == f.path && (f.key != "" ==> n.key == f.key)
      && n.confidence == f.confidence && n.oldLine == f.oldLine && n.newLine == f.newLine
  {
    PaddedText(a, f.category, b);
    PaddedText(a, f.severity, b);
    PaddedText(a, f.title, b);
    PaddedText(a, f.symbol, b);
    PaddedText(a, f.key, b);
    PathVariants(f.path, a, b);
    PathNormal(f.path);
  }

  lemma {:induction false} PaddedText(a: string, s: string, b: string)
    requires AllSpace(a) && AllSpace(b) && Tight(s)
    ensures TrimSpace(a + s + b) == s == TrimSpace(s)
  {
    TrimPadding(a, s, b);
    TightIsTrimmed(s);
  }

  // ----- Matching

  /** A new finding on an old line is never compared with a row of kind "deleted" in the same file. */
  predicate Comparable(r: Row, f: Finding) {
    !(r.kind == "deleted" && f.kind == "old_line" && NormalizePath(r.path) == f.path)
  }

  predicate ReportedIn(r: Row, run: RunId) { r.run == run || (r.lastSeen.Some? && r.lastSeen.value == run) }

  predicate SameAnchor(fr: Frame, k: nat, id: RowId)
    requires k < |fr.cs|
  {
    var f := fr.cs[k].f;
    id < |fr.snap| && Comparable(fr.snap[id], f)
    && fr.snap[id].anchor == AnchorPrint(f.path, f.kind, f.snippet, f.category, f.key)
  }

  predicate SameMeaning(fr: Frame, k: nat, id: RowId)
    requires k < |fr.cs|
  {
    var f := fr.cs[k].f;
    id < |fr.snap| && Comparable(fr.snap[id], f) && !ReportedIn(fr.snap[id], fr.run)
    && fr.snap[id].semantic == SemanticPrint(f.path, f.category, f.key, f.symbol)
  }

  predicate SameByMatcher(fr: Frame, k: nat, id: RowId)
    requires k < |fr.cs|
  {
    id < |fr.snap| && NormalizePath(fr.snap[id].path) == fr.cs[k].f.path && !ReportedIn(fr.snap[id], fr.run)
    && fr.oracle.Some? && fr.oracle.value(k, id)
  }

  /** The row is the first listed one with the property. */
  ghost predicate FirstListed(order: seq<RowId>, p: RowId -> bool, id: RowId) {
    exists i :: 0 <= i < |order| && order[i] == id && p(id) && forall j :: 0 <= j < i ==> !p(order[j])
  }

  ghost predicate NoneListed(order: seq<RowId>, p: RowId -> bool) { forall i :: 0 <= i < |order| ==> !p(order[i]) }

  lemma {:induction false} FirstMeaning(order: seq<RowId>, p: RowId -> bool)
    ensures First(order, p).None? <==> NoneListed(order, p)
    ensures First(order, p).Some? ==> FirstListed(order, p, First(order, p).value)
  {
    if order != [] {
      if p(order[0]) {
        assert FirstListed(order, p, order[0]);
      } else {
        var rest := order[1..];
        FirstMeaning(rest, p);
        assert forall i :: 0 <= i < |rest| ==> rest[i] == order[i + 1];
        if First(rest, p).Some? {
          var id := First(rest, p).value;
          var i :| 0 <= i < |rest| && rest[i] == id && p(id) && forall j :: 0 <= j < i ==> !p(rest[j]);
          forall j | 0 <= j < i + 1 ensures !p(order[j]) {
            assert j > 0 ==> order[j] == rest[j - 1];
          }
          assert order[i + 1] == id;
        } else {
          forall i | 0 <= i < |order| ensures !p(order[i]) {
            assert i > 0 ==> order[i] == rest[i - 1];
          }
        }
      }
    }
  }

  lemma {:induction false} SameFirst(order: seq<RowId>, p: RowId -> bool, q: RowId -> bool)
    requires forall id :: p(id) == q(id)
    ensures First(order, p) == First(order, q)
  {
    if order != [] {
      SameFirst(order[1..], p, q);
    }
  }

  lemma {:induction false} HitsMeaning(fr: Frame, k: nat)
    requires k < |fr.cs| && fr.cs[k].verdict == AsNew
    ensures AnchorHit(fr.snap, fr.order, fr.cs[k]) == First(fr.order, (id: RowId) => SameAnchor(fr, k, id))
    ensures SemanticHit(fr.snap, fr.order, fr.run, fr.cs[k]) == First(fr.order, (id: RowId) => SameMeaning(fr, k, id))
    ensures fr.oracle.Some? ==>
      OracleHit(fr.snap, fr.order, fr.run, fr.cs[k], (id: RowId) => fr.oracle.value(k, id))
      == First(fr.order, (id: RowId) => SameByMatcher(fr, k, id))
  {
    var c := fr.cs[k];
    SameFirst(fr.order,
              (id: RowId) => id < |fr.snap| && !NeverPaired(fr.snap[id], c) && fr.snap[id].anchor == AnchorOf(c.f),
              (id: RowId) => SameAnchor(fr, k, id));
    SameFirst(fr.order,
              (id: RowId) => id < |fr.snap| && !NeverPaired(fr.snap[id], c) && fr.snap[id].semantic == SemanticOf(c.f)
                && !SeenBy(fr.snap[id], fr.run),
              (id: RowId) => SameMeaning(fr, k, id));
    if fr.oracle.Some? {
      MatcherMeaning(fr, k, (id: RowId) => fr.oracle.value(k, id), (id: RowId) => SameByMatcher(fr, k, id));
    }
  }

  lemma {:induction false} MatcherMeaning(fr: Frame, k: nat, same: RowId -> bool, q: RowId -> bool)
    requires k < |fr.cs| && fr.oracle.Some?
    requires forall id :: same(id) == fr.oracle.value(k, id)
    requires forall id :: q(id) == SameByMatcher(fr, k, id)
    ensures OracleHit(fr.snap, fr.order, fr.run, fr.cs[k], same) == First(fr.order, q)
  {
    var c := fr.cs[k];
    var p := (id: RowId) =>
      id < |fr.snap| && NormalizePath(fr.snap[id].path) == c.f.path && !SeenBy(fr.snap[id], fr.run) && same(id);
    forall id ensures p(id) == q(id) {
      assert same(id) == fr.oracle.value(k, id);
    }
    SameFirst(fr.order, p, q);
  }

  /** What the run does with a kept finding, in terms of the listed rows. */
  ghost predicate Chosen(fr: Frame, k: nat, m: Match)
    requires k < |fr.cs|
  {
    var anchor := (id: RowId) => SameAnchor(fr, k, id);
    var meaning := (id: RowId) => SameMeaning(fr, k, id);
    var matcher := (id: RowId) => SameByMatcher(fr, k, id);
    match m
    case AlreadySeen(id) => FirstListed(fr.order, anchor, id) && id < |fr.snap| && ReportedIn(fr.snap[id], fr.run)
    case Touch(id) => FirstListed(fr.order, anchor, id) && id < |fr.snap| && !ReportedIn(fr.snap[id], fr.run)
    case Relocate(id) =>
      && NoneListed(fr.order, anchor) && FirstListed(fr.order, meaning, id) && id < |fr.snap|
      && fr.snap[id].kind == fr.cs[k].f.kind && NormalizePath(fr.snap[id].path) == fr.cs[k].f.path
    case Supersede(id) =>
      && NoneListed(fr.order, anchor) && id < |fr.snap|
      && (NoneListed(fr.order, meaning) ==> FirstListed(fr.order, matcher, id))
      && (!NoneListed(fr.order, meaning) ==>
            && FirstListed(fr.order, meaning, id)
            && !(fr.snap[id].kind == fr.cs[k].f.kind && NormalizePath(fr.snap[id].path) == fr.cs[k].f.path))
    case Unmatched =>
      NoneListed(fr.order, anchor) && NoneListed(fr.order, meaning) && NoneListed(fr.order, matcher)
  }

  /**
    A kept finding recognises the first comparable row with its anchor; failing
    that it takes the first unseen one of its meaning, and relocates it if path
    and kind agree; failing that the first unseen one of the file the matcher
    accepts; and otherwise none.
   */
  lemma {:induction false} MatchMeaning(fr: Frame, k: nat)
    requires ValidFrame(fr) && k < |fr.cs| && fr.cs[k].verdict == AsNew
    ensures Chosen(fr, k, MatchAt(fr, k))
  {
    assert Planned(fr, k);
    HitsMeaning(fr, k);
    FirstMeaning(fr.order, (id: RowId) => SameAnchor(fr, k, id));
    FirstMeaning(fr.order, (id: RowId) => SameMeaning(fr, k, id));
    FirstMeaning(fr.order, (id: RowId) => SameByMatcher(fr, k, id));
  }

  // ----- Where a finding's row is, and what it says

  datatype Place = Place(path: string, kind: string, oldLine: Option<int>, newLine: Option<int>, snippet: string)

  function PlaceOf(f: Finding): Place { Place(f.path, f.kind, f.oldLine, f.newLine, f.snippet) }

  function RowPlace(r: Row): Place { Place(r.path, r.kind, r.oldLine, r.newLine, r.snippet) }

  lemma {:induction false} PlaceStep(fr: Frame, n: nat, i: nat)
    requires n < |fr.cs| && i < |fr.snap|
    ensures RowPlace(Process(fr, n + 1).rows[i])
         == if RelocatesAt(fr, n, i) then PlaceOf(fr.cs[n].f) else RowPlace(Process(fr, n).rows[i])
  {
    StepRow(fr, n, i);
  }

  lemma {:induction false} PlaceKept(fr: Frame, a: nat, b: nat, i: nat)
    requires a <= b <= |fr.cs| && i < |fr.snap| && forall j: nat :: a <= j < b ==> !RelocatesAt(fr, j, i)
    ensures RowPlace(Process(fr, b).rows[i]) == RowPlace(Process(fr, a).rows[i])
  {
    if a < b {
      PlaceKept(fr, a, b - 1, i);
      assert !RelocatesAt(fr, b - 1, i);
      PlaceStep(fr, b - 1, i);
    }
  }

  /** A finding that relocates a row and keeps it leaves the row live at its own place. */
  lemma {:induction false} RelocatedPlace(fr: Frame, s: Scope, k: nat)
    requires Ready(fr) && k < |fr.cs| && fr.cs[k].verdict == AsNew && MatchAt(fr, k).Relocate? && KeepsRow(fr, k)
    ensures Persist(fr, s).Done? && LiveIn(Persist(fr, s).rows, fr.mr, MatchAt(fr, k).id)
    ensures RowPlace(Persist(fr, s).rows[MatchAt(fr, k).id]) == PlaceOf(fr.cs[k].f)
  {
    var i := MatchAt(fr, k).id;
    assert RelocatesAt(fr, k, i) && Hits(fr, k, i) && EverHit(fr, |fr.cs|, i);
    assert LiveIn(fr.snap, fr.mr, i);
    LiveAfterRunIff(fr, s, i);
    PersistRow(fr, s, i);
    ProcessHits(fr, |fr.cs|, i);
    PlaceStep(fr, k, i);
    PlaceKept(fr, k + 1, |fr.cs|, i);
  }

  /** A finding that gets a row of its own is stored as it was reported. */
  lemma {:induction false} InsertedRow(fr: Frame, s: Scope, k: nat) returns (i: nat)
    requires ValidFrame(fr) && k < |fr.cs| && fr.cs[k].verdict == AsNew && Inserts(MatchAt(fr, k))
    ensures Persist(fr, s).Done? && i >= |fr.snap| && LiveIn(Persist(fr, s).rows, fr.mr, i)
    ensures
      var r, f := Persist(fr, s).rows[i], fr.cs[k].f;
      && RowPlace(r) == PlaceOf(f) && r.run == fr.run && r.state == New && r.lastSeen.None? && r.matched.None?
      && r.category == f.category && r.severity == f.severity && r.confidence == f.confidence && r.title == f.title
      && r.key == f.key
  {
    var n := |fr.cs|;
    var j := InsertedStays(fr, k, n);
    AppendedRows(fr, n);
    i := |fr.snap| + j;
    assert Process(fr, n).rows[i] == Appended(fr, n)[j];
    PersistRow(fr, s, i);
  }

  /** A finding that only recognises its row leaves its place and its texts as they were. */
  lemma {:induction false} RecognisedRow(fr: Frame, s: Scope, k: nat)
    requires Ready(fr) && k < |fr.cs| && fr.cs[k].verdict == AsNew && Recognises(MatchAt(fr, k)) && KeepsRow(fr, k)
    ensures
      var i := MatchAt(fr, k).id;
      && Persist(fr, s).Done? && LiveIn(Persist(fr, s).rows, fr.mr, i)
      && RowPlace(Persist(fr, s).rows[i]) == RowPlace(fr.snap[i])
  {
    var i := MatchAt(fr, k).id;
    assert Hits(fr, k, i) && EverHit(fr, |fr.cs|, i);
    assert LiveIn(fr.snap, fr.mr, i);
    LiveAfterRunIff(fr, s, i);
    PersistRow(fr, s, i);
    ProcessHits(fr, |fr.cs|, i);
    PlaceKept(fr, 0, |fr.cs|, i);
  }

  lemma {:induction false} AppendedRowStays(fr: Frame, m: nat, n: nat, j: nat)
    requires m <= n <= |fr.cs| && |fr.snap| <= j < |Process(fr, m).rows|
    ensures j < |Process(fr, n).rows| && Process(fr, n).rows[j] == Process(fr, m).rows[j]
  {
    if m < n {
      AppendedRowStays(fr, m, n - 1, j);
      StepRow(fr, n - 1, j);
    }
  }

  ghost predicate DisplacesAt(fr: Frame, k: nat, i: nat)
    requires k < |fr.cs|
  {
    Hits(fr, k, i) && MatchAt(fr, k).Supersede?
  }

  lemma {:induction false} LastDisplacer(fr: Frame, n: nat, i: nat) returns (k: nat)
    requires n <= |fr.cs| && Displaced(fr, n, i)
    ensures k < n && DisplacesAt(fr, k, i) && forall l: nat :: k < l < n ==> !DisplacesAt(fr, l, i)
  {
    k := n - 1;
    if !DisplacesAt(fr, k, i) {
      k := LastDisplacer(fr, n - 1, i);
    }
  }

  lemma {:induction false} PointerStep(fr: Frame, n: nat, i: nat)
    requires n < |fr.cs| && i < |fr.snap|
    ensures
      var w, w' := Process(fr, n), Process(fr, n + 1);
      && w'.rows[i].matched == (if DisplacesAt(fr, n, i) then Some(|w.rows|) else w.rows[i].matched)
      && (DisplacesAt(fr, n, i) ==> |w.rows| < |w'.rows| && w'.rows[|w.rows|] == NewRow(fr.run, fr.mr, fr.cs[n]))
  {
    StepRow(fr, n, i);
  }

  lemma {:induction false} PointerStays(fr: Frame, m: nat, n: nat, i: nat)
    requires m <= n <= |fr.cs| && i < |fr.snap| && forall l: nat :: m <= l < n ==> !DisplacesAt(fr, l, i)
    ensures Process(fr, n).rows[i].matched == Process(fr, m).rows[i].matched
  {
    if m < n {
      PointerStays(fr, m, n - 1, i);
      PointerStep(fr, n - 1, i);
    }
  }

  /** The last finding that displaced a row inserted the row that it points to. */
  lemma {:induction false} DisplacedPoints(fr: Frame, n: nat, i: nat) returns (k: nat, j: nat)
    requires n <= |fr.cs| && i < |fr.snap| && Displaced(fr, n, i)
    ensures k < n && fr.cs[k].verdict == AsNew && MatchAt(fr, k) == Supersede(i)
    ensures |fr.snap| <= j < |Process(fr, n).rows| && Process(fr, n).rows[j] == NewRow(fr.run, fr.mr, fr.cs[k])
    ensures Process(fr, n).rows[i].matched == Some(j)
  {
    k := LastDisplacer(fr, n, i);
    j := |Process(fr, k).rows|;
    PointerStep(fr, k, i);
    PointerStays(fr, k + 1, n, i);
    AppendedRowStays(fr, k + 1, n, j);
  }

  /** A displaced row is superseded, and points to the live row of the finding that displaced it. */
  lemma {:induction false} SupersededPoints(fr: Frame, s: Scope, i: nat) returns (k: nat, j: nat)
    requires ValidFrame(fr) && LiveIn(fr.snap, fr.mr, i) && Displaced(fr, |fr.cs|, i)
    ensures k < |fr.cs| && fr.cs[k].verdict == AsNew && MatchAt(fr, k) == Supersede(i)
    ensures Persist(fr, s).Done? && LiveIn(Persist(fr, s).rows, fr.mr, j)
    ensures
      var rows := Persist(fr, s).rows;
      rows[i].state == Superseded && rows[i].matched == Some(j) && RowPlace(rows[j]) == PlaceOf(fr.cs[k].f)
  {
    var n := |fr.cs|;
    k, j := DisplacedPoints(fr, n, i);
    RunFates(fr, s);
    assert Fate(fr, s, Persist(fr, s).rows, i);
    PersistRow(fr, s, i);
    PersistRow(fr, s, j);
    assert Hits(fr, k, i) && EverHit(fr, n, i);
    ProcessHits(fr, n, i);
  }

  // ----- States

  /** A finding moves from new over posted to active, and from each to a final state; live is what can still move. */
  lemma {:induction false} TransitionsExact(r: Row, next: State)
    ensures next in AllowedFrom(r.state) <==>
      || (r.state == New && next == Posted) || (r.state == Posted && next == Active)
      || (r.state in {New, Posted, Active} && next in {Fixed, Superseded, Stale, Ignored})
    ensures Live(r) <==> exists s :: s in AllowedFrom(r.state)
  {
    assert Live(r) ==> Fixed in AllowedFrom(r.state);
  }
}
