/**
  What a merged finding stands for, when the verdict asks for changes, and when
  two findings are one to the judge.
 */
module JudgeProofs {
  import opened Text
  import opened TextProofs
  import opened Hunks
  import opened DiffIndex
  import opened Judge

  // ----- A group and its speaker

  predicate InGroup(rs: seq<Report>, key: Keys, k: string, i: nat) { i < |rs| && KeyOf(rs[i], key) == k }

  /** The first of the most severe reports of its group. */
  ghost predicate Speaks(rs: seq<Report>, key: Keys, k: string, i: nat) {
    && InGroup(rs, key, k, i)
    && (forall j: nat :: InGroup(rs, key, k, j) ==> Rank(rs[j]) <= Rank(rs[i]) && (j < i ==> Rank(rs[j]) < Rank(rs[i])))
  }

  predicate ReportedBy(rs: seq<Report>, key: Keys, k: string, reviewer: string, i: nat) {
    InGroup(rs, key, k, i) && rs[i].reviewer == reviewer
  }

  ghost predicate Reported(rs: seq<Report>, key: Keys, k: string, reviewer: string) {
    exists i: nat :: ReportedBy(rs, key, k, reviewer, i)
  }

  /** The first reviewer reported something of the group before the second did. */
  ghost predicate Earlier(rs: seq<Report>, key: Keys, k: string, first: string, second: string) {
    exists i: nat :: ReportedBy(rs, key, k, first, i) && forall j: nat :: j <= i ==> !ReportedBy(rs, key, k, second, j)
  }

  /** The reviewers of a group, each once, in the order of their first reports. */
  ghost predicate Reporters(rs: seq<Report>, key: Keys, k: string, reviewers: seq<string>) {
    && (forall i: nat :: InGroup(rs, key, k, i) ==> rs[i].reviewer in reviewers)
    && (forall a :: 0 <= a < |reviewers| ==> Reported(rs, key, k, reviewers[a]))
    && (forall a, b :: 0 <= a < b < |reviewers| ==> Earlier(rs, key, k, reviewers[a], reviewers[b]))
  }

  /**
    Every merged finding is the finding of the report that speaks for its group; a
    key is filed when it was reported.
   */
  lemma {:induction false} GroupSpeaker(rs: seq<Report>, key: Keys, k: string) returns (i: nat)
    requires k in MergeAll(rs, key)
    ensures Speaks(rs, key, k, i) && MergeAll(rs, key)[k].finding == rs[i].finding
  {
    var before, n := rs[..|rs| - 1], |rs| - 1;
    if k in MergeAll(before, key) {
      var w := GroupSpeaker(before, key, k);
      i := if KeyOf(rs[n], key) == k && Rank(rs[n]) > Rank(before[w]) then n else w;
      forall j: nat | InGroup(rs, key, k, j)
        ensures Rank(rs[j]) <= Rank(rs[i]) && (j < i ==> Rank(rs[j]) < Rank(rs[i]))
      {
        if j < n {
          assert InGroup(before, key, k, j);
        }
      }
    } else {
      i := n;
      forall j: nat | InGroup(rs, key, k, j) ensures j == n {
        if j < n {
          assert InGroup(before, key, k, j);
          FiledWhenReported(before, key, j);
        }
      }
    }
  }

  lemma {:induction false} FiledWhenReported(rs: seq<Report>, key: Keys, i: nat)
    requires i < |rs|
    ensures KeyOf(rs[i], key) in MergeAll(rs, key)
  {
    if i < |rs| - 1 {
      assert rs[..|rs| - 1][i] == rs[i];
      FiledWhenReported(rs[..|rs| - 1], key, i);
    }
  }

  lemma {:induction false} SpeakerUnique(rs: seq<Report>, key: Keys, k: string, i: nat, j: nat)
    requires Speaks(rs, key, k, i) && Speaks(rs, key, k, j)
    ensures i == j
  {
    assert InGroup(rs, key, k, i) && InGroup(rs, key, k, j);
  }

  lemma {:induction false} EarlierStays(rs: seq<Report>, key: Keys, k: string, first: string, second: string)
    requires rs != [] && Earlier(rs[..|rs| - 1], key, k, first, second)
    ensures Earlier(rs, key, k, first, second)
  {
    var before := rs[..|rs| - 1];
    var i: nat :| ReportedBy(before, key, k, first, i)
      && forall j: nat :: j <= i ==> !ReportedBy(before, key, k, second, j);
    assert ReportedBy(rs, key, k, first, i);
    forall j: nat | j <= i ensures !ReportedBy(rs, key, k, second, j) {
      assert !ReportedBy(before, key, k, second, j);
    }
  }

  lemma {:induction false} ReportersStep(rs: seq<Report>, key: Keys, k: string, a: nat, b: nat)
    requires rs != [] && k in MergeAll(rs[..|rs| - 1], key)
    requires Reporters(rs[..|rs| - 1], key, k, MergeAll(rs[..|rs| - 1], key)[k].reviewers)
    requires a < b < |MergeAll(rs, key)[k].reviewers|
    ensures Earlier(rs, key, k, MergeAll(rs, key)[k].reviewers[a], MergeAll(rs, key)[k].reviewers[b])
  {
    var before := rs[..|rs| - 1];
    var old', new' := MergeAll(before, key)[k].reviewers, MergeAll(rs, key)[k].reviewers;
    if b < |old'| {
      EarlierStays(rs, key, k, old'[a], old'[b]);
    } else {
      var i: nat :| ReportedBy(before, key, k, old'[a], i);
      assert ReportedBy(rs, key, k, new'[a], i);
      forall j: nat | j <= i ensures !ReportedBy(rs, key, k, new'[b], j) {
        assert InGroup(rs, key, k, j) ==> InGroup(before, key, k, j) && before[j] == rs[j];
      }
    }
  }

  lemma {:induction false} GroupReporters(rs: seq<Report>, key: Keys, k: string)
    requires k in MergeAll(rs, key)
    ensures Reporters(rs, key, k, MergeAll(rs, key)[k].reviewers)
  {
    var before, n := rs[..|rs| - 1], |rs| - 1;
    var reviewers := MergeAll(rs, key)[k].reviewers;
    if k in MergeAll(before, key) {
      GroupReporters(before, key, k);
      forall i: nat | InGroup(rs, key, k, i) ensures rs[i].reviewer in reviewers {
        assert i < n ==> InGroup(before, key, k, i);
      }
      forall a | 0 <= a < |reviewers| ensures Reported(rs, key, k, reviewers[a]) {
        if a < |MergeAll(before, key)[k].reviewers| {
          assert Reported(before, key, k, MergeAll(before, key)[k].reviewers[a]);
          var i: nat :| ReportedBy(before, key, k, reviewers[a], i);
          assert ReportedBy(rs, key, k, reviewers[a], i);
        } else {
          assert ReportedBy(rs, key, k, reviewers[a], n);
        }
      }
      forall a, b | 0 <= a < b < |reviewers| ensures Earlier(rs, key, k, reviewers[a], reviewers[b]) {
        ReportersStep(rs, key, k, a, b);
      }
    } else {
      assert ReportedBy(rs, key, k, reviewers[0], n);
      forall i: nat | InGroup(rs, key, k, i) ensures i == n {
        if i < n {
          assert before[i] == rs[i];
          FiledWhenReported(before, key, i);
        }
      }
    }
  }

  // ----- When the verdict asks for changes

  /**
    A blocking report that no report of its group outranks with a severity the
    verdict does not recognise.
   */
  ghost predicate Unmasked(rs: seq<Report>, key: Keys, i: nat) {
    && i < |rs| && Blocks(rs[i].finding.severity)
    && (forall j: nat :: InGroup(rs, key, KeyOf(rs[i], key), j) && !Blocks(rs[j].finding.severity) ==>
      Rank(rs[j]) < Rank(rs[i]) || (Rank(rs[j]) == Rank(rs[i]) && i < j))
  }

  ghost predicate Requested(rs: seq<Report>, key: Keys) { exists i: nat :: Unmasked(rs, key, i) }

  lemma {:induction false} BlockingIsUnmasked(rs: seq<Report>, key: Keys, k: string) returns (w: nat)
    requires k in MergeAll(rs, key) && Blocks(MergeAll(rs, key)[k].finding.severity)
    ensures Unmasked(rs, key, w)
  {
    w := GroupSpeaker(rs, key, k);
  }

  lemma {:induction false} UnmaskedBlocks(rs: seq<Report>, key: Keys, i: nat)
    requires Unmasked(rs, key, i)
    ensures KeyOf(rs[i], key) in MergeAll(rs, key)
    ensures Blocks(MergeAll(rs, key)[KeyOf(rs[i], key)].finding.severity)
  {
    var k := KeyOf(rs[i], key);
    FiledWhenReported(rs, key, i);
    var w := GroupSpeaker(rs, key, k);
    assert InGroup(rs, key, k, i) && InGroup(rs, key, k, w);
  }

  /**
    For every list of reports and every order of the map: changes are requested
    exactly when some report is unmasked.
   */
  lemma {:induction false} RequestedIff(rs: seq<Report>, key: Keys, merged: seq<Merged>)
    requires Enumerates(merged, MergeAll(rs, key), key)
    ensures AnyBlocks(merged) <==> Requested(rs, key)
  {
    var byIdentity := MergeAll(rs, key);
    if m :| 0 <= m < |merged| && Blocks(merged[m].finding.severity) {
      assert Listed(merged[m], byIdentity, key);
      var w := BlockingIsUnmasked(rs, key, MergedKey(merged[m], key));
    }
    if i: nat :| Unmasked(rs, key, i) {
      UnmaskedBlocks(rs, key, i);
      var m :| 0 <= m < |merged| && merged[m] == byIdentity[KeyOf(rs[i], key)];
      assert Blocks(merged[m].finding.severity);
    }
  }

  // ----- Severities

  lemma {:induction false} FoldedOfLower(s: string, word: string)
    requires ToLower(s) == word && '\U{130}' !in s && 'k' !in word
    requires forall i :: 0 <= i < |word| ==> 'a' <= word[i] <= 'z'
    ensures FoldsTo(s, word)
  {
    if s != "" {
      assert word[1..] == ToLower(s[1..]);
      assert '\U{130}' !in s[1..];
      assert 'k' !in word[1..];
      FoldedOfLower(s[1..], word[1..]);
      forall i | 0 <= i < |s| ensures s[i] == word[i] || ('A' <= s[i] <= 'Z' && s[i] + ' ' == word[i]) {
        if i > 0 {
          assert s[1..][i - 1] == s[i] && word[1..][i - 1] == word[i];
        } else {
          assert word[0] in word;
        }
      }
    }
  }

  lemma {:induction false} FoldedWord(s: string, word: string)
    requires FoldsTo(s, word) && word != "" && forall i :: 0 <= i < |word| ==> 'a' <= word[i] <= 'z'
    ensures TrimSpace(s) == s && ToLower(s) == word && '\U{130}' !in s
  {
    FoldedLowers(s, word);
    assert !IsSpace(s[0]) && !IsSpace(s[|s| - 1]);
    assert TrimLeft(s) == s;
  }

  /** A severity as a reviewer's finding carries it: trimmed, and spelled without the dotted capital I. */
  predicate Plain(severity: string) { TrimSpace(severity) == severity && '\U{130}' !in severity }

  lemma {:induction false} WordsLower(word: string)
    requires word == "high" || word == "critical"
    ensures word != "" && 'k' !in word && forall i :: 0 <= i < |word| ==> 'a' <= word[i] <= 'z'
  {
  }

  /** What blocks is ranked high or critical; what is so ranked blocks exactly when it is plain. */
  lemma {:induction false} BlocksIff(severity: string)
    ensures Blocks(severity) <==> SeverityRank(severity) >= 3 && Plain(severity)
  {
    WordsLower("high");
    WordsLower("critical");
    if FoldsTo(severity, "high") {
      FoldedWord(severity, "high");
    } else if FoldsTo(severity, "critical") {
      FoldedWord(severity, "critical");
    } else if SeverityRank(severity) >= 3 && Plain(severity) {
      FoldedOfLower(severity, ToLower(severity));
    }
  }

  const SEVERITIES := ["low", "medium", "high", "critical"]

  lemma {:induction false} SeverityWords(i: nat)
    requires i < 4
    ensures LowerCase(SEVERITIES[i]) && forall j :: 0 <= j < |SEVERITIES[i]| ==> '!' <= SEVERITIES[i][j] <= '~'
    ensures RankOf(SEVERITIES[i]) == i + 1
  {
    assert SEVERITIES[i] in {"low", "medium", "high", "critical"};
  }

  /** A severity ranks as its word, in any case and padding: low, medium, high, critical, and below them the rest. */
  lemma {:induction false} SeverityOrder(s: string, t: string, i: nat)
    requires i < 4 && Says(s, SEVERITIES[i])
    ensures forall j: nat :: j < 4 && Says(t, SEVERITIES[j]) ==> (SeverityRank(s) < SeverityRank(t) <==> i < j)
    ensures ToLower(TrimSpace(t)) !in SEVERITIES ==> SeverityRank(t) < SeverityRank(s)
  {
    SeverityWords(i);
    SaidWord(s, SEVERITIES[i]);
    forall j: nat | j < 4 && Says(t, SEVERITIES[j]) ensures SeverityRank(s) < SeverityRank(t) <==> i < j {
      SeverityWords(j);
      SaidWord(t, SEVERITIES[j]);
    }
  }


  predicate AllPlain(rs: seq<Report>) { forall i :: 0 <= i < |rs| ==> Plain(rs[i].finding.severity) }

  ghost predicate Severe(rs: seq<Report>) { exists i :: 0 <= i < |rs| && Rank(rs[i]) >= 3 }

  /** With plain severities no report is masked: changes are requested exactly when some finding is high or critical. */
  lemma {:induction false} PlainVerdict(rs: seq<Report>, key: Keys, merged: seq<Merged>)
    requires AllPlain(rs) && Enumerates(merged, MergeAll(rs, key), key)
    ensures VerdictOf(merged) == if Severe(rs) then REQUESTED_CHANGES else PASS
  {
    RequestedIff(rs, key, merged);
    forall i | 0 <= i < |rs| ensures Blocks(rs[i].finding.severity) <==> Rank(rs[i]) >= 3 {
      BlocksIff(rs[i].finding.severity);
    }
    if i :| 0 <= i < |rs| && Rank(rs[i]) >= 3 {
      assert Unmasked(rs, key, i);
    }
  }

  /** With plain severities the verdict does not depend on the order of the reports, nor on that of the map. */
  lemma {:induction false} OrderFree(
    rs: seq<Report>, other: seq<Report>, key: Keys, merged: seq<Merged>, otherMerged: seq<Merged>)
    requires AllPlain(rs) && multiset(rs) == multiset(other)
    requires Enumerates(merged, MergeAll(rs, key), key) && Enumerates(otherMerged, MergeAll(other, key), key)
    ensures VerdictOf(merged) == VerdictOf(otherMerged)
  {
    forall r | r in multiset(rs) ensures r in rs && r in other {
    }
    forall i | 0 <= i < |other| ensures Plain(other[i].finding.severity) {
      assert other[i] in multiset(other);
      assert other[i] in rs;
    }
    if i :| 0 <= i < |rs| && Rank(rs[i]) >= 3 {
      assert rs[i] in multiset(rs);
      assert rs[i] in other;
    }
    if i :| 0 <= i < |other| && Rank(other[i]) >= 3 {
      assert other[i] in multiset(other);
      assert other[i] in rs;
    }
    PlainVerdict(rs, key, merged);
    PlainVerdict(other, key, otherMerged);
  }

  // ----- Severities that are not plain

  function Padded(word: string): string { " " + word + " " }

  lemma {:induction false} PaddedTrimmed(word: string)
    requires word != "" && !IsSpace(word[0]) && !IsSpace(word[|word| - 1])
    ensures TrimSpace(Padded(word)) == word != Padded(word)
  {
    var left := word + " ";
    assert Padded(word)[1..] == left;
    assert left[0] == word[0] && TrimLeft(left) == left;
    assert left[..|left| - 1] == word;
    assert TrimRight(word) == word;
  }

  /** A padded word keeps its rank and loses its say. */
  lemma {:induction false} PaddedRank(word: string)
    requires word != "" && forall i :: 0 <= i < |word| ==> 'a' <= word[i] <= 'z'
    ensures SeverityRank(Padded(word)) == SeverityRank(word) == RankOf(word) && !Blocks(Padded(word))
    ensures Blocks(word) <==> RankOf(word) >= 3
  {
    PaddedTrimmed(word);
    FoldedWord(word, word);
    BlocksIff(Padded(word));
    BlocksIff(word);
  }

  /** A padded severity outranks a blocking one of its group and then does not block: the verdict is a pass. */
  lemma {:induction false} PaddedHides(rs: seq<Report>, key: Keys, merged: seq<Merged>, word: string)
    requires |rs| == 2 && KeyOf(rs[0], key) == KeyOf(rs[1], key)
    requires rs[0].finding.severity == "high" && rs[1].finding.severity == Padded(word) && word == "critical"
    requires Enumerates(merged, MergeAll(rs, key), key)
    ensures Blocks(rs[0].finding.severity) && VerdictOf(merged) == PASS
  {
    WordsLower(word);
    WordsLower(rs[0].finding.severity);
    PaddedRank(word);
    PaddedRank(rs[0].finding.severity);
    OutrankedPasses(rs, key, merged);
  }

  lemma {:induction false} OutrankedPasses(rs: seq<Report>, key: Keys, merged: seq<Merged>)
    requires |rs| == 2 && KeyOf(rs[0], key) == KeyOf(rs[1], key) && Enumerates(merged, MergeAll(rs, key), key)
    requires !Blocks(rs[1].finding.severity) && Rank(rs[0]) < Rank(rs[1])
    ensures VerdictOf(merged) == PASS
  {
    RequestedIff(rs, key, merged);
    assert InGroup(rs, key, KeyOf(rs[0], key), 1);
  }

  /** Between a blocking severity and its padded copy the order alone decides. */
  lemma {:induction false} PaddedOrderMatters(
    rs: seq<Report>, other: seq<Report>, key: Keys, merged: seq<Merged>, otherMerged: seq<Merged>, word: string)
    requires |rs| == 2 && other == [rs[1], rs[0]] && KeyOf(rs[0], key) == KeyOf(rs[1], key)
    requires rs[0].finding.severity == word && rs[1].finding.severity == Padded(word)
      && (word == "high" || word == "critical")
    requires Enumerates(merged, MergeAll(rs, key), key) && Enumerates(otherMerged, MergeAll(other, key), key)
    ensures VerdictOf(merged) == REQUESTED_CHANGES && VerdictOf(otherMerged) == PASS
  {
    WordsLower(word);
    PaddedRank(word);
    assert RankOf(word) >= 3;
    FirstOfTieSpeaks(rs, key, merged);
    FirstOfTieSpeaks(other, key, otherMerged);
  }

  lemma {:induction false} FirstOfTieSpeaks(rs: seq<Report>, key: Keys, merged: seq<Merged>)
    requires |rs| == 2 && KeyOf(rs[0], key) == KeyOf(rs[1], key) && Enumerates(merged, MergeAll(rs, key), key)
    requires Rank(rs[0]) == Rank(rs[1])
    ensures AnyBlocks(merged) <==> Blocks(rs[0].finding.severity)
  {
    RequestedIff(rs, key, merged);
    assert InGroup(rs, key, KeyOf(rs[1], key), 0);
    if Blocks(rs[0].finding.severity) {
      assert Unmasked(rs, key, 0);
    }
  }

  /** The word with every i written as the dotted capital, which lowers to i but does not fold to it. */
  function Dotted(word: string): string { ReplaceChar(word, 'i', '\U{130}') }

  lemma {:induction false} DottedLowers(word: string)
    requires forall i :: 0 <= i < |word| ==> 'a' <= word[i] <= 'z'
    ensures |Dotted(word)| == |word| && ToLower(Dotted(word)) == word
    ensures 'i' in word ==> '\U{130}' in Dotted(word)
    ensures forall i :: 0 <= i < |word| ==> !IsSpace(Dotted(word)[i])
  {
    if word != "" {
      DottedLowers(word[1..]);
      assert Dotted(word)[1..] == Dotted(word[1..]);
      assert word == [word[0]] + word[1..];
    }
  }

  /** Unlike a padded word, a dotted one survives trimming; it keeps its rank and loses its say all the same. */
  lemma {:induction false} DottedRank(word: string)
    requires 'i' in word && forall i :: 0 <= i < |word| ==> 'a' <= word[i] <= 'z'
    ensures TrimSpace(Dotted(word)) == Dotted(word)
    ensures SeverityRank(Dotted(word)) == SeverityRank(word) == RankOf(word) && !Blocks(Dotted(word))
  {
    DottedLowers(word);
    assert TrimLeft(Dotted(word)) == Dotted(word);
    FoldedWord(word, word);
    BlocksIff(Dotted(word));
  }

  predicate LowerWord(word: string) { word != "" && forall i :: 0 <= i < |word| ==> 'a' <= word[i] <= 'z' }

  /**
    A trimmed severity that is spelled with dotted capitals hides a blocking one
    of its group: `low` is "high" and `word` is "critical".
   */
  lemma {:induction false} DottedHides(rs: seq<Report>, key: Keys, merged: seq<Merged>, low: string, word: string)
    requires |rs| == 2 && KeyOf(rs[0], key) == KeyOf(rs[1], key) && Enumerates(merged, MergeAll(rs, key), key)
    requires LowerWord(low) && LowerWord(word) && 'i' in word && 3 <= RankOf(low) < RankOf(word)
    requires rs[0].finding.severity == low && rs[1].finding.severity == Dotted(word)
    ensures Blocks(rs[0].finding.severity) && TrimSpace(rs[1].finding.severity) == rs[1].finding.severity
    ensures VerdictOf(merged) == PASS
  {
    DottedRank(word);
    PaddedRank(low);
    OutrankedPasses(rs, key, merged);
  }

  lemma {:induction false} DottedOrderMatters(
    rs: seq<Report>, other: seq<Report>, key: Keys, merged: seq<Merged>, otherMerged: seq<Merged>, word: string)
    requires |rs| == 2 && other == [rs[1], rs[0]] && KeyOf(rs[0], key) == KeyOf(rs[1], key)
    requires rs[0].finding.severity == word && rs[1].finding.severity == Dotted(word)
    requires word == "high" || word == "critical"
    requires Enumerates(merged, MergeAll(rs, key), key) && Enumerates(otherMerged, MergeAll(other, key), key)
    ensures TrimSpace(rs[1].finding.severity) == rs[1].finding.severity
    ensures VerdictOf(merged) == REQUESTED_CHANGES && VerdictOf(otherMerged) == PASS
  {
    WordsLower(word);
    assert word[1] == 'i' || word[2] == 'i';
    DottedRank(word);
    PaddedRank(word);
    assert RankOf(word) >= 3;
    FirstOfTieSpeaks(rs, key, merged);
    FirstOfTieSpeaks(other, key, otherMerged);
  }

  // ----- When two identities share a key

  function Bars(s: string): nat { if s == "" then 0 else (if s[0] == '|' then 1 else 0) + Bars(s[1..]) }

  function AllBars(parts: seq<string>): nat { if parts == [] then 0 else Bars(parts[0]) + AllBars(parts[1..]) }

  lemma {:induction false} BarsOfSum(s: string, t: string)
    ensures Bars(s + t) == Bars(s) + Bars(t)
  {
    if s == "" {
      assert s + t == t;
    } else {
      assert (s + t)[1..] == s[1..] + t;
      BarsOfSum(s[1..], t);
    }
  }

  lemma {:induction false} BarsIff(s: string)
    ensures Bars(s) == 0 <==> '|' !in s
  {
    if s != "" {
      BarsIff(s[1..]);
      assert s == [s[0]] + s[1..];
    }
  }

  lemma {:induction false} BarsOfJoin(parts: seq<string>)
    requires parts != []
    ensures Bars(Join(parts, "|")) == |parts| - 1 + AllBars(parts)
  {
    if |parts| > 1 {
      BarsOfSum(parts[0] + "|", Join(parts[1..], "|"));
      BarsOfSum(parts[0], "|");
      assert Bars("|") == 1 + Bars("|"[1..]);
      BarsOfJoin(parts[1..]);
    } else {
      assert AllBars(parts[1..]) == 0;
    }
  }

  lemma {:induction false} FirstBar(a: string, b: string, rest: string, more: string)
    requires '|' !in a && '|' !in b && a + "|" + rest == b + "|" + more
    ensures a == b && rest == more
  {
    var s := a + "|" + rest;
    assert s[|a|] == '|' && s[|b|] == '|';
    assert a == s[..|a|] == b;
    assert rest == s[|a| + 1..] == more;
  }

  lemma {:induction false} JoinInjective(a: seq<string>, b: seq<string>)
    requires |a| == |b| > 0 && AllBars(a) == 0 && Join(a, "|") == Join(b, "|")
    ensures a == b
  {
    BarsOfJoin(a);
    BarsOfJoin(b);
    if |a| > 1 {
      BarsIff(a[0]);
      BarsIff(b[0]);
      FirstBar(a[0], b[0], Join(a[1..], "|"), Join(b[1..], "|"));
      JoinInjective(a[1..], b[1..]);
      assert a == [a[0]] + a[1..] && b == [b[0]] + b[1..];
    }
  }

  lemma {:induction false} SignOf(n: int)
    ensures n < 0 <==> "-" <= IntToString(n)
    ensures n == 0 <==> IntToString(n) == ""
    ensures '|' !in IntToString(n)
  {
    var digits := Show(if n < 0 then -n else n);
    assert digits != "" && IsDigit(digits[0]);
    assert n < 0 ==> IntToString(n)[1..] == digits;
  }

  lemma {:induction false} NumbersInjective(m: int, n: int)
    requires IntToString(m) == IntToString(n)
    ensures m == n
  {
    SignOf(m);
    SignOf(n);
    if m < 0 {
      assert Show(-m) == IntToString(m)[1..] == IntToString(n)[1..] == Show(-n);
    }
  }

  /** Some part of the identity contains the separator. */
  predicate HasBar(x: Identity) {
    '|' in x.category || '|' in x.claim || '|' in x.evidence || '|' in x.location.path
  }

  lemma {:induction false} AllBarsOfSeven(p: seq<string>)
    requires |p| == 7
    ensures AllBars(p) == Bars(p[0]) + Bars(p[1]) + Bars(p[2]) + Bars(p[3]) + Bars(p[4]) + Bars(p[5]) + Bars(p[6])
  {
    AllBarsFrom(p, 0);
    AllBarsFrom(p, 1);
    AllBarsFrom(p, 2);
    AllBarsFrom(p, 3);
    AllBarsFrom(p, 4);
    AllBarsFrom(p, 5);
    AllBarsFrom(p, 6);
    assert p[0..] == p && p[7..] == [];
  }

  lemma {:induction false} AllBarsFrom(p: seq<string>, i: nat)
    requires i < |p|
    ensures AllBars(p[i..]) == Bars(p[i]) + AllBars(p[i + 1..])
  {
    assert p[i..][1..] == p[i + 1..];
  }

  /** The fields that enter the key; standards, snippet and platform metadata do not. */
  predicate SameKeyed(x: Identity, y: Identity) {
    && x.category == y.category && x.claim == y.claim && x.evidence == y.evidence
    && x.location.path == y.location.path && x.location.side == y.location.side
    && x.location.startLine == y.location.startLine && x.location.endLine == y.location.endLine
  }

  lemma {:induction false} KeyInjective(x: Identity, y: Identity)
    requires !HasBar(x) && IdentityKey(x) == IdentityKey(y)
    ensures SameKeyed(x, y)
  {
    var p, q := KeyParts(x), KeyParts(y);
    AllBarsOfSeven(p);
    BarsIff(p[0]);
    BarsIff(p[1]);
    BarsIff(p[2]);
    BarsIff(p[3]);
    assert Bars("old") == 0 && Bars("new") == 0 by {
      BarsIff("old");
      BarsIff("new");
    }
    SignOf(x.location.startLine);
    SignOf(x.location.endLine);
    BarsIff(p[5]);
    BarsIff(p[6]);
    JoinInjective(p, q);
    assert forall i :: 0 <= i < 7 ==> p[i] == q[i];
    NumbersInjective(x.location.startLine, y.location.startLine);
    NumbersInjective(x.location.endLine, y.location.endLine);
  }

  lemma {:induction false} JoinOfSeven(p: seq<string>)
    requires |p| == 7
    ensures Join(p, "|") == p[0] + "|" + p[1] + "|" + p[2] + "|" + p[3] + "|" + Join(p[4..], "|")
  {
    JoinFrom(p, 0);
    JoinFrom(p, 1);
    JoinFrom(p, 2);
    JoinFrom(p, 3);
    assert p[0..] == p;
  }

  lemma {:induction false} JoinFrom(p: seq<string>, i: nat)
    requires i + 1 < |p|
    ensures Join(p[i..], "|") == p[i] + "|" + Join(p[i + 1..], "|")
  {
    assert p[i..][1..] == p[i + 1..];
  }

  lemma {:induction false} SplitAtBar(s: string) returns (a: string, b: string)
    requires '|' in s
    ensures s == a + "|" + b && |a| < |s| && |b| < |s|
  {
    var i :| 0 <= i < |s| && s[i] == '|';
    a, b := s[..i], s[i + 1..];
  }

  function Head(category: string, claim: string, evidence: string, path: string): string {
    category + "|" + claim + "|" + evidence + "|" + path
  }

  lemma {:induction false} SameHead(x: Identity, y: Identity)
    requires x.location.(path := y.location.path) == y.location
    requires Head(x.category, x.claim, x.evidence, x.location.path)
      == Head(y.category, y.claim, y.evidence, y.location.path)
    ensures IdentityKey(x) == IdentityKey(y)
  {
    JoinOfSeven(KeyParts(x));
    JoinOfSeven(KeyParts(y));
    assert KeyParts(x)[4..] == KeyParts(y)[4..];
  }

  lemma {:induction false} Regrouped(a: string, b: string, c: string, d: string, e: string)
    ensures Head(a + "|" + b, c, d, e) == Head(a, b + "|" + c, d, e) == Head(a, b, c + "|" + d, e)
      == Head(a, b, c, d + "|" + e)
  {
  }

  /** A separator inside a part can be read as the end of that part: another identity has the same key. */
  lemma {:induction false} BarCollides(x: Identity) returns (y: Identity)
    requires HasBar(x)
    ensures !SameKeyed(x, y) && IdentityKey(y) == IdentityKey(x)
  {
    var a, b;
    if '|' in x.category {
      a, b := SplitAtBar(x.category);
      y := x.(category := a, claim := b + "|" + x.claim);
      Regrouped(a, b, x.claim, x.evidence, x.location.path);
    } else if '|' in x.claim {
      a, b := SplitAtBar(x.claim);
      y := x.(claim := a, evidence := b + "|" + x.evidence);
      Regrouped(x.category, a, b, x.evidence, x.location.path);
    } else if '|' in x.evidence {
      a, b := SplitAtBar(x.evidence);
      y := x.(evidence := a, location := x.location.(path := b + "|" + x.location.path));
      Regrouped(x.category, x.claim, a, b, x.location.path);
    } else {
      a, b := SplitAtBar(x.location.path);
      y := x.(evidence := x.evidence + "|" + a, location := x.location.(path := b));
      Regrouped(x.category, x.claim, x.evidence, a, b);
    }
    SameHead(x, y);
  }

  /**
    Only identities with the same keyed fields share this key exactly when none of
    its parts contains the separator.
   */
  lemma {:induction false} KeyUniqueIff(x: Identity)
    ensures (forall y :: IdentityKey(y) == IdentityKey(x) ==> SameKeyed(x, y)) <==> !HasBar(x)
  {
    if HasBar(x) {
      var y := BarCollides(x);
    } else {
      forall y | IdentityKey(y) == IdentityKey(x) ensures SameKeyed(x, y) {
        KeyInjective(x, y);
      }
    }
  }

  /** The fields outside the key never separate two findings: they change neither the key nor the group. */
  lemma {:induction false} UnkeyedFieldsMerge(rs: seq<Report>, i: nat, j: nat)
    requires i < |rs| && j < |rs| && SameKeyed(rs[i].finding.identity, rs[j].finding.identity)
    ensures IdentityKey(rs[i].finding.identity) == IdentityKey(rs[j].finding.identity)
    ensures KeyOf(rs[i], IdentityKey) in MergeAll(rs, IdentityKey)
    ensures InGroup(rs, IdentityKey, KeyOf(rs[i], IdentityKey), j)
  {
    var x, y := rs[i].finding.identity, rs[j].finding.identity;
    assert KeyParts(x) == KeyParts(y);
    FiledWhenReported(rs, IdentityKey, i);
  }
}
