/** Which findings the thresholds keep, in terms of the words a severity and an anchor kind can say. */
module FindingThresholds {
  import opened Text
  import opened TextProofs
  import opened Findings

  /** The words for a severity, the least severe first. */
  const LEVELS: seq<seq<string>> := [["info", "nit"], ["low"], ["medium"], ["high"], ["critical"]]

  predicate AtLevel(severity: string, i: nat) { i < |LEVELS| && ToLower(TrimSpace(severity)) in LEVELS[i] }

  predicate Unknown(severity: string) { forall i: nat :: i < |LEVELS| ==> !AtLevel(severity, i) }

  /**
    Not below the threshold; a threshold that names no level lets everything pass, a
    severity that names none passes no other.
   */
  ghost predicate SevereEnough(severity: string, threshold: string) {
    Unknown(threshold) || exists i: nat, j: nat :: AtLevel(severity, i) && AtLevel(threshold, j) && j <= i
  }

  /** Anchored on a line of the old file only. */
  predicate OnOldLine(f: Finding) {
    ToLower(TrimSpace(f.kind)) in ["old", "old_line", "deleted"] && f.oldLine.Some? && f.newLine.None?
  }

  ghost predicate Passes(f: Finding, t: Thresholds) {
    !OnOldLine(f) && f.confidence >= t.confidence && SevereEnough(f.severity, t.severity)
  }

  lemma {:induction false} LevelWords(word: string)
    ensures word in LEVELS[0] <==> word == "info" || word == "nit"
    ensures word in LEVELS[1] <==> word == "low"
    ensures word in LEVELS[2] <==> word == "medium"
    ensures word in LEVELS[3] <==> word == "high"
    ensures word in LEVELS[4] <==> word == "critical"
  {
  }

  /** A severity is at no more than one level, and its rank is the number of that level. */
  lemma {:induction false} RankIsLevel(severity: string, i: nat)
    requires AtLevel(severity, i)
    ensures SeverityRank(severity) == i
  {
    LevelWords(ToLower(TrimSpace(severity)));
    assert i == 0 || i == 1 || i == 2 || i == 3 || i == 4;
  }

  lemma {:induction false} UnknownRank(severity: string)
    requires Unknown(severity)
    ensures SeverityRank(severity) < 0 && SeverityRank(severity) == MIN_INT
  {
    LevelWords(ToLower(TrimSpace(severity)));
    assert !AtLevel(severity, 0) && !AtLevel(severity, 1) && !AtLevel(severity, 2);
    assert !AtLevel(severity, 3) && !AtLevel(severity, 4);
  }

  lemma {:induction false} RankOrder(severity: string, threshold: string)
    ensures SeverityRank(severity) >= SeverityRank(threshold) <==> SevereEnough(severity, threshold)
  {
    if Unknown(threshold) {
      UnknownRank(threshold);
      if !Unknown(severity) {
        var i: nat :| i < |LEVELS| && AtLevel(severity, i);
        RankIsLevel(severity, i);
      } else {
        UnknownRank(severity);
      }
    } else {
      var j: nat :| j < |LEVELS| && AtLevel(threshold, j);
      RankIsLevel(threshold, j);
      if Unknown(severity) {
        UnknownRank(severity);
      } else {
        var i: nat :| i < |LEVELS| && AtLevel(severity, i);
        RankIsLevel(severity, i);
        forall k: nat, m: nat | AtLevel(severity, k) && AtLevel(threshold, m) ensures k == i && m == j {
          RankIsLevel(severity, k);
          RankIsLevel(threshold, m);
        }
      }
    }
  }

  lemma {:induction false} OldLineKind(kind: string)
    ensures NormalizeKind(kind) == "old_line" <==> ToLower(TrimSpace(kind)) in ["old", "old_line", "deleted"]
  {
  }

  /** A finding is kept as new exactly when it is not on an old line only, is confident enough and severe enough. */
  lemma {:induction false} EvaluateIff(f: Finding, t: Thresholds)
    ensures Evaluate(f, t) == AsDeleted <==> OnOldLine(f)
    ensures Evaluate(f, t) == AsNew <==> Passes(f, t)
  {
    OldLineKind(f.kind);
    RankOrder(f.severity, t.severity);
  }

  /** A severity that says a level's word, in any case and with any padding, is at that level. */
  lemma {:induction false} SaidLevel(severity: string, word: string, i: nat)
    requires i < |LEVELS| && word in LEVELS[i] && Says(severity, word)
    ensures AtLevel(severity, i)
  {
    LevelWords(word);
    SaidWord(severity, word);
  }

  /** Between severities in words, the order of the words decides. */
  lemma {:induction false} WordsDecide(severity: string, word: string, i: nat, threshold: string, least: string, j: nat)
    requires i < |LEVELS| && word in LEVELS[i] && Says(severity, word)
    requires j < |LEVELS| && least in LEVELS[j] && Says(threshold, least)
    ensures SevereEnough(severity, threshold) <==> j <= i
  {
    SaidLevel(severity, word, i);
    SaidLevel(threshold, least, j);
    RankIsLevel(severity, i);
    RankIsLevel(threshold, j);
    RankOrder(severity, threshold);
  }
}
