/** What trimming and lowering mean, character by character. */
module TextProofs {
  import opened Text

  predicate AllSpace(s: string) { forall i :: 0 <= i < |s| ==> IsSpace(s[i]) }

  /** Neither end is a space. */
  predicate Tight(s: string) { s != "" ==> !IsSpace(s[0]) && !IsSpace(s[|s| - 1]) }

  lemma {:induction false} TrimLeftOf(a: string, s: string)
    requires AllSpace(a) && (s == "" || !IsSpace(s[0]))
    ensures TrimLeft(a + s) == s
  {
    if a == "" {
      assert a + s == s;
    } else {
      assert (a + s)[1..] == a[1..] + s;
      TrimLeftOf(a[1..], s);
    }
  }

  lemma {:induction false} TrimRightOf(s: string, b: string)
    requires AllSpace(b) && (s == "" || !IsSpace(s[|s| - 1]))
    ensures TrimRight(s + b) == s
  {
    if b == "" {
      assert s + b == s;
    } else {
      assert (s + b)[..|s + b| - 1] == s + b[..|b| - 1];
      TrimRightOf(s, b[..|b| - 1]);
    }
  }

  /** Trimming undoes any padding. */
  lemma {:induction false} TrimPadding(a: string, s: string, b: string)
    requires AllSpace(a) && AllSpace(b) && Tight(s)
    ensures TrimSpace(a + s + b) == s
  {
    if s == "" {
      assert AllSpace(a + b) && a + s + b == (a + b) + "";
      TrimLeftOf(a + b, "");
    } else {
      assert a + s + b == a + (s + b);
      TrimLeftOf(a, s + b);
      TrimRightOf(s, b);
    }
  }

  lemma {:induction false} TrimLeftParts(s: string) returns (a: string)
    ensures s == a + TrimLeft(s) && AllSpace(a) && (TrimLeft(s) != "" ==> !IsSpace(TrimLeft(s)[0]))
  {
    a := "";
    if s != "" && IsSpace(s[0]) {
      var rest := TrimLeftParts(s[1..]);
      a := [s[0]] + rest;
      assert s == [s[0]] + s[1..];
    }
  }

  lemma {:induction false} TrimRightParts(s: string) returns (b: string)
    ensures s == TrimRight(s) + b && AllSpace(b)
    ensures TrimRight(s) != "" ==> !IsSpace(TrimRight(s)[|TrimRight(s)| - 1])
  {
    b := "";
    if s != "" && IsSpace(s[|s| - 1]) {
      var rest := TrimRightParts(s[..|s| - 1]);
      b := rest + [s[|s| - 1]];
      assert s == s[..|s| - 1] + [s[|s| - 1]];
    }
  }

  /** And whatever is trimmed was padding. */
  lemma {:induction false} TrimParts(s: string) returns (a: string, b: string)
    ensures s == a + TrimSpace(s) + b && AllSpace(a) && AllSpace(b) && Tight(TrimSpace(s))
  {
    a := TrimLeftParts(s);
    b := TrimRightParts(TrimLeft(s));
    assert s == a + (TrimSpace(s) + b);
    if TrimSpace(s) != "" {
      assert TrimLeft(s)[0] == TrimSpace(s)[0];
    }
  }

  /** A text is blank to the trimmer exactly when it holds nothing but spaces. */
  lemma {:induction false} BlankIff(s: string)
    ensures TrimSpace(s) == "" <==> AllSpace(s)
  {
    if AllSpace(s) {
      TrimPadding(s, "", "");
      assert s + "" + "" == s;
    } else {
      var a, b := TrimParts(s);
    }
  }

  lemma {:induction false} LowerAt(s: string, i: nat)
    requires i < |s|
    ensures ToLower(s)[i] == LowerChar(s[i])
  {
    if i > 0 {
      LowerAt(s[1..], i - 1);
    }
  }

  /** No capital ASCII letter, and nothing that lowers to another letter. */
  predicate LowerCase(word: string) { forall i :: 0 <= i < |word| ==> LowerChar(word[i]) == word[i] }

  /** A word in any mix of capital and small ASCII letters lowers to the word. */
  lemma {:induction false} FoldedLowers(s: string, word: string)
    requires FoldsTo(s, word) && LowerCase(word)
    ensures ToLower(s) == word
  {
    forall i | 0 <= i < |s| ensures ToLower(s)[i] == word[i] {
      LowerAt(s, i);
    }
  }

  /** The text is the word in any case, with any padding. */
  ghost predicate Says(s: string, word: string) {
    exists a: string, v: string, b: string ::
      s == a + v + b && AllSpace(a) && AllSpace(b) && FoldsTo(v, word)
  }

  lemma {:induction false} SaidWord(s: string, word: string)
    requires Says(s, word) && LowerCase(word) && forall i :: 0 <= i < |word| ==> '!' <= word[i] <= '~'
    ensures ToLower(TrimSpace(s)) == word
  {
    var a: string, v: string, b: string :| s == a + v + b && AllSpace(a) && AllSpace(b) && FoldsTo(v, word);
    TrimPadding(a, v, b);
    FoldedLowers(v, word);
  }

  /** For a word without the two letters that other characters lower to, this is all that lowers to it. */
  lemma {:induction false} SaidIff(s: string, word: string)
    requires LowerCase(word) && 'i' !in word && 'k' !in word && forall i :: 0 <= i < |word| ==> '!' <= word[i] <= '~'
    ensures ToLower(TrimSpace(s)) == word <==> Says(s, word)
  {
    if Says(s, word) {
      SaidWord(s, word);
    } else {
      var a, b := TrimParts(s);
      var v := TrimSpace(s);
      if ToLower(v) == word {
        forall i | 0 <= i < |v| ensures v[i] == word[i] || ('A' <= v[i] <= 'Z' && v[i] + ' ' == word[i]) {
          LowerAt(v, i);
          assert word[i] in word;
        }
        assert false;
      }
    }
  }
}
