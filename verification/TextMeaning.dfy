/** When two texts count as the same, and what the tokens of a text are. */
module TextMeaning {
  import opened Prelude
  import opened MatchingText

  function Folded(s: string): (r: string)
    ensures |r| == |s| && forall i | 0 <= i < |s| :: r[i] == Fold(s[i])
  {
    seq(|s|, i requires 0 <= i < |s| => Fold(s[i]))
  }

  predicate NoSpace(s: string) { forall i | 0 <= i < |s| :: !IsSpace(s[i]) }

  /******* Characters *******/

  const LOWER := "abcdefghijklmnopqrstuvwxyz"
  const UPPER := "ABCDEFGHIJKLMNOPQRSTUVWXYZ"

  /** Each capital is folded to the small letter of its place in the alphabet. */
  lemma CapitalsFold(i: nat)
    requires i < 26
    ensures Fold(UPPER[i]) == LOWER[i] && Fold(LOWER[i]) == LOWER[i]
  {
  }

  /** The tokens' characters are the small letters and the digits. */
  lemma TokenCharsAre(c: char)
    ensures IsTokenChar(c) <==> (exists i | 0 <= i < 26 :: LOWER[i] == c) || (exists i | 0 <= i < 10 :: "0123456789"[i] == c)
  {
    assert forall i | 0 <= i < 26 :: LOWER[i] as int == 'a' as int + i;
    assert forall i | 0 <= i < 10 :: "0123456789"[i] as int == '0' as int + i;
    if 'a' <= c <= 'z' { assert LOWER[c as int - 'a' as int] == c; }
    if '0' <= c <= '9' { assert "0123456789"[c as int - '0' as int] == c; }
  }

  /** Blanks, tabs, line breaks, the ASCII separators and the no-break space part words; no token's character does. */
  lemma SpacesPartWords(c: char)
    ensures c in " \t\n\r" ==> IsSpace(c)
    ensures 28 <= c as int <= 31 || c as int == 160 || c as int == 12288 ==> IsSpace(c)
    ensures IsSpace(c) ==> !IsTokenChar(Fold(c))
  {
  }

  /******* Words *******/

  /** A word, read behind what has been read of it. */
  lemma {:induction false} WordsOfWord(s: string, word: string)
    requires NoSpace(s)
    ensures Words(s, word) == if word + Folded(s) == "" then [] else [word + Folded(s)]
  {
    if s == "" {
      assert word + Folded(s) == word;
    } else {
      assert word + [Fold(s[0])] + Folded(s[1..]) == word + Folded(s);
      WordsOfWord(s[1..], word + [Fold(s[0])]);
    }
  }

  /** Words on either side of a white space character are read apart. */
  lemma {:induction false} WordsOfSum(a: string, c: char, b: string, word: string)
    requires IsSpace(c)
    ensures Words(a + [c] + b, word) == Words(a, word) + Words(b, "")
  {
    var s := a + [c] + b;
    if a == "" {
      assert s[1..] == b;
    } else {
      assert s[1..] == a[1..] + [c] + b;
      WordsOfSum(a[1..], c, b, if IsSpace(a[0]) then "" else word + [Fold(a[0])]);
    }
  }

  predicate IsWord(w: string) { w != "" && NoSpace(w) && Folded(w) == w }

  predicate AreWords(words: seq<string>) { forall i | 0 <= i < |words| :: IsWord(words[i]) }

  lemma FoldedChar(c: char)
    ensures Fold(Fold(c)) == Fold(c) && (IsSpace(Fold(c)) <==> IsSpace(c))
  {
  }

  lemma {:induction false} WordsAreWords(s: string, word: string)
    requires NoSpace(word) && Folded(word) == word
    ensures AreWords(Words(s, word))
  {
    if s != "" {
      FoldedChar(s[0]);
      hide Fold;
      WordsAreWords(s[1..], if IsSpace(s[0]) then "" else word + [Fold(s[0])]);
    }
  }

  lemma {:induction false} WordsOfJoined(words: seq<string>)
    requires AreWords(words)
    ensures Words(Join(words), "") == words
  {
    if words != [] {
      WordsOfWord(words[0], "");
      assert "" + Folded(words[0]) == words[0];
      if |words| == 1 {
        assert Words(words[0], "") == words;
      } else {
        WordsOfSum(words[0], ' ', Join(words[1..]), "");
        WordsOfJoined(words[1..]);
        assert words[0] + [' '] + Join(words[1..]) == Join(words);
        assert [words[0]] + words[1..] == words;
      }
    }
  }

  /** Two texts count as the same exactly when they have the same words, case aside. */
  lemma SameTextExactlyForSameWords(s: string, t: string)
    ensures NormalizedText(s) == NormalizedText(t) <==> Words(s, "") == Words(t, "")
  {
    WordsAreWords(s, "");
    WordsAreWords(t, "");
    WordsOfJoined(Words(s, ""));
    WordsOfJoined(Words(t, ""));
  }

  /** A normalized text stays as it is. */
  lemma NormalizedAgain(s: string)
    ensures NormalizedText(NormalizedText(s)) == NormalizedText(s)
  {
    WordsAreWords(s, "");
    WordsOfJoined(Words(s, ""));
  }

  /** More white space, or white space around a text, makes no other text of it. */
  lemma SpacesDoNotMatter(a: string, c: char, b: string, d: char)
    requires IsSpace(c) && IsSpace(d)
    ensures NormalizedText(a + [c] + b) == NormalizedText(a + [c] + ([d] + b))
    ensures NormalizedText(a + [c]) == NormalizedText(a) && NormalizedText([c] + a) == NormalizedText(a)
  {
    NoWords();
    WordsOfSum(a, c, b, "");
    WordsOfSum(a, c, [d] + b, "");
    SpaceInFront(d, b);
    SpaceInFront(c, a);
    WordsOfSum(a, c, "", "");
    hide Words, Join;
    assert a + [c] + "" == a + [c];
    assert Words(a, "") + [] == Words(a, "");
  }

  lemma NoWords()
    ensures Words("", "") == []
  {
  }

  lemma SpaceInFront(c: char, a: string)
    requires IsSpace(c)
    ensures Words([c] + a, "") == Words(a, "")
  {
    assert ([c] + a)[1..] == a;
  }

  /******* Tokens *******/

  /** A run of letters and digits that nothing of the kind stands beside. */
  ghost predicate RunAt(f: string, i: nat, j: nat) {
    && i < j <= |f|
    && (forall k | i <= k < j :: IsTokenChar(f[k]))
    && (i > 0 ==> !IsTokenChar(f[i - 1]))
    && (j < |f| ==> !IsTokenChar(f[j]))
  }

  ghost predicate IsRun(f: string, t: string) { exists i: nat, j: nat :: RunAt(f, i, j) && t == f[i..j] }

  predicate AllToken(w: string) { forall i | 0 <= i < |w| :: IsTokenChar(w[i]) }

  lemma RunOfToken(w: string, t: string)
    requires AllToken(w)
    ensures IsRun(w, t) <==> w != "" && t == w
  {
    if w != "" { assert RunAt(w, 0, |w|) && w[0..|w|] == w; }
    if i: nat, j: nat :| RunAt(w, i, j) && t == w[i..j] {
      assert i == 0 && j == |w|;
    }
  }

  /** A character that is neither letter nor digit parts the runs. */
  lemma RunOfSum(w: string, c: char, rest: string, t: string)
    requires AllToken(w) && !IsTokenChar(c)
    ensures IsRun(w + [c] + rest, t) <==> (w != "" && t == w) || IsRun(rest, t)
  {
    hide IsTokenChar;
    RunsOfParts(w, c, rest, t);
    if i: nat, j: nat :| RunAt(w + [c] + rest, i, j) && t == (w + [c] + rest)[i..j] {
      hide RunAt;
      RunIsOfPart(w, c, rest, i, j);
    }
  }

  lemma RunsOfParts(w: string, c: char, rest: string, t: string)
    requires AllToken(w) && !IsTokenChar(c)
    ensures w != "" && t == w ==> IsRun(w + [c] + rest, t)
    ensures IsRun(rest, t) ==> IsRun(w + [c] + rest, t)
  {
    hide IsTokenChar;
    var f := w + [c] + rest;
    var n := |w| + 1;
    if w != "" {
      assert f[0..|w|] == w;
      assert RunAt(f, 0, |w|);
    }
    if i: nat, j: nat :| RunAt(rest, i, j) && t == rest[i..j] {
      assert forall k | 0 <= k < |rest| :: f[n + k] == rest[k];
      assert f[n + i..n + j] == t;
      assert RunAt(f, n + i, n + j);
    }
  }

  lemma RunIsOfPart(w: string, c: char, rest: string, i: nat, j: nat)
    requires AllToken(w) && !IsTokenChar(c) && RunAt(w + [c] + rest, i, j)
    ensures var t := (w + [c] + rest)[i..j]; (w != "" && t == w) || IsRun(rest, t)
  {
    hide IsTokenChar;
    var f := w + [c] + rest;
    var n := |w| + 1;
    assert f[|w|] == c;
    if i <= |w| {
      assert j <= |w|;
      assert forall k | 0 <= k < |w| :: f[k] == w[k];
      assert i == 0 && j == |w|;
      assert f[i..j] == w;
    } else {
      assert forall k | 0 <= k < |rest| :: f[n + k] == rest[k];
      assert RunAt(rest, i - n, j - n);
      assert rest[i - n..j - n] == f[i..j];
    }
  }

  lemma {:induction false} TokensFromAreRuns(s: string, token: string, t: string)
    requires AllToken(token)
    ensures t in TokensFrom(s, token) <==> IsRun(token + Folded(s), t)
  {
    hide IsRun;
    if s == "" {
      assert token + Folded(s) == token;
      RunOfToken(token, t);
    } else {
      var c := Fold(s[0]);
      assert token + Folded(s) == token + [c] + Folded(s[1..]);
      if IsTokenChar(c) {
        TokensFromAreRuns(s[1..], token + [c], t);
      } else {
        RunOfSum(token, c, Folded(s[1..]), t);
        TokensFromAreRuns(s[1..], "", t);
        assert "" + Folded(s[1..]) == Folded(s[1..]);
      }
    }
  }

  /** The tokens of a text are exactly its maximal runs of letters and digits, case aside. */
  lemma TokensAreMaximalRuns(s: string, t: string)
    ensures t in Tokens(s) <==> IsRun(Folded(s), t)
  {
    TokensFromAreRuns(s, "", t);
    assert "" + Folded(s) == Folded(s);
  }

  /** Similarity is symmetric, nothing exactly for texts without a common token, and whole exactly for the same tokens. */
  lemma SimilarityMeans(a: set<string>, b: set<string>)
    requires a + b != {}
    ensures Jaccard(a, b) == Jaccard(b, a)
    ensures Jaccard(a, b) == 0.0 <==> a !! b
    ensures Jaccard(a, b) == 1.0 <==> a == b
  {
    assert a * b == b * a && a + b == b + a;
    assert |a + b| > 0;
    var part, whole := |a * b|, |a + b|;
    assert a !! b <==> a * b == {};
    assert part as real == Jaccard(a, b) * whole as real;
    if Jaccard(a, b) == 1.0 {
      assert part == whole;
      assert a + b == a * b by { SameSize(a * b, a + b); }
    }
    if a == b { assert a * b == a + b; }
  }

  lemma SameSize<T>(a: set<T>, b: set<T>)
    requires a <= b && |a| == |b|
    ensures a == b
  {
    assert b == a + (b - a);
    assert |b| == |a| + |b - a|;
  }
}
