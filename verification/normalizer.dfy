/**
 * The name normalizer: the legal-entity suffix pattern
 * `(\s|,|\.)+(Inc|LLC|Ltd|Limited|Corp|Corporation|GmbH|Co|Pty)\.?$` with the
 * `i` flag, written as a tokenizer (a separator run, one suffix word, an
 * optional period, the end of the string), the leftmost-match search that
 * `String.prototype.replace` performs, and the trim that follows it.
 */
module Normalizer {
  import opened Strings

  /** The suffix words, in the order the pattern lists them. */
  const LegalSuffixes: seq<string> :=
    ["Inc", "LLC", "Ltd", "Limited", "Corp", "Corporation", "GmbH", "Co", "Pty"]

  /** One character of the run `(\s|,|\.)+`. */
  predicate IsSeparator(c: char)
  {
    IsWhiteSpace(c) || c == ',' || c == '.'
  }

  /** Index `i` of `s` holds a separator. */
  predicate SeparatorAt(s: string, i: int)
  {
    0 <= i < |s| && IsSeparator(s[i])
  }

  predicate AllSeparators(t: string)
  {
    forall j :: 0 <= j < |t| ==> IsSeparator(t[j])
  }

  predicate IsAsciiLetter(c: char)
  {
    'A' <= c <= 'Z' || 'a' <= c <= 'z'
  }

  /** The suffix words in lower case. */
  const LowerSuffixes: seq<string> :=
    ["inc", "llc", "ltd", "limited", "corp", "corporation", "gmbh", "co", "pty"]

  /** Without the `u` flag, a case-insensitive match of an ASCII letter accepts
      exactly its two ASCII cases, which is what comparing lower-case forms does. */
  predicate IsSuffixWord(t: string)
  {
    ToLowerCase(t) in LowerSuffixes
  }

  /** `(Inc|...|Pty)\.?$`: a suffix word, optionally one period, then the end. */
  predicate IsSuffixTail(t: string)
  {
    || IsSuffixWord(t)
    || (t != [] && t[|t| - 1] == '.' && IsSuffixWord(t[..|t| - 1]))
  }

  /** The pattern matches from index `i` to the end of `s`, its separator run
      ending at `k`. */
  predicate MatchWith(s: string, i: nat, k: nat)
  {
    i < k <= |s| && AllSeparators(s[i..k]) && IsSuffixTail(s[k..])
  }

  /** The whole pattern matches starting at index `i` (and, being anchored,
      runs to the end of `s`). */
  ghost predicate MatchesAt(s: string, i: nat)
  {
    exists k: nat :: MatchWith(s, i, k)
  }

  /** The lower-case list is the listed words, lower-cased. */
  lemma LowerSuffixesAreLowered(i: nat)
    requires i < |LegalSuffixes|
    ensures |LowerSuffixes| == |LegalSuffixes| && LowerSuffixes[i] == ToLowerCase(LegalSuffixes[i])
  {
  }

  /** A suffix word is one of the listed words, up to the case of its letters. */
  lemma SuffixWordIsListedIgnoringCase(t: string)
    ensures IsSuffixWord(t) <==> exists w :: w in LegalSuffixes && SameIgnoringCase(t, w)
  {
    if IsSuffixWord(t) {
      var i :| 0 <= i < |LowerSuffixes| && LowerSuffixes[i] == ToLowerCase(t);
      LowerSuffixesAreLowered(i);
      SameIgnoringCaseLowersAlike(t, LegalSuffixes[i]);
    }
    if exists w :: w in LegalSuffixes && SameIgnoringCase(t, w) {
      var w :| w in LegalSuffixes && SameIgnoringCase(t, w);
      var i :| 0 <= i < |LegalSuffixes| && LegalSuffixes[i] == w;
      LowerSuffixesAreLowered(i);
      SameIgnoringCaseLowersAlike(t, w);
    }
  }

  /** Every suffix word has the length of one of the listed words. */
  lemma SuffixWordLengths(t: string)
    requires IsSuffixWord(t)
    ensures |t| == 2 || |t| == 3 || |t| == 4 || |t| == 7 || |t| == 11
  {
    assert |ToLowerCase(t)| == |t|;
  }

  /** The lower-case suffix words are non-empty and spelled with ASCII letters. */
  lemma LowerSuffixIsLetters(w: string)
    requires w in LowerSuffixes
    ensures w != [] && forall i :: 0 <= i < |w| ==> IsAsciiLetter(w[i])
  {
  }

  /** Every suffix word is spelled with ASCII letters only. */
  lemma SuffixWordIsLetters(t: string)
    requires IsSuffixWord(t)
    ensures t != []
    ensures forall i :: 0 <= i < |t| ==> IsAsciiLetter(t[i])
  {
    var lower := ToLowerCase(t);
    LowerSuffixIsLetters(lower);
    forall i | 0 <= i < |t| ensures IsAsciiLetter(t[i]) {
      assert LowerChar(t[i]) == lower[i];
    }
  }

  /** A suffix tail starts with a letter and ends with a letter, or with a
      letter and one period. */
  lemma SuffixTailShape(t: string)
    requires IsSuffixTail(t)
    ensures t != [] && IsAsciiLetter(t[0])
    ensures IsAsciiLetter(t[|t| - 1]) || (|t| >= 2 && t[|t| - 1] == '.' && IsAsciiLetter(t[|t| - 2]))
  {
    if IsSuffixWord(t) {
      SuffixWordIsLetters(t);
    } else {
      var word := t[..|t| - 1];
      SuffixWordIsLetters(word);
      assert t[0] == word[0] && t[|t| - 2] == word[|word| - 1];
    }
  }

  /** Inside a suffix tail every character but the last is a letter. */
  lemma SuffixTailLetters(t: string)
    requires IsSuffixTail(t)
    ensures forall m :: 0 <= m < |t| - 1 ==> IsAsciiLetter(t[m])
  {
    if IsSuffixWord(t) {
      SuffixWordIsLetters(t);
    } else {
      SuffixWordIsLetters(t[..|t| - 1]);
      assert forall m :: 0 <= m < |t| - 1 ==> t[m] == t[..|t| - 1][m];
    }
  }

  /** The end of the separator run that starts at `i`. */
  function SeparatorRunEnd(s: string, i: nat): (k: nat)
    requires i <= |s|
    ensures i <= k <= |s| && AllSeparators(s[i..k])
    ensures k == |s| || !IsSeparator(s[k])
    decreases |s| - i
  {
    if i < |s| && IsSeparator(s[i]) then
      var k := SeparatorRunEnd(s, i + 1);
      assert s[i..k] == [s[i]] + s[i + 1..k];
      k
    else i
  }

  /** The tokenizer's reading of the pattern at `i`: a separator at `i`, and
      after the whole run, a suffix tail that reaches the end. */
  predicate SuffixAt(s: string, i: nat)
    requires i <= |s|
  {
    i < |s| && IsSeparator(s[i]) && IsSuffixTail(s[SeparatorRunEnd(s, i)..])
  }

  /** The run that starts at `i` ends at the first non-separator. */
  lemma {:induction false} SeparatorRunEndIsFirstStop(s: string, i: nat, k: nat)
    requires i <= k <= |s| && AllSeparators(s[i..k])
    requires k == |s| || !IsSeparator(s[k])
    ensures SeparatorRunEnd(s, i) == k
    decreases k - i
  {
    if i < k {
      assert s[i] == s[i..k][0];
      assert s[i + 1..k] == s[i..k][1..];
      SeparatorRunEndIsFirstStop(s, i + 1, k);
    }
  }

  /** A match starts with a separator, and the string it ends ends with a
      letter, or with a letter and one period. */
  lemma MatchShape(s: string, i: nat)
    requires MatchesAt(s, i)
    ensures i < |s| && IsSeparator(s[i])
    ensures IsAsciiLetter(s[|s| - 1]) || (|s| >= 2 && s[|s| - 1] == '.' && IsAsciiLetter(s[|s| - 2]))
  {
    var k: nat :| MatchWith(s, i, k);
    assert s[i] == s[i..k][0];
    var t := s[k..];
    SuffixTailShape(t);
    SuffixTailLetters(t);
    assert t[|t| - 1] == s[|s| - 1];
    if |t| >= 2 {
      assert t[|t| - 2] == s[|s| - 2];
    }
  }

  /** A suffix tail without the period is a bare suffix word. */
  lemma BareSuffixTailLengths(t: string)
    requires IsSuffixTail(t) && t != [] && t[|t| - 1] != '.'
    ensures |t| == 2 || |t| == 3 || |t| == 4 || |t| == 7 || |t| == 11
  {
    SuffixWordLengths(t);
  }

  /** A match in a string that does not end with a period ends with one bare
      suffix word, which is preceded by a separator. */
  lemma SeparatorBeforeLastWord(s: string, j: nat)
    requires MatchesAt(s, j) && s[|s| - 1] != '.'
    ensures || SeparatorAt(s, |s| - 3) || SeparatorAt(s, |s| - 4) || SeparatorAt(s, |s| - 5)
            || SeparatorAt(s, |s| - 8) || SeparatorAt(s, |s| - 12)
  {
    var k: nat :| MatchWith(s, j, k);
    var tail := s[k..];
    assert tail[|tail| - 1] == s[|s| - 1];
    BareSuffixTailLengths(tail);
    assert SeparatorAt(s, k - 1) by {
      assert s[k - 1] == s[j..k][k - 1 - j];
    }
  }

  /** Where the tokenizer accepts, the pattern matches, with the whole
      separator run before the tail. */
  lemma SuffixAtIsMatch(s: string, i: nat)
    requires i <= |s| && SuffixAt(s, i)
    ensures MatchesAt(s, i)
  {
    var k := SeparatorRunEnd(s, i);
    assert MatchWith(s, i, k);
  }

  /** Where the pattern matches, its separator run is the maximal one, so the
      tokenizer accepts. */
  lemma MatchIsSuffixAt(s: string, i: nat)
    requires i <= |s| && MatchesAt(s, i)
    ensures SuffixAt(s, i)
  {
    var k: nat :| MatchWith(s, i, k);
    SuffixTailShape(s[k..]);
    assert s[k] == s[k..][0];
    SeparatorRunEndIsFirstStop(s, i, k);
    assert s[i] == s[i..k][0];
  }

  /** The tokenizer accepts exactly where the pattern matches. */
  lemma SuffixAtMatches(s: string, i: nat)
    requires i <= |s|
    ensures SuffixAt(s, i) <==> MatchesAt(s, i)
  {
    if SuffixAt(s, i) {
      SuffixAtIsMatch(s, i);
    }
    if MatchesAt(s, i) {
      MatchIsSuffixAt(s, i);
    }
  }

  /** A separator followed by a separator run is a separator run. */
  lemma SeparatorRunExtends(s: string, i: nat, k: nat)
    requires i < k <= |s| && IsSeparator(s[i]) && AllSeparators(s[i + 1..k])
    ensures AllSeparators(s[i..k])
  {
    forall j | 0 <= j < k - i ensures IsSeparator(s[i..k][j]) {
      if j > 0 {
        assert s[i..k][j] == s[i + 1..k][j - 1];
      }
    }
  }

  /** A match preceded by a separator extends one place to the left. */
  lemma MatchExtendsLeft(s: string, i: nat)
    requires 0 < i && MatchesAt(s, i) && IsSeparator(s[i - 1])
    ensures MatchesAt(s, i - 1)
  {
    var k: nat :| MatchWith(s, i, k);
    SeparatorRunExtends(s, i - 1, k);
    assert MatchWith(s, i - 1, k);
  }

  /** Nothing matches at the end of the string. */
  lemma NoMatchAtEnd(s: string)
    ensures !MatchesAt(s, |s|)
  {
  }

  /** The regular-expression engine's search: the first index from `from` on
      at which the pattern matches, or `|s|` when there is none. */
  function LeftmostMatchFrom(s: string, from: nat): (i: nat)
    requires from <= |s|
    ensures from <= i <= |s|
    ensures i < |s| ==> MatchesAt(s, i)
    ensures forall j :: from <= j < i ==> !MatchesAt(s, j)
    decreases |s| - from
  {
    SuffixAtMatches(s, from);
    if from == |s| || SuffixAt(s, from) then from else LeftmostMatchFrom(s, from + 1)
  }

  /** `s.replace(pattern, "")`: the leftmost match, which always runs to the
      end of `s`, is cut off; when the pattern matches nowhere `s` is kept. */
  function StripLegalSuffix(s: string): (r: string)
    ensures |r| <= |s| && r == s[..|r|]
    ensures |r| < |s| ==> MatchesAt(s, |r|)
    ensures forall j :: 0 <= j < |r| ==> !MatchesAt(s, j)
    ensures |r| == |s| <==> forall j :: 0 <= j <= |s| ==> !MatchesAt(s, j)
  {
    NoMatchAtEnd(s);
    s[..LeftmostMatchFrom(s, 0)]
  }

  /** `rawName.replace(pattern, "").trim()`. The suffix is cut before the trim,
      so a name with no suffix match is only trimmed. */
  function NormalizeName(s: string): (r: string)
    ensures IsTrimmed(r)
    ensures (forall j :: 0 <= j <= |s| ==> !MatchesAt(s, j)) ==> r == Trim(s)
  {
    var stripped := StripLegalSuffix(s);
    assert (forall j :: 0 <= j <= |s| ==> !MatchesAt(s, j)) ==> stripped == s;
    Trim(stripped)
  }

  /** A name that is already trimmed and carries no suffix comes back unchanged. */
  lemma CleanNameIsFixed(s: string)
    requires IsTrimmed(s)
    requires forall j :: 0 <= j <= |s| ==> !MatchesAt(s, j)
    ensures NormalizeName(s) == s
  {
  }

  /** A name without separator characters never matches the pattern, so a suffix
      glued to the name ("AcmeInc") is kept. */
  lemma NoSeparatorNoMatch(s: string)
    requires forall i :: 0 <= i < |s| ==> !IsSeparator(s[i])
    ensures forall j :: 0 <= j <= |s| ==> !MatchesAt(s, j)
    ensures NormalizeName(s) == Trim(s)
  {
    forall j | 0 <= j <= |s| ensures !MatchesAt(s, j) {
      if MatchesAt(s, j) {
        MatchShape(s, j);
      }
    }
  }

  /** The pattern is anchored at the very end: a name ending in white space
      keeps its suffix, because the replace runs before the trim. */
  lemma TrailingWhiteSpaceKeepsSuffix(s: string)
    requires s != [] && IsWhiteSpace(s[|s| - 1])
    ensures StripLegalSuffix(s) == s
    ensures NormalizeName(s) == Trim(s)
  {
    forall j | 0 <= j <= |s| ensures !MatchesAt(s, j) {
      if MatchesAt(s, j) {
        MatchShape(s, j);
      }
    }
  }

  /** The match being leftmost, the whole separator run in front of the suffix
      goes with it: what is left does not end with a separator. */
  lemma WholeSeparatorRunRemoved(s: string)
    requires |StripLegalSuffix(s)| < |s|
    ensures var r := StripLegalSuffix(s); r == [] || !IsSeparator(r[|r| - 1])
  {
    var r := StripLegalSuffix(s);
    var i := |r|;
    if r != [] && IsSeparator(r[i - 1]) {
      assert s[i - 1] == r[i - 1];
      MatchExtendsLeft(s, i);
    }
  }

  /** A match that starts at `j` covers, with its separator run, every
      position from `j` up to any separator before the last character. */
  lemma MatchRunReaches(s: string, j: nat, q: nat)
    requires MatchesAt(s, j)
    requires j <= q < |s| - 1 && IsSeparator(s[q])
    ensures forall m :: j <= m <= q ==> IsSeparator(s[m])
  {
    var k: nat :| MatchWith(s, j, k);
    SuffixTailLetters(s[k..]);
    forall m | k <= m < |s| - 1 ensures IsAsciiLetter(s[m]) {
      assert s[m] == s[k..][m - k];
    }
    assert q < k;
    forall m | j <= m <= q ensures IsSeparator(s[m]) {
      assert s[m] == s[j..k][m - j];
    }
  }

  /** The pattern matches where the separator run after the base begins. */
  lemma MatchAfterBase(base: string, run: string, word: string, dot: string)
    requires run != [] && AllSeparators(run)
    requires IsSuffixWord(word)
    requires dot == [] || dot == "."
    ensures MatchesAt(base + run + word + dot, |base|)
  {
    var s := base + run + word + dot;
    var i, k := |base|, |base| + |run|;
    var tail := word + dot;
    assert s == base + run + tail;
    assert s[i..k] == run;
    assert s[k..] == tail;
    if dot == [] {
      assert tail == word;
    } else {
      assert tail[..|tail| - 1] == word && tail[|tail| - 1] == '.';
    }
    assert MatchWith(s, i, k);
  }

  /** The pattern matches nowhere inside a base that does not end in a
      separator, because a match there would have to run across the base's
      last character. */
  lemma NoMatchInBase(base: string, run: string, word: string, dot: string)
    requires base == [] || !IsSeparator(base[|base| - 1])
    requires run != [] && AllSeparators(run)
    requires IsSuffixWord(word)
    ensures forall j :: 0 <= j < |base| ==> !MatchesAt(base + run + word + dot, j)
  {
    var s := base + run + word + dot;
    var i := |base|;
    assert s[i] == run[0];
    SuffixWordIsLetters(word);
    if i > 0 {
      assert s[i - 1] == base[i - 1];
    }
    forall j | 0 <= j < i ensures !MatchesAt(s, j) {
      if MatchesAt(s, j) {
        MatchRunReaches(s, j, i);
      }
    }
  }

  /** Exactly what the pattern describes is cut: a name made of a base that
      does not end in a separator, a separator run, one suffix word in any
      letter case and at most one period loses all three and keeps the base. */
  lemma StripsExactlyTrailingSuffix(base: string, run: string, word: string, dot: string)
    requires base == [] || !IsSeparator(base[|base| - 1])
    requires run != [] && AllSeparators(run)
    requires IsSuffixWord(word)
    requires dot == [] || dot == "."
    ensures StripLegalSuffix(base + run + word + dot) == base
    ensures NormalizeName(base + run + word + dot) == Trim(base)
  {
    var s := base + run + word + dot;
    MatchAfterBase(base, run, word, dot);
    NoMatchInBase(base, run, word, dot);
    assert s[..|base|] == base;
    assert |StripLegalSuffix(s)| == |base|;
  }

  /** A suffix followed by one period is cut ("Acme Corp." becomes "Acme"). */
  lemma CutsSuffixWithPeriod(base: string)
    requires base == [] || !IsSeparator(base[|base| - 1])
    ensures NormalizeName(base + " Corp.") == Trim(base)
  {
    assert ToLowerCase("Corp") == LowerSuffixes[4];
    assert base + " Corp." == base + " " + "Corp" + ".";
    StripsExactlyTrailingSuffix(base, " ", "Corp", ".");
  }

  /** A comma belongs to the separator run and is cut with the suffix
      ("Acme, Inc." becomes "Acme"). */
  lemma CutsWholeSeparatorRun(base: string)
    requires base == [] || !IsSeparator(base[|base| - 1])
    ensures NormalizeName(base + ", Inc.") == Trim(base)
  {
    assert ToLowerCase("Inc") == LowerSuffixes[0];
    assert base + ", Inc." == base + ", " + "Inc" + ".";
    StripsExactlyTrailingSuffix(base, ", ", "Inc", ".");
  }

  /** The longer alternative is found as well ("Acme Corporation" becomes "Acme"). */
  lemma CutsLongSuffix(base: string)
    requires base == [] || !IsSeparator(base[|base| - 1])
    ensures NormalizeName(base + " Corporation") == Trim(base)
  {
    assert ToLowerCase("Corporation") == LowerSuffixes[5];
    assert base + " Corporation" == base + " " + "Corporation" + "";
    StripsExactlyTrailingSuffix(base, " ", "Corporation", "");
  }

  /** Letter case does not matter ("Acme LTD" becomes "Acme"). */
  lemma CutsUpperCaseSuffix(base: string)
    requires base == [] || !IsSeparator(base[|base| - 1])
    ensures NormalizeName(base + " LTD") == Trim(base)
  {
    assert ToLowerCase("LTD") == LowerSuffixes[2];
    assert base + " LTD" == base + " " + "LTD" + "";
    StripsExactlyTrailingSuffix(base, " ", "LTD", "");
  }

  /** Only one suffix is cut: of two, the last goes and the first stays
      ("Acme Corp Inc" becomes "Acme Corp", which still ends in a suffix). */
  lemma CutsOnlyLastSuffix(base: string)
    requires base == [] || !IsSeparator(base[|base| - 1])
    ensures NormalizeName(base + " Corp Inc") == Trim(base + " Corp")
  {
    var corp := base + " Corp";
    assert corp[|corp| - 1] == 'p';
    assert ToLowerCase("Inc") == LowerSuffixes[0];
    assert base + " Corp Inc" == corp + " " + "Inc" + "";
    StripsExactlyTrailingSuffix(corp, " ", "Inc", "");
  }

  /** A suffix followed by two periods is not recognised: the pattern allows
      at most one. */
  lemma TwoPeriodsKeepSuffix(s: string)
    requires |s| >= 2 && s[|s| - 1] == '.' && s[|s| - 2] == '.'
    ensures StripLegalSuffix(s) == s
    ensures NormalizeName(s) == Trim(s)
  {
    forall j | 0 <= j <= |s| ensures !MatchesAt(s, j) {
      if MatchesAt(s, j) {
        MatchShape(s, j);
      }
    }
  }
}
