/**
 * The JavaScript string operations the stage uses: the white-space class
 * shared by the regular-expression escape `\s` and `String.prototype.trim`,
 * `toLowerCase` (restricted to ASCII letters), `trim` and `includes`.
 */
module Strings {

  /** ECMAScript WhiteSpace and LineTerminator code points: exactly what `\s`
      matches and what `trim` removes. */
  predicate IsWhiteSpace(c: char)
  {
    var n := c as int;
    || (0x09 <= n <= 0x0D)              // tab, line feed, vertical tab, form feed, carriage return
    || n == 0x20 || n == 0xA0 || n == 0x1680
    || (0x2000 <= n <= 0x200A)          // en quad .. hair space
    || n == 0x2028 || n == 0x2029       // line and paragraph separators
    || n == 0x202F || n == 0x205F || n == 0x3000
    || n == 0xFEFF                      // byte-order mark
  }

  predicate AllWhiteSpace(s: string)
  {
    forall i :: 0 <= i < |s| ==> IsWhiteSpace(s[i])
  }

  predicate IsUpperAscii(c: char)
  {
    'A' <= c <= 'Z'
  }

  /** Lower-case mapping of one character, for ASCII letters. */
  function LowerChar(c: char): (d: char)
    ensures IsUpperAscii(c) ==> d as int == c as int + 32
    ensures !IsUpperAscii(c) ==> d == c
    ensures !IsUpperAscii(d)
  {
    if IsUpperAscii(c) then (c as int + 32) as char else c
  }

  /** `s.toLowerCase()`, restricted to ASCII letters. */
  function ToLowerCase(s: string): (r: string)
    ensures |r| == |s|
    ensures forall i :: 0 <= i < |s| ==> r[i] == LowerChar(s[i])
  {
    seq(|s|, i requires 0 <= i < |s| => LowerChar(s[i]))
  }

  /** Lower-casing twice is lower-casing once. */
  lemma ToLowerCaseIdempotent(s: string)
    ensures ToLowerCase(ToLowerCase(s)) == ToLowerCase(s)
  {
    var once := ToLowerCase(s);
    assert forall i :: 0 <= i < |s| ==> LowerChar(once[i]) == once[i];
  }

  /** Two strings that agree up to the case of their letters lower-case to the
      same string. */
  predicate SameIgnoringCase(a: string, b: string)
  {
    |a| == |b| && forall i :: 0 <= i < |a| ==> LowerChar(a[i]) == LowerChar(b[i])
  }

  lemma SameIgnoringCaseLowersAlike(a: string, b: string)
    ensures SameIgnoringCase(a, b) <==> ToLowerCase(a) == ToLowerCase(b)
  {
    if ToLowerCase(a) == ToLowerCase(b) {
      assert forall i :: 0 <= i < |a| ==> LowerChar(a[i]) == ToLowerCase(a)[i];
    }
  }

  /** `s.trimStart()`: the longest suffix of `s` that does not begin with
      white space, everything cut off being white space. */
  function TrimStart(s: string): (r: string)
    ensures |r| <= |s| && r == s[|s| - |r|..]
    ensures AllWhiteSpace(s[..|s| - |r|])
    ensures r == [] || !IsWhiteSpace(r[0])
    ensures s == [] || !IsWhiteSpace(s[0]) ==> r == s
  {
    if s != [] && IsWhiteSpace(s[0]) then
      var r := TrimStart(s[1..]);
      assert s[..|s| - |r|] == [s[0]] + s[1..][..|s| - 1 - |r|];
      r
    else s
  }

  /** `s.trimEnd()`: the longest prefix of `s` that does not end with white
      space, everything cut off being white space. */
  function TrimEnd(s: string): (r: string)
    ensures |r| <= |s| && r == s[..|r|]
    ensures AllWhiteSpace(s[|r|..])
    ensures r == [] || !IsWhiteSpace(r[|r| - 1])
    ensures s == [] || !IsWhiteSpace(s[|s| - 1]) ==> r == s
  {
    if s != [] && IsWhiteSpace(s[|s| - 1]) then
      var r := TrimEnd(s[..|s| - 1]);
      assert s[|r|..] == s[..|s| - 1][|r|..] + [s[|s| - 1]];
      r
    else s
  }

  /** Neither end of the string is white space. */
  predicate IsTrimmed(s: string)
  {
    s == [] || (!IsWhiteSpace(s[0]) && !IsWhiteSpace(s[|s| - 1]))
  }

  /** `s.trim()`: white space cut from both ends; a string with neither end
      white is returned unchanged. */
  function Trim(s: string): (r: string)
    ensures IsTrimmed(r)
    ensures IsTrimmed(s) ==> r == s
  {
    var front := TrimStart(s);
    var r := TrimEnd(front);
    assert r != [] ==> r[0] == front[0];
    r
  }

  /** What `trim` removes is white space and nothing else: the result is the
      slice of `s` between a white prefix and a white suffix. */
  lemma TrimCutsOnlyWhiteSpace(s: string)
    ensures exists a, b :: 0 <= a <= b <= |s| && Trim(s) == s[a..b]
              && AllWhiteSpace(s[..a]) && AllWhiteSpace(s[b..])
  {
    var front := TrimStart(s);
    var r := TrimEnd(front);
    var a := |s| - |front|;
    var b := a + |r|;
    assert r == s[a..b];
    assert s[b..] == front[|r|..];
  }

  /** `w` occurs in `text` starting at index `i`. */
  predicate OccursAt(text: string, w: string, i: nat)
  {
    i + |w| <= |text| && text[i..i + |w|] == w
  }

  /** `w` is a substring of `text`. */
  ghost predicate Occurs(text: string, w: string)
  {
    exists i: nat :: OccursAt(text, w, i)
  }

  /** Search for `w` in `text` from index `from` onwards. */
  function IncludesFrom(text: string, w: string, from: nat): (b: bool)
    ensures b <==> exists i: nat :: from <= i && OccursAt(text, w, i)
    decreases |text| - from
  {
    if from + |w| > |text| then false
    else OccursAt(text, w, from) || IncludesFrom(text, w, from + 1)
  }

  /** `text.includes(w)`: plain substring containment, ignoring word boundaries. */
  function Includes(text: string, w: string): (b: bool)
    ensures b <==> Occurs(text, w)
  {
    IncludesFrom(text, w, 0)
  }
}
