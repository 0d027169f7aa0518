/** The string primitives the components rely on, with JavaScript's meaning:
    `String.prototype.includes`, `String.prototype.trim` and `String.prototype.length`
    (which counts UTF-16 code units, not characters). */
module Text {

  /** `p` occurs in `s` starting at index `k`. */
  predicate OccursAt(s: string, p: string, k: int) {
    0 <= k && k + |p| <= |s| && s[k..k + |p|] == p
  }

  /** `s.includes(p)`. */
  predicate Contains(s: string, p: string) {
    exists k | 0 <= k <= |s| - |p| :: OccursAt(s, p, k)
  }

  lemma ContainsInLeft(a: string, b: string, p: string)
    requires Contains(a, p)
    ensures Contains(a + b, p)
  {
    var k :| 0 <= k <= |a| - |p| && OccursAt(a, p, k);
    assert (a + b)[k..k + |p|] == a[k..k + |p|];
    assert OccursAt(a + b, p, k);
  }

  lemma ContainsInRight(a: string, b: string, p: string)
    requires Contains(b, p)
    ensures Contains(a + b, p)
  {
    var k :| 0 <= k <= |b| - |p| && OccursAt(b, p, k);
    assert (a + b)[|a| + k..|a| + k + |p|] == b[k..k + |p|];
    assert OccursAt(a + b, p, |a| + k);
  }

  /** A character that does not occur in `p` splits every search for `p` in two:
      no occurrence of `p` can straddle it. */
  lemma ContainsAcrossSeparator(a: string, c: char, b: string, p: string)
    requires c !in p
    ensures Contains(a + [c] + b, p) <==> Contains(a, p) || Contains(b, p)
  {
    var s := a + [c] + b;
    if Contains(s, p) {
      var k :| 0 <= k <= |s| - |p| && OccursAt(s, p, k);
      if k + |p| <= |a| {
        assert a[k..k + |p|] == s[k..k + |p|];
        assert OccursAt(a, p, k);
      } else {
        if k <= |a| {
          OccurrenceChar(s, p, k, |a|);
          assert false;
        }
        var j := k - |a| - 1;
        assert b[j..j + |p|] == s[k..k + |p|];
        assert OccursAt(b, p, j);
      }
    }
    if Contains(a, p) {
      ContainsInLeft(a, [c] + b, p);
      assert a + ([c] + b) == s;
    }
    if Contains(b, p) {
      ContainsInRight(a + [c], b, p);
    }
  }

  /** When `p` does not start with any character of `a`, an occurrence of `p` in `a + b`
      can only start inside `b`. */
  lemma ContainsOnlyAfter(a: string, b: string, p: string)
    requires |p| > 0 && p[0] !in a
    ensures Contains(a + b, p) <==> Contains(b, p)
  {
    var s := a + b;
    if Contains(s, p) {
      var k :| 0 <= k <= |s| - |p| && OccursAt(s, p, k);
      if k < |a| {
        OccurrenceChar(s, p, k, k);
        assert false;
      }
      assert b[k - |a|..k - |a| + |p|] == s[k..k + |p|];
      assert OccursAt(b, p, k - |a|);
    }
    if Contains(b, p) {
      ContainsInRight(a, b, p);
    }
  }

  lemma OccurrenceChar(s: string, p: string, k: int, j: int)
    requires OccursAt(s, p, k) && k <= j < k + |p|
    ensures p[j - k] == s[j]
  {
    assert s[k..k + |p|][j - k] == s[j];
  }

  /** A string whose characters all differ from the first character of `p` cannot contain `p`. */
  lemma NotContainsWithoutFirstChar(s: string, p: string)
    requires |p| > 0 && p[0] !in s
    ensures !Contains(s, p)
  {
  }

  /** A string of the same length as `p` contains `p` only by being `p`. */
  lemma ContainsSameLength(s: string, p: string)
    requires |s| == |p|
    ensures Contains(s, p) <==> s == p
  {
    if s == p {
      assert OccursAt(s, p, 0);
    }
  }

  /** ECMAScript's WhiteSpace and LineTerminator code points, the characters `trim` removes. */
  predicate IsJsWhitespace(c: char) {
    || c == '\t' || c == '\n' || c == '\U{000B}' || c == '\U{000C}' || c == '\r'
    || c == ' ' || c == '\U{00A0}' || c == '\U{1680}'
    || ('\U{2000}' <= c <= '\U{200A}')
    || c == '\U{2028}' || c == '\U{2029}' || c == '\U{202F}' || c == '\U{205F}'
    || c == '\U{3000}' || c == '\U{FEFF}'
  }

  predicate AllWhitespace(s: string) {
    forall k | 0 <= k < |s| :: IsJsWhitespace(s[k])
  }

  /** The index of the first non-whitespace character at or after `from`, or `|s|`. */
  function SkipWhitespace(s: string, from: nat): (i: nat)
    requires from <= |s|
    ensures from <= i <= |s|
    ensures forall k | from <= k < i :: IsJsWhitespace(s[k])
    ensures i < |s| ==> !IsJsWhitespace(s[i])
    decreases |s| - from
  {
    if from < |s| && IsJsWhitespace(s[from]) then SkipWhitespace(s, from + 1) else from
  }

  /** The end of `s[lo..upto]` once its trailing whitespace is dropped. */
  function SkipWhitespaceBack(s: string, lo: nat, upto: nat): (j: nat)
    requires lo <= upto <= |s|
    ensures lo <= j <= upto
    ensures forall k | j <= k < upto :: IsJsWhitespace(s[k])
    ensures j > lo ==> !IsJsWhitespace(s[j - 1])
  {
    if upto > lo && IsJsWhitespace(s[upto - 1]) then SkipWhitespaceBack(s, lo, upto - 1) else upto
  }

  /** `r` sits at index `i` of `s`, with only whitespace before and after it. */
  predicate IsTrimAt(s: string, r: string, i: int) {
    && 0 <= i <= |s| - |r|
    && s[i..i + |r|] == r
    && (forall k | 0 <= k < i :: IsJsWhitespace(s[k]))
    && (forall k | i + |r| <= k < |s| :: IsJsWhitespace(s[k]))
  }

  /** `s.trim()`: the part of `s` between its leading and its trailing whitespace. */
  function Trim(s: string): (r: string)
    ensures r != [] ==> !IsJsWhitespace(r[0]) && !IsJsWhitespace(r[|r| - 1])
    ensures exists i :: IsTrimAt(s, r, i)
    ensures r == [] <==> AllWhitespace(s)
  {
    var i := SkipWhitespace(s, 0);
    var j := SkipWhitespaceBack(s, i, |s|);
    assert i < j ==> s[i..j][0] == s[i] && s[i..j][j - i - 1] == s[j - 1];
    assert IsTrimAt(s, s[i..j], i);
    s[i..j]
  }

  /** Trimming twice is trimming once. */
  lemma {:induction false} TrimIdempotent(s: string)
    ensures Trim(Trim(s)) == Trim(s)
  {
    var r := Trim(s);
    if r != [] {
      assert SkipWhitespace(r, 0) == 0;
      assert SkipWhitespaceBack(r, 0, |r|) == |r|;
    }
  }

  /** `s.length`: characters outside the Basic Multilingual Plane take two UTF-16 code units. */
  function Utf16Length(s: string): (n: nat)
    ensures |s| <= n <= 2 * |s|
    ensures n == |s| <==> forall k | 0 <= k < |s| :: s[k] as int <= 0xFFFF
  {
    if s == [] then 0
    else (if s[0] as int > 0xFFFF then 2 else 1) + Utf16Length(s[1..])
  }
}
