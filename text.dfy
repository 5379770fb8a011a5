/**
 * The JavaScript string built-ins the extension's logic relies on, over strings modelled
 * as `seq<char>`, one character per Unicode scalar value (JavaScript counts UTF-16 code
 * units instead): `trim`, `indexOf`/`includes`, `replace` with a string pattern, and the
 * decimal rendering of an integer in a template literal.
 */
module Text {

  /** The WhiteSpace and LineTerminator code points, which `String.prototype.trim` removes. */
  predicate IsJsSpace(c: char) {
    || c in {'\t', '\n', '\U{000B}', '\U{000C}', '\r', ' ', '\U{00A0}', '\U{1680}'}
    || ('\U{2000}' <= c <= '\U{200A}')
    || c in {'\U{2028}', '\U{2029}', '\U{202F}', '\U{205F}', '\U{3000}', '\U{FEFF}'}
  }

  /** `s.trimStart()`: the longest suffix of `s` that does not start with white space. */
  function TrimStart(s: string): (r: string)
    ensures |r| <= |s| && r == s[|s| - |r|..]
    ensures r == [] || !IsJsSpace(r[0])
    ensures forall i :: 0 <= i < |s| - |r| ==> IsJsSpace(s[i])
  {
    if s != [] && IsJsSpace(s[0]) then TrimStart(s[1..]) else s
  }

  /** `s.trimEnd()`: the longest prefix of `s` that does not end with white space. */
  function TrimEnd(s: string): (r: string)
    ensures |r| <= |s| && r == s[..|r|]
    ensures r == [] || !IsJsSpace(r[|r| - 1])
    ensures forall i :: |r| <= i < |s| ==> IsJsSpace(s[i])
  {
    if s != [] && IsJsSpace(s[|s| - 1]) then TrimEnd(s[..|s| - 1]) else s
  }

  /** `s.trim()` */
  function Trim(s: string): string {
    TrimEnd(TrimStart(s))
  }

  /** `!s.trim()`: the string is empty once trimmed. */
  predicate IsBlank(s: string) {
    Trim(s) == ""
  }

  /** A string is blank exactly when every one of its characters is white space. */
  lemma BlankIffAllSpace(s: string)
    ensures IsBlank(s) <==> forall i :: 0 <= i < |s| ==> IsJsSpace(s[i])
  {
    var t := TrimStart(s);
    if forall i :: 0 <= i < |s| ==> IsJsSpace(s[i]) {
      AllSpaceTrimsAway(s);
    }
    if IsBlank(s) {
      assert TrimEnd(t) == [];
      assert t == [];
    }
  }

  /** `trimStart` removes a string made only of white space entirely. */
  lemma {:induction false} AllSpaceTrimsAway(s: string)
    requires forall i :: 0 <= i < |s| ==> IsJsSpace(s[i])
    ensures TrimStart(s) == []
  {
    if s != [] {
      assert IsJsSpace(s[0]);
      AllSpaceTrimsAway(s[1..]);
    }
  }

  /** A trimmed string neither starts nor ends with white space, and is a piece of the original. */
  lemma TrimmedEnds(s: string)
    ensures var t := Trim(s);
            && (t == [] || (!IsJsSpace(t[0]) && !IsJsSpace(t[|t| - 1])))
            && exists i :: OccursAt(s, t, i)
  {
    var u := TrimStart(s);
    var t := TrimEnd(u);
    if t != [] {
      assert t[0] == u[0];
    }
    assert s[|s| - |u|..|s| - |u| + |t|] == t;
    assert OccursAt(s, t, |s| - |u|);
  }

  /** `t` occurs in `s` starting at position `k`. */
  predicate OccursAt(s: string, t: string, k: int) {
    0 <= k && k + |t| <= |s| && s[k..k + |t|] == t
  }

  /** The first position at or after `from` where `t` occurs in `s`, or -1. */
  function IndexFrom(s: string, t: string, from: nat): (k: int)
    requires from <= |s| + 1
    decreases |s| + 1 - from
    ensures k == -1 || (from <= k && OccursAt(s, t, k))
    ensures k >= 0 ==> forall j :: from <= j < k ==> !OccursAt(s, t, j)
    ensures k == -1 ==> forall j :: from <= j ==> !OccursAt(s, t, j)
  {
    if from + |t| > |s| then -1
    else if s[from..from + |t|] == t then from
    else IndexFrom(s, t, from + 1)
  }

  /** `s.indexOf(t)`: the first position where `t` occurs in `s`, or -1 when it does not occur. */
  function IndexOf(s: string, t: string): (k: int)
    ensures k == -1 || OccursAt(s, t, k)
    ensures k >= 0 ==> forall j :: 0 <= j < k ==> !OccursAt(s, t, j)
    ensures k == -1 <==> forall j :: !OccursAt(s, t, j)
  {
    IndexFrom(s, t, 0)
  }

  /** `s.includes(t)` */
  predicate Includes(s: string, t: string) {
    IndexOf(s, t) >= 0
  }

  /**
   * `s.replace(pattern, replacement)` with a string pattern: only the first occurrence is
   * replaced. The replacement is taken literally (the `$&`, `$$`, `` $` `` and `$'`
   * specials are not interpreted).
   */
  function ReplaceFirst(s: string, pattern: string, replacement: string): string {
    var k := IndexOf(s, pattern);
    if k < 0 then s else s[..k] + replacement + s[k + |pattern|..]
  }

  /**
   * Only the first occurrence is replaced: the text before it is kept, the replacement
   * stands where it was, and every later occurrence of the pattern is still there, shifted.
   */
  lemma ReplaceFirstOnlyFirst(s: string, pattern: string, replacement: string, j: int)
    requires OccursAt(s, pattern, j)
    ensures var k := IndexOf(s, pattern);
            var r := ReplaceFirst(s, pattern, replacement);
            && 0 <= k <= j
            && r[..k] == s[..k]
            && OccursAt(r, replacement, k)
            && (j >= k + |pattern| ==> OccursAt(r, pattern, j - |pattern| + |replacement|))
  {
    var k := IndexOf(s, pattern);
    var r := ReplaceFirst(s, pattern, replacement);
    assert r == s[..k] + replacement + s[k + |pattern|..];
    assert r[k..k + |replacement|] == replacement;
    if j >= k + |pattern| {
      var j' := j - |pattern| + |replacement|;
      var head := s[..k] + replacement;
      var tail := s[k + |pattern|..];
      assert r == head + tail && |head| == j' - (j - k - |pattern|);
      var t := j - k - |pattern|;
      assert r[j'..j' + |pattern|] == tail[t..t + |pattern|];
      assert tail[t..t + |pattern|] == s[j..j + |pattern|];
    }
  }

  /** Replacing a pattern that does not occur leaves the string as it is. */
  lemma ReplaceAbsent(s: string, pattern: string, replacement: string)
    requires !Includes(s, pattern)
    ensures ReplaceFirst(s, pattern, replacement) == s
  {
  }

  /** A two-character string that does not occur at any position is not included. */
  lemma PairAbsent(s: string, a: char, b: char)
    requires forall k :: 0 <= k < |s| - 1 ==> s[k] != a || s[k + 1] != b
    ensures !Includes(s, [a, b])
  {
    forall j
      ensures !OccursAt(s, [a, b], j)
    {
      if 0 <= j && j + 2 <= |s| {
        assert s[j..j + 2][0] == s[j] && s[j..j + 2][1] == s[j + 1];
      }
    }
  }

  /** A two-character string with which `s` begins is found at position 0. */
  lemma PairAtStart(s: string, a: char, b: char)
    requires |s| >= 2 && s[0] == a && s[1] == b
    ensures IndexOf(s, [a, b]) == 0
  {
    assert s[0..2] == [a, b];
    assert OccursAt(s, [a, b], 0);
  }

  function DecimalDigit(d: nat): char
    requires d < 10
  {
    "0123456789"[d]
  }

  /** The decimal rendering of a non-negative integer, as `${n}` produces it. */
  function NatToDecimal(n: nat): (s: string)
    ensures |s| >= 1
    ensures forall i :: 0 <= i < |s| ==> '0' <= s[i] <= '9'
    ensures n >= 10 <==> |s| >= 2
  {
    if n < 10 then [DecimalDigit(n)] else NatToDecimal(n / 10) + [DecimalDigit(n % 10)]
  }

  /** The value of a string of decimal digits. */
  function DecimalValue(s: string): nat
    requires forall i :: 0 <= i < |s| ==> '0' <= s[i] <= '9'
  {
    if s == [] then 0 else 10 * DecimalValue(s[..|s| - 1]) + (s[|s| - 1] as int - '0' as int)
  }

  /** A digit character's code is '0' plus its value. */
  lemma DigitValue(d: nat)
    requires d < 10
    ensures DecimalDigit(d) as int - '0' as int == d
  {
  }

  /** Rendering is injective: reading the digits back gives the number. */
  lemma {:induction false} DecimalRoundTrip(n: nat)
    ensures DecimalValue(NatToDecimal(n)) == n
  {
    var s := NatToDecimal(n);
    var last := DecimalDigit(n % 10);
    DigitValue(n % 10);
    if n >= 10 {
      var init := NatToDecimal(n / 10);
      DecimalRoundTrip(n / 10);
      assert s == init + [last];
      assert s[..|s| - 1] == init && s[|s| - 1] == last;
      assert DecimalValue(s) == 10 * DecimalValue(init) + (last as int - '0' as int);
      assert DecimalValue(s) == 10 * (n / 10) + n % 10;
    } else {
      assert s == [last];
      assert s[..0] == [];
    }
  }
}
