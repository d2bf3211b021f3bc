/** Character classes and string primitives that the extraction code relies on:
    Python's `str.strip()`, the regular-expression classes `\s` and `\d`,
    `str.lower()`, `str.startswith()` and the `in` operator on strings.
    Whitespace is the set Python's `str.isspace()` and `\s` share; digits
    and case are the ASCII ones. */
module Text {

  /** A character matched by `\s` and removed by `strip()`: the ASCII
      whitespace from tab to carriage return, the information separators
      0x1C-0x1F, the space, and the Unicode space and line/paragraph
      separators. */
  predicate IsSpace(c: char) {
    c == ' ' || '\t' <= c <= '\r' || '\U{001C}' <= c <= '\U{001F}'
    || c == '\U{0085}' || c == '\U{00A0}' || c == '\U{1680}'
    || '\U{2000}' <= c <= '\U{200A}' || c == '\U{2028}' || c == '\U{2029}'
    || c == '\U{202F}' || c == '\U{205F}' || c == '\U{3000}'
  }

  /** A character matched by `\d`. */
  predicate IsDigit(c: char) {
    '0' <= c <= '9'
  }

  predicate AllDigits(s: string) {
    forall i :: 0 <= i < |s| ==> IsDigit(s[i])
  }

  predicate HasDigit(s: string) {
    exists i :: 0 <= i < |s| && IsDigit(s[i])
  }

  predicate AllSpace(s: string) {
    forall i :: 0 <= i < |s| ==> IsSpace(s[i])
  }

  /** `c.lower()` on ASCII letters. */
  function Lower(c: char): (r: char)
    ensures IsSpace(r) <==> IsSpace(c)
    ensures IsDigit(r) <==> IsDigit(c)
  {
    if 'A' <= c <= 'Z' then (c as int + 32) as char else c
  }

  /** `s.lower()`. */
  function LowerStr(s: string): (r: string)
    ensures |r| == |s|
    ensures forall i :: 0 <= i < |s| ==> r[i] == Lower(s[i])
  {
    seq(|s|, i requires 0 <= i < |s| => Lower(s[i]))
  }

  /** `s.startswith(prefix)`. */
  predicate StartsWith(s: string, prefix: string) {
    |prefix| <= |s| && s[..|prefix|] == prefix
  }

  /** `sub in s`. */
  predicate Contains(s: string, sub: string)
    decreases |s|
  {
    StartsWith(s, sub) || (s != [] && Contains(s[1..], sub))
  }

  /** `sub in s` holds exactly when `sub` occurs at some position of `s`. */
  lemma {:induction false} ContainsAt(s: string, sub: string, k: nat)
    requires k + |sub| <= |s| && s[k..k + |sub|] == sub
    ensures Contains(s, sub)
    decreases k
  {
    if k > 0 {
      assert s[1..][k - 1..k - 1 + |sub|] == s[k..k + |sub|];
      ContainsAt(s[1..], sub, k - 1);
    } else {
      assert s[..|sub|] == sub;
    }
  }

  lemma {:induction false} ContainsWitness(s: string, sub: string) returns (k: nat)
    requires Contains(s, sub)
    ensures k + |sub| <= |s| && s[k..k + |sub|] == sub
    decreases |s|
  {
    if StartsWith(s, sub) {
      k := 0;
    } else {
      var j := ContainsWitness(s[1..], sub);
      assert s[1..][j..j + |sub|] == s[j + 1..j + 1 + |sub|];
      k := j + 1;
    }
  }
  /** What a suffix of `s` contains, `s` contains. */
  lemma ContainsInSuffix(s: string, i: nat, sub: string)
    requires i <= |s| && Contains(s[i..], sub)
    ensures Contains(s, sub)
  {
    var k := ContainsWitness(s[i..], sub);
    assert s[i + k..i + k + |sub|] == s[i..][k..k + |sub|];
    ContainsAt(s, sub, i + k);
  }


  /** The characters of `s` that are not whitespace, in order. */
  function NonSpace(s: string): (r: string)
    ensures |r| <= |s|
    decreases |s|
  {
    if s == [] then []
    else (if IsSpace(s[0]) then [] else [s[0]]) + NonSpace(s[1..])
  }

  lemma {:induction false} NonSpaceAppend(a: string, b: string)
    ensures NonSpace(a + b) == NonSpace(a) + NonSpace(b)
    decreases |a|
  {
    if a == [] {
      assert a + b == b;
    } else {
      assert (a + b)[1..] == a[1..] + b;
      NonSpaceAppend(a[1..], b);
    }
  }

  lemma {:induction false} NonSpaceOfSpaces(s: string)
    requires AllSpace(s)
    ensures NonSpace(s) == []
    decreases |s|
  {
    if s != [] {
      NonSpaceOfSpaces(s[1..]);
    }
  }

  lemma HasDigitAppend(a: string, b: string)
    ensures HasDigit(a + b) <==> HasDigit(a) || HasDigit(b)
  {
    var s := a + b;
    if HasDigit(a) {
      var i :| 0 <= i < |a| && IsDigit(a[i]);
      assert s[i] == a[i];
    }
    if HasDigit(b) {
      var i :| 0 <= i < |b| && IsDigit(b[i]);
      assert s[|a| + i] == b[i];
    }
    if HasDigit(s) {
      var i :| 0 <= i < |s| && IsDigit(s[i]);
      if i < |a| {
        assert a[i] == s[i];
      } else {
        assert b[i - |a|] == s[i];
      }
    }
  }

  /** Dropping whitespace keeps every digit. */
  lemma {:induction false} NonSpaceHasDigit(s: string)
    ensures HasDigit(NonSpace(s)) <==> HasDigit(s)
    decreases |s|
  {
    if s != [] {
      var head := if IsSpace(s[0]) then [] else [s[0]];
      NonSpaceHasDigit(s[1..]);
      HasDigitAppend(head, NonSpace(s[1..]));
      HasDigitAppend([s[0]], s[1..]);
      assert s == [s[0]] + s[1..];
      assert [s[0]][0] == s[0];
    }
  }

  /** `s.lstrip()`: drops the leading whitespace and nothing else. */
  function TrimStart(s: string): (r: string)
    ensures |r| <= |s| && r == s[|s| - |r|..]
    ensures r == [] || !IsSpace(r[0])
    ensures AllSpace(s[..|s| - |r|])
    decreases |s|
  {
    if s != [] && IsSpace(s[0]) then
      var t := s[1..];
      var r := TrimStart(t);
      assert s[..|s| - |r|] == [s[0]] + t[..|t| - |r|];
      r
    else s
  }

  /** `s.rstrip()`: drops the trailing whitespace and nothing else. */
  function TrimEnd(s: string): (r: string)
    ensures |r| <= |s| && r == s[..|r|]
    ensures r == [] || !IsSpace(r[|r| - 1])
    ensures AllSpace(s[|r|..])
    decreases |s|
  {
    if s != [] && IsSpace(s[|s| - 1]) then
      var t := s[..|s| - 1];
      var r := TrimEnd(t);
      assert s[|r|..] == t[|r|..] + [s[|s| - 1]];
      r
    else s
  }

  /** `s.strip()`: a string with no whitespace at either end, which leaves a
      string already in that form alone. */
  function Strip(s: string): (r: string)
    ensures r == [] || (!IsSpace(r[0]) && !IsSpace(r[|r| - 1]))
    ensures (s == [] || (!IsSpace(s[0]) && !IsSpace(s[|s| - 1]))) ==> r == s
  {
    TrimEnd(TrimStart(s))
  }

  lemma TrimStartKeepsNonSpace(s: string)
    ensures NonSpace(TrimStart(s)) == NonSpace(s)
  {
    var t := TrimStart(s);
    var lead := s[..|s| - |t|];
    assert s == lead + t;
    NonSpaceAppend(lead, t);
    NonSpaceOfSpaces(lead);
  }

  lemma TrimEndKeepsNonSpace(s: string)
    ensures NonSpace(TrimEnd(s)) == NonSpace(s)
  {
    var r := TrimEnd(s);
    var tail := s[|r|..];
    assert s == r + tail;
    NonSpaceAppend(r, tail);
    NonSpaceOfSpaces(tail);
  }

  /** `strip()` removes whitespace only. */
  lemma StripKeepsNonSpace(s: string)
    ensures NonSpace(Strip(s)) == NonSpace(s)
  {
    TrimStartKeepsNonSpace(s);
    TrimEndKeepsNonSpace(TrimStart(s));
  }

  /** The longest prefix of `s` made of digits: what a greedy `\d*` consumes. */
  function DigitPrefix(s: string): (r: string)
    ensures |r| <= |s| && r == s[..|r|] && AllDigits(r)
    ensures |r| == |s| || !IsDigit(s[|r|])
    decreases |s|
  {
    if s != [] && IsDigit(s[0]) then [s[0]] + DigitPrefix(s[1..]) else []
  }

  function DigitValue(c: char): nat
    requires IsDigit(c)
  {
    (c as int) - ('0' as int)
  }

  /** `int(d)` for a string of decimal digits (0 for the empty string). */
  function DigitsValue(d: string): nat
    requires AllDigits(d)
    decreases |d|
  {
    if d == [] then 0 else DigitsValue(d[..|d| - 1]) * 10 + DigitValue(d[|d| - 1])
  }

  function Pow10(n: nat): (r: nat)
    ensures r > 0
  {
    if n == 0 then 1 else 10 * Pow10(n - 1)
  }

  /** The exact value of the decimal literal `whole.frac`, as `float()` reads it. */
  function DecimalValue(whole: string, frac: string): (r: real)
    requires AllDigits(whole) && AllDigits(frac)
    ensures r >= DigitsValue(whole) as real
  {
    DigitsValue(whole) as real + DigitsValue(frac) as real / Pow10(|frac|) as real
  }

  /** The index of the first digit of `s` at or after `p`, or `|s|` when there is none. */
  function FirstDigitFrom(s: string, p: nat): (i: nat)
    requires p <= |s|
    ensures p <= i <= |s|
    ensures i < |s| ==> IsDigit(s[i])
    ensures forall j :: p <= j < i ==> !IsDigit(s[j])
    decreases |s| - p
  {
    if p == |s| || IsDigit(s[p]) then p else FirstDigitFrom(s, p + 1)
  }

  /** What the greedy pattern `\d+\.?\d*` matches at the start of `u`, which
      begins with a digit: the integer digits, the fraction digits (empty when
      there is no point or no digit after it), and the length of the match. */
  datatype DecimalMatch = DecimalMatch(whole: string, frac: string, len: nat)

  function DecimalPrefix(u: string): (m: DecimalMatch)
    requires u != [] && IsDigit(u[0])
    ensures AllDigits(m.whole) && AllDigits(m.frac) && m.whole != []
    ensures |m.whole| <= m.len <= |u|
  {
    var whole := DigitPrefix(u);
    var q := |whole|;
    if q < |u| && u[q] == '.' then
      var frac := DigitPrefix(u[q + 1..]);
      DecimalMatch(whole, frac, q + 1 + |frac|)
    else
      DecimalMatch(whole, [], q)
  }
}
