/** The string helpers of `src/utils.py`: `clean_text`, `extract_price_number`
    and `normalize_url`. Python's `None` argument takes the same branch as the
    empty string in all three (`if not text`), so it is represented by "". */
module Utils {
  import opened Wrappers
  import opened Text

  /** No two neighbouring characters are both whitespace. */
  predicate NoDoubleSpace(s: string) {
    forall i :: 0 <= i < |s| - 1 ==> !(IsSpace(s[i]) && IsSpace(s[i + 1]))
  }

  /** The only whitespace character in `s` is the plain space. */
  predicate OnlyPlainSpaces(s: string) {
    forall i :: 0 <= i < |s| ==> IsSpace(s[i]) ==> s[i] == ' '
  }

  /** The shape of `clean_text`'s output: no whitespace at either end, no two
      whitespace characters in a row, and no whitespace other than ' '. */
  predicate Cleaned(r: string) {
    (r == [] || (!IsSpace(r[0]) && !IsSpace(r[|r| - 1])))
    && NoDoubleSpace(r) && OnlyPlainSpaces(r)
  }

  /** `re.sub(r'\s+', ' ', s)`: every maximal run of whitespace becomes one space. */
  function CollapseSpaces(s: string): (r: string)
    ensures s != [] ==> r != [] && (IsSpace(r[0]) <==> IsSpace(s[0]))
    decreases |s|
  {
    if s == [] then []
    else if IsSpace(s[0]) then " " + CollapseSpaces(TrimStart(s[1..]))
    else [s[0]] + CollapseSpaces(s[1..])
  }

  /** The substitution keeps whitespace at the end exactly when there was some. */
  lemma {:induction false} CollapseSpacesLast(s: string)
    ensures s != [] ==> (CollapseSpaces(s) != [] &&
              (IsSpace(CollapseSpaces(s)[|CollapseSpaces(s)| - 1]) <==> IsSpace(s[|s| - 1])))
    decreases |s|
  {
    if s == [] {
    } else if IsSpace(s[0]) {
      var t := TrimStart(s[1..]);
      if t != [] {
        assert t[|t| - 1] == s[|s| - 1];
        CollapseSpacesLast(t);
      } else {
        assert s[1..] == s[1..][..|s| - 1];
        assert |s| > 1 ==> IsSpace(s[1..][|s| - 2]);
      }
    } else if |s| > 1 {
      CollapseSpacesLast(s[1..]);
    }
  }

  /** The result has no double whitespace, and its only whitespace is ' '. */
  lemma {:induction false} CollapseSpacesShape(s: string)
    ensures NoDoubleSpace(CollapseSpaces(s)) && OnlyPlainSpaces(CollapseSpaces(s))
    decreases |s|
  {
    if s != [] {
      if IsSpace(s[0]) {
        var t := TrimStart(s[1..]);
        CollapseSpacesShape(t);
        var c := CollapseSpaces(t);
        assert CollapseSpaces(s) == " " + c;
        assert c != [] ==> !IsSpace(c[0]);
      } else {
        CollapseSpacesShape(s[1..]);
      }
    }
  }

  /** A leading space adds no non-whitespace character. */
  lemma NonSpaceAfterSpace(s: string, t: string)
    requires s != [] && IsSpace(s[0]) && t == s[1..]
    ensures NonSpace(s) == NonSpace(t)
  {
    assert NonSpace(s) == [] + NonSpace(t);
  }

  /** The substitution keeps every non-whitespace character, in order. */
  lemma {:induction false} CollapseSpacesNonSpace(s: string)
    ensures NonSpace(CollapseSpaces(s)) == NonSpace(s)
    decreases |s|
  {
    if s != [] {
      if IsSpace(s[0]) {
        var t := TrimStart(s[1..]);
        CollapseSpacesNonSpace(t);
        TrimStartKeepsNonSpace(s[1..]);
        NonSpaceAfterSpace(s, s[1..]);
        NonSpaceAfterSpace(" " + CollapseSpaces(t), CollapseSpaces(t));
      } else {
        CollapseSpacesNonSpace(s[1..]);
        NonSpaceAppend([s[0]], CollapseSpaces(s[1..]));
      }
    }
  }

  /** The substitution applied to a stripped string gives `clean_text`'s output form. */
  lemma CollapseStripped(t: string)
    requires t == [] || (!IsSpace(t[0]) && !IsSpace(t[|t| - 1]))
    ensures Cleaned(CollapseSpaces(t)) && NonSpace(CollapseSpaces(t)) == NonSpace(t)
  {
    CollapseSpacesShape(t);
    CollapseSpacesNonSpace(t);
    CollapseSpacesLast(t);
  }

  lemma CleanNonEmpty(text: string)
    ensures Cleaned(CollapseSpaces(Strip(text)))
    ensures NonSpace(CollapseSpaces(Strip(text))) == NonSpace(text)
  {
    var t := Strip(text);
    assert t == [] || (!IsSpace(t[0]) && !IsSpace(t[|t| - 1]));
    CollapseStripped(t);
    StripKeepsNonSpace(text);
  }

  /** `clean_text(text)`: surrounding whitespace removed and every inner run of
      whitespace replaced by a single space; the non-whitespace characters are
      kept, in order. */
  function CleanText(text: string): (r: string)
    ensures Cleaned(r)
    ensures NonSpace(r) == NonSpace(text)
  {
    if text == "" then ""
    else
      CleanNonEmpty(text);
      CollapseSpaces(Strip(text))
  }

  /** `clean_text` keeps exactly the digits of its input. */
  lemma CleanTextHasDigit(s: string)
    ensures HasDigit(CleanText(s)) <==> HasDigit(s)
  {
    NonSpaceHasDigit(CleanText(s));
    NonSpaceHasDigit(s);
  }

  /** A string with no double whitespace whose only whitespace is ' ' is left
      unchanged by the whitespace substitution. */
  lemma {:induction false} CollapseSpacesFixed(s: string)
    requires NoDoubleSpace(s) && OnlyPlainSpaces(s)
    ensures CollapseSpaces(s) == s
    decreases |s|
  {
    if s != [] {
      assert NoDoubleSpace(s[1..]) && OnlyPlainSpaces(s[1..]);
      CollapseSpacesFixed(s[1..]);
      if IsSpace(s[0]) {
        assert TrimStart(s[1..]) == s[1..];
      }
    }
  }

  /** A string already in `clean_text`'s output form is left unchanged. */
  lemma CleanTextFixed(c: string)
    requires Cleaned(c)
    ensures CleanText(c) == c
  {
    if c != [] {
      assert Strip(c) == c;
      CollapseSpacesFixed(c);
    }
  }

  /** `clean_text` is idempotent. */
  lemma CleanTextIdempotent(s: string)
    ensures CleanText(CleanText(s)) == CleanText(s)
  {
    CleanTextFixed(CleanText(s));
  }

  // ---------------------------------------------------------------------------
  // The reference definition: clean_text(s) == " ".join(s.split())

  predicate NoSpace(s: string) {
    forall i :: 0 <= i < |s| ==> !IsSpace(s[i])
  }

  /** The longest prefix of `s` without whitespace. */
  function WordPrefix(s: string): (r: string)
    ensures |r| <= |s| && r == s[..|r|] && NoSpace(r)
    ensures |r| == |s| || IsSpace(s[|r|])
    decreases |s|
  {
    if s != [] && !IsSpace(s[0]) then [s[0]] + WordPrefix(s[1..]) else []
  }

  /** `s.split()`: the maximal runs of non-whitespace characters, in order. */
  function Words(s: string): (ws: seq<string>)
    decreases |s|
  {
    var t := TrimStart(s);
    if t == [] then []
    else
      var w := WordPrefix(t);
      [w] + Words(t[|w|..])
  }

  /** `" ".join(ws)`. */
  function JoinWords(ws: seq<string>): string {
    if ws == [] then ""
    else if |ws| == 1 then ws[0]
    else ws[0] + " " + JoinWords(ws[1..])
  }

  lemma {:induction false} CollapseAfterWord(w: string, y: string)
    requires NoSpace(w)
    ensures CollapseSpaces(w + y) == w + CollapseSpaces(y)
    decreases |w|
  {
    if w == [] {
      assert w + y == y;
    } else {
      assert (w + y)[1..] == w[1..] + y;
      CollapseAfterWord(w[1..], y);
    }
  }

  /** Sequence steps proved on their own, away from the word lemmas' large
      contexts, where the solver does not find them in time. */
  lemma ConcatAssoc(a: string, b: string, c: string)
    ensures a + (b + c) == a + b + c
  {
  }

  lemma SliceOfAppend(a: string, b: string, k: nat)
    requires k <= |a|
    ensures (a + b)[k..] == a[k..] + b
  {
  }

  lemma WordsOfWordStart(x: string)
    requires x != [] && !IsSpace(x[0])
    ensures Words(x) == [WordPrefix(x)] + Words(x[|WordPrefix(x)|..])
  {
    assert TrimStart(x) == x;
  }

  lemma WordsOfSpaceStart(x: string)
    requires x != [] && IsSpace(x[0])
    ensures Words(x) == Words(TrimStart(x[1..]))
  {
    var t := TrimStart(x[1..]);
    assert TrimStart(x) == t;
    assert t == [] || TrimStart(t) == t;
  }

  lemma JoinWordsCons(w: string, ws: seq<string>)
    requires ws != []
    ensures JoinWords([w] + ws) == w + " " + JoinWords(ws)
  {
    assert ([w] + ws)[1..] == ws;
  }

  lemma CollapseSplitWord(x: string)
    ensures CollapseSpaces(x) == WordPrefix(x) + CollapseSpaces(x[|WordPrefix(x)|..])
  {
    var w := WordPrefix(x);
    assert x == w + x[|w|..];
    CollapseAfterWord(w, x[|w|..]);
  }

  /** Splitting a trimmed string at its first word: the substitution emits the
      word, one space, then works on the rest after the whitespace run. */
  lemma CollapseAtFirstWord(x: string)
    requires x != [] && !IsSpace(x[0]) && |WordPrefix(x)| < |x|
    ensures CollapseSpaces(x)
            == WordPrefix(x) + " " + CollapseSpaces(TrimStart(x[|WordPrefix(x)| + 1..]))
  {
    var w := WordPrefix(x);
    var rest := x[|w|..];
    CollapseSplitWord(x);
    assert rest[1..] == x[|w| + 1..];
    var c := CollapseSpaces(TrimStart(rest[1..]));
    assert CollapseSpaces(rest) == " " + c;
    ConcatAssoc(w, " ", c);
  }

  lemma WordsAtFirstWord(x: string)
    requires x != [] && !IsSpace(x[0]) && |WordPrefix(x)| < |x|
    ensures Words(x) == [WordPrefix(x)] + Words(TrimStart(x[|WordPrefix(x)| + 1..]))
  {
    var w := WordPrefix(x);
    var rest := x[|w|..];
    WordsOfWordStart(x);
    WordsOfSpaceStart(rest);
    assert rest[1..] == x[|w| + 1..];
  }

  /** A single word is its own collapse and its own join. */
  lemma CollapseIsJoinOneWord(x: string)
    requires x != [] && !IsSpace(x[0]) && |WordPrefix(x)| == |x|
    ensures CollapseSpaces(x) == x && JoinWords(Words(x)) == x
  {
    assert WordPrefix(x) == x[..|x|] == x;
    CollapseAfterWord(x, []);
    assert x + [] == x;
    WordsOneWord(x);
  }

  lemma WordsOneWord(x: string)
    requires x != [] && !IsSpace(x[0]) && WordPrefix(x) == x
    ensures Words(x) == [x]
  {
    WordsOfWordStart(x);
    assert x[|x|..] == [];
  }

  /** After the first word and the whitespace run that ends it, what is left
      of a trimmed string is again trimmed, non-empty and shorter. */
  lemma AfterFirstWord(x: string, rest: string)
    requires x != [] && !IsSpace(x[0]) && !IsSpace(x[|x| - 1]) && |WordPrefix(x)| < |x|
    requires rest == TrimStart(x[|WordPrefix(x)| + 1..])
    ensures rest != [] && !IsSpace(rest[0]) && !IsSpace(rest[|rest| - 1]) && |rest| < |x|
  {
    var w := WordPrefix(x);
    assert !IsSpace(x[|w| + 1..][|x| - |w| - 2]);
  }

  /** One step of the induction below: a trimmed string of several words is its
      first word, one space, and a shorter trimmed rest, for the substitution
      and for the split alike. */
  lemma FirstWordStep(x: string) returns (w: string, rest: string)
    requires x != [] && !IsSpace(x[0]) && !IsSpace(x[|x| - 1]) && |WordPrefix(x)| < |x|
    ensures rest != [] && !IsSpace(rest[0]) && !IsSpace(rest[|rest| - 1]) && |rest| < |x|
    ensures CollapseSpaces(x) == w + " " + CollapseSpaces(rest)
    ensures Words(x) == [w] + Words(rest) && Words(rest) != []
  {
    w := WordPrefix(x);
    rest := TrimStart(x[|w| + 1..]);
    AfterFirstWord(x, rest);
    CollapseAtFirstWord(x);
    WordsAtFirstWord(x);
    WordsOfWordStart(rest);
  }

  /** On a string with no whitespace at either end, the substitution equals
      joining the words with single spaces. */
  lemma {:induction false} CollapseIsJoin(x: string)
    requires x == [] || (!IsSpace(x[0]) && !IsSpace(x[|x| - 1]))
    ensures CollapseSpaces(x) == JoinWords(Words(x))
    decreases |x|
  {
    if x != [] {
      if |WordPrefix(x)| == |x| {
        CollapseIsJoinOneWord(x);
      } else {
        var w, rest := FirstWordStep(x);
        CollapseIsJoin(rest);
        JoinWordsCons(w, Words(rest));
      }
    }
  }

  lemma {:induction false} WordPrefixAppend(t: string, y: string)
    requires (exists i :: 0 <= i < |t| && IsSpace(t[i])) || y == [] || IsSpace(y[0])
    ensures WordPrefix(t + y) == WordPrefix(t)
    decreases |t|
  {
    if t == [] {
      assert t + y == y;
    } else if !IsSpace(t[0]) {
      assert (t + y)[1..] == t[1..] + y;
      if exists i :: 0 <= i < |t| && IsSpace(t[i]) {
        var i :| 0 <= i < |t| && IsSpace(t[i]);
        assert IsSpace(t[1..][i - 1]);
      }
      WordPrefixAppend(t[1..], y);
    }
  }

  lemma {:induction false} TrimStartAppend(x: string, y: string)
    requires !AllSpace(x)
    ensures TrimStart(x + y) == TrimStart(x) + y
    decreases |x|
  {
    if IsSpace(x[0]) {
      assert (x + y)[1..] == x[1..] + y;
      assert !AllSpace(x[1..]) by {
        var i :| 0 <= i < |x| && !IsSpace(x[i]);
        assert x[1..][i - 1] == x[i];
      }
      TrimStartAppend(x[1..], y);
    }
  }

  lemma {:induction false} TrimStartAllSpace(x: string)
    requires AllSpace(x)
    ensures TrimStart(x) == []
  {
  }

  lemma WordsUnfold(y: string)
    requires TrimStart(y) != []
    ensures Words(y) == [WordPrefix(TrimStart(y))]
                        + Words(TrimStart(y)[|WordPrefix(TrimStart(y))|..])
  {
  }

  lemma FirstWordAppendSpaces(x: string, sp: string)
    requires AllSpace(sp) && !AllSpace(x)
    ensures TrimStart(x) != [] && TrimStart(x + sp) == TrimStart(x) + sp
    ensures WordPrefix(TrimStart(x + sp)) == WordPrefix(TrimStart(x))
    ensures TrimStart(x + sp)[|WordPrefix(TrimStart(x))|..]
            == TrimStart(x)[|WordPrefix(TrimStart(x))|..] + sp
  {
    TrimStartAppend(x, sp);
    var t := TrimStart(x);
    var w := WordPrefix(t);
    assert WordPrefix(t + sp) == w by {
      if |w| < |t| {
        assert IsSpace(t[|w|]);
      }
      WordPrefixAppend(t, sp);
    }
    SliceOfAppend(t, sp, |w|);
  }

  /** Trailing whitespace adds no word. */
  lemma {:induction false} WordsAppendSpaces(x: string, sp: string)
    requires AllSpace(sp)
    ensures Words(x + sp) == Words(x)
    decreases |x|
  {
    if AllSpace(x) {
      TrimStartAllSpace(x);
      assert AllSpace(x + sp);
      TrimStartAllSpace(x + sp);
    } else {
      FirstWordAppendSpaces(x, sp);
      var t := TrimStart(x);
      var w := WordPrefix(t);
      WordsUnfold(x);
      WordsUnfold(x + sp);
      WordsAppendSpaces(t[|w|..], sp);
    }
  }

  lemma WordsTrimStart(s: string)
    ensures Words(TrimStart(s)) == Words(s)
  {
    var t := TrimStart(s);
    assert TrimStart(t) == t;
  }

  lemma WordsTrimEnd(t: string)
    ensures Words(TrimEnd(t)) == Words(t)
  {
    var r := TrimEnd(t);
    var tail := t[|r|..];
    assert t == r + tail;
    WordsAppendSpaces(r, tail);
  }

  /** Surrounding whitespace adds no word. */
  lemma WordsStrip(s: string)
    ensures Words(Strip(s)) == Words(s)
  {
    WordsTrimEnd(TrimStart(s));
    WordsTrimStart(s);
  }

  /** `clean_text(s) == " ".join(s.split())` for every string. */
  lemma CleanTextIsJoinOfWords(s: string)
    ensures CleanText(s) == JoinWords(Words(s))
  {
    if s != "" {
      var r := Strip(s);
      assert CleanText(s) == CollapseSpaces(r);
      CollapseIsJoin(r);
      assert CollapseSpaces(r) == JoinWords(Words(r));
      WordsStrip(s);
      assert Words(r) == Words(s);
    }
  }

  // ---------------------------------------------------------------------------
  // extract_price_number

  /** `s.replace(',', '')`: keeps every character but the commas, in order. */
  function RemoveCommas(s: string): (r: string)
    ensures |r| <= |s|
    ensures forall c :: c in r <==> c in s && c != ','
    decreases |s|
  {
    if s == [] then []
    else (if s[0] == ',' then [] else [s[0]]) + RemoveCommas(s[1..])
  }

  lemma RemoveCommasHasDigit(s: string)
    ensures HasDigit(RemoveCommas(s)) <==> HasDigit(s)
  {
    var r := RemoveCommas(s);
    if HasDigit(s) {
      var i :| 0 <= i < |s| && IsDigit(s[i]);
      assert s[i] in r;
    }
    if HasDigit(r) {
      var i :| 0 <= i < |r| && IsDigit(r[i]);
      assert r[i] in s;
    }
  }

  lemma {:induction false} RemoveCommasAppend(a: string, b: string)
    ensures RemoveCommas(a + b) == RemoveCommas(a) + RemoveCommas(b)
    decreases |a|
  {
    if a == [] {
      assert a + b == b;
    } else {
      var h := if a[0] == ',' then [] else [a[0]];
      assert (a + b)[0] == a[0];
      assert (a + b)[1..] == a[1..] + b;
      assert RemoveCommas(a + b) == h + RemoveCommas(a[1..] + b);
      RemoveCommasAppend(a[1..], b);
      assert RemoveCommas(a) == h + RemoveCommas(a[1..]);
    }
  }

  lemma {:induction false} RemoveCommasNoComma(s: string)
    requires forall i :: 0 <= i < |s| ==> s[i] != ','
    ensures RemoveCommas(s) == s
    decreases |s|
  {
    if s != [] {
      RemoveCommasNoComma(s[1..]);
    }
  }

  /** `extract_price_number(price_text)`: after the commas are removed, the value
      of the first match of `\d+\.?\d*`; `None` exactly when the text has no digit. */
  function ExtractPriceNumber(priceText: string): (r: Option<real>)
    ensures r.Some? <==> HasDigit(priceText)
    ensures r.Some? ==> r.value >= 0.0
  {
    if priceText == "" then None
    else
      var s := RemoveCommas(priceText);
      RemoveCommasHasDigit(priceText);
      var i := FirstDigitFrom(s, 0);
      if i == |s| then None
      else
        var m := DecimalPrefix(s[i..]);
        Some(DecimalValue(m.whole, m.frac))
  }

  lemma {:induction false} DigitPrefixBefore(d: string, y: string)
    requires AllDigits(d)
    requires y == [] || !IsDigit(y[0])
    ensures DigitPrefix(d + y) == d
    decreases |d|
  {
    if d == [] {
      assert d + y == y;
    } else {
      assert (d + y)[1..] == d[1..] + y;
      DigitPrefixBefore(d[1..], y);
    }
  }

  lemma DigitPrefixOf(x: string, d: string, y: string)
    requires AllDigits(d)
    requires y == [] || !IsDigit(y[0])
    requires x == d + y
    ensures DigitPrefix(x) == d
  {
    DigitPrefixBefore(d, y);
  }

  lemma FirstDigitAfter(pre: string, rest: string)
    requires !HasDigit(pre)
    requires rest != [] && IsDigit(rest[0])
    ensures FirstDigitFrom(pre + rest, 0) == |pre|
  {
    var s := pre + rest;
    assert forall j :: 0 <= j < |pre| ==> s[j] == pre[j];
    assert s[|pre|] == rest[0];
  }

  /** Whatever follows a known prefix of `s[p..]` is the later suffix of `s`. */
  lemma SuffixAfter(s: string, p: nat, a: string, b: string)
    requires p <= |s| && s[p..] == a + b
    ensures p + |a| <= |s| && s[p + |a|..] == b
  {
    assert s[p + |a|..] == s[p..][|a|..];
  }

  /** `DecimalPrefix` read off its two digit runs. */
  lemma DecimalPrefixParts(u: string, d: string, frac: string)
    requires u != [] && IsDigit(u[0])
    requires DigitPrefix(u) == d
    requires |d| < |u| && u[|d|] == '.'
    requires DigitPrefix(u[|d| + 1..]) == frac
    ensures DecimalPrefix(u) == DecimalMatch(d, frac, |d| + 1 + |frac|)
  {
  }

  /** On `d + "." + frac + t`, the greedy match is `d.frac`. */
  lemma DecimalOfLiteral(u: string, d: string, frac: string, t: string)
    requires d != [] && AllDigits(d) && AllDigits(frac)
    requires t == [] || !IsDigit(t[0])
    requires u == d + ("." + (frac + t))
    ensures u != [] && IsDigit(u[0])
    ensures DecimalPrefix(u) == DecimalMatch(d, frac, |d| + 1 + |frac|)
  {
    var r2 := frac + t;
    var r1 := "." + r2;
    assert u[0] == d[0];
    DigitPrefixOf(u, d, r1);
    SuffixAfter(u, 0, d, r1);
    assert u[|d|] == u[|d|..][0] == '.';
    SuffixAfter(u, |d|, ".", r2);
    DigitPrefixOf(u[|d| + 1..], frac, t);
    DecimalPrefixParts(u, d, frac);
  }

  /** On `d + t`, where `t` continues with neither a digit nor a point, the
      greedy match is the integer `d`. */
  lemma DecimalOfInteger(u: string, d: string, t: string)
    requires d != [] && AllDigits(d)
    requires t == [] || (!IsDigit(t[0]) && t[0] != '.')
    requires u == d + t
    ensures u != [] && IsDigit(u[0])
    ensures DecimalPrefix(u) == DecimalMatch(d, [], |d|)
  {
    assert u[0] == d[0];
    DigitPrefixOf(u, d, t);
    SuffixAfter(u, 0, d, t);
    if |d| < |u| {
      assert u[|d|] == u[|d|..][0] == t[0];
    }
  }

  /** A price written as a currency marker without digits, an integer part with
      any thousands separators, a point and a fraction, then anything that does
      not continue the number, reads back as exactly that decimal value. */
  lemma PriceOfLiteral(currency: string, whole: string, frac: string, tail: string)
    requires !HasDigit(currency)
    requires RemoveCommas(whole) != [] && AllDigits(RemoveCommas(whole))
    requires AllDigits(frac)
    requires RemoveCommas(tail) == [] || !IsDigit(RemoveCommas(tail)[0])
    ensures ExtractPriceNumber(currency + (whole + ("." + (frac + tail))))
            == Some(DecimalValue(RemoveCommas(whole), frac))
  {
    var c, d, t := RemoveCommas(currency), RemoveCommas(whole), RemoveCommas(tail);
    assert RemoveCommas(currency + (whole + ("." + (frac + tail))))
           == c + (d + ("." + (frac + t))) by {
      RemoveCommasNoComma(frac);
      RemoveCommasNoComma(".");
      RemoveCommasAppend(frac, tail);
      RemoveCommasAppend(".", frac + tail);
      RemoveCommasAppend(whole, "." + (frac + tail));
      RemoveCommasAppend(currency, whole + ("." + (frac + tail)));
    }
    RemoveCommasHasDigit(currency);
    var rest := d + ("." + (frac + t));
    DecimalOfLiteral(rest, d, frac, t);
    FirstDigitAfter(c, rest);
    assert (c + rest)[|c|..] == rest;
  }

  /** A price without a decimal point ("S$45", "1,299"): a currency marker
      without digits, an integer part with any thousands separators, then
      anything that starts with neither a digit nor a point once its commas are
      gone, reads back as the integer. */
  lemma PriceOfInteger(currency: string, whole: string, tail: string)
    requires !HasDigit(currency)
    requires RemoveCommas(whole) != [] && AllDigits(RemoveCommas(whole))
    requires RemoveCommas(tail) == []
             || (!IsDigit(RemoveCommas(tail)[0]) && RemoveCommas(tail)[0] != '.')
    ensures ExtractPriceNumber(currency + (whole + tail))
            == Some(DigitsValue(RemoveCommas(whole)) as real)
  {
    var x := currency + (whole + tail);
    var c, d, t := RemoveCommas(currency), RemoveCommas(whole), RemoveCommas(tail);
    var rest := d + t;
    assert RemoveCommas(x) == c + rest by {
      RemoveCommasAppend(whole, tail);
      RemoveCommasAppend(currency, whole + tail);
    }
    assert x != "" by { assert |x| >= |whole| >= |d| > 0; }
    RemoveCommasHasDigit(currency);
    DecimalOfInteger(rest, d, t);
    FirstDigitAfter(c, rest);
    assert (c + rest)[|c|..] == rest;
    assert ExtractPriceNumber(x) == Some(DecimalValue(d, []));
    DecimalValueWholeOnly(d, []);
  }

  /** A Singapore-dollar amount with a thousands separator reads as its value. */
  lemma PriceExampleAmount(text: string)
    requires text == "S$1,299.00"
    ensures ExtractPriceNumber(text) == Some(1299.0)
  {
    var currency, whole, frac, tail := "S$", "1,299", "00", "";
    assert text == currency + (whole + ("." + (frac + tail)));
    assert !HasDigit(currency) by {
      forall i | 0 <= i < |currency| ensures !IsDigit(currency[i]) {}
    }
    RemoveCommasExample(whole);
    PriceOfLiteral(currency, whole, frac, tail);
    DigitsValueExamples();
    DecimalValueWholeOnly("1299", "00");
  }

  lemma RemoveCommasExample(whole: string)
    requires whole == "1,299"
    ensures RemoveCommas(whole) == "1299"
  {
    RemoveCommasAppend("1", ",299");
    RemoveCommasNoComma("1");
    RemoveCommasNoComma("299");
    assert whole == "1" + ",299";
    assert "1" + "299" == "1299";
  }

  lemma DigitsValueExamples()
    ensures DigitsValue("1299") == 1299 && DigitsValue("00") == 0
  {
    assert DigitsValue("1") == 1;
    assert DigitsValue("12") == 12 by { assert "12"[..1] == "1"; }
    assert DigitsValue("129") == 129 by { assert "129"[..2] == "12"; }
    assert DigitsValue("1299") == 1299 by { assert "1299"[..3] == "129"; }
    assert DigitsValue("00") == 0 by { assert "00"[..1] == "0"; }
  }

  lemma DecimalValueWholeOnly(whole: string, frac: string)
    requires AllDigits(whole) && AllDigits(frac) && DigitsValue(frac) == 0
    ensures DecimalValue(whole, frac) == DigitsValue(whole) as real
  {
  }

  /** A listing without a figure has no numeric price. */
  lemma PriceExampleNone()
    ensures ExtractPriceNumber("Contact for price") == None
  {
    var s := "Contact for price";
    assert !HasDigit(s) by {
      forall i | 0 <= i < |s| ensures !IsDigit(s[i]) {}
    }
  }

  // ---------------------------------------------------------------------------
  // normalize_url

  /** `normalize_url(url, base_url)`: "" for an empty link; an address starting
      with "http" unchanged; anything else joined to `baseUrl` with exactly one
      '/' between them. */
  function NormalizeUrl(url: string, baseUrl: string): (r: string)
    ensures url == "" <==> r == ""
    ensures StartsWith(url, "http") ==> r == url
    ensures url != "" && !StartsWith(url, "http") ==>
              |r| == |baseUrl| + |url| + (if url[0] == '/' then 0 else 1)
              && StartsWith(r, baseUrl + "/") && r[|r| - |url|..] == url
  {
    if url == "" then ""
    else if StartsWith(url, "http") then url
    else if StartsWith(url, "/") then baseUrl + url
    else baseUrl + "/" + url
  }

  /** With an absolute base, normalizing a normalized link changes nothing. */
  lemma NormalizeUrlIdempotent(url: string, baseUrl: string)
    requires StartsWith(baseUrl, "http")
    ensures NormalizeUrl(NormalizeUrl(url, baseUrl), baseUrl) == NormalizeUrl(url, baseUrl)
  {
    var r := NormalizeUrl(url, baseUrl);
    if url != "" && !StartsWith(url, "http") {
      assert r[..4] == baseUrl[..4];
    }
  }

  /** A rooted path such as "/dp/X" is appended to the base as it is. */
  lemma NormalizeUrlRooted(url: string, baseUrl: string)
    requires url != [] && url[0] == '/'
    ensures NormalizeUrl(url, baseUrl) == baseUrl + url
  {
    assert !StartsWith(url, "http") by {
      if |url| >= 4 {
        assert url[..4][0] == '/';
      }
    }
  }
}
