/** `HTMLParser` of `src/parser.py`: resolving each field of a product from a
    search-result container by trying an ordered list of CSS selectors, and
    collecting the accepted products of a page in order.

    The HTML library is not modelled. A container is given by what
    `container.select_one(selector)` returns for each selector: an element with
    its `get_text(strip=True)` text and its attributes, or no entry when nothing
    matches. A container whose extraction raises is `Malformed`. */
module Parser {
  import opened Wrappers
  import opened Text
  import opened Utils
  import opened Types
  import opened Collections

  type Selector = string

  datatype Element = Element(text: string, attrs: map<string, string>)

  datatype Container = Container(matches: map<Selector, Element>) | Malformed

  const TitleSelectors: seq<Selector> :=
    ["h2 a span", ".a-size-base-plus", ".a-size-medium", ".a-size-base",
     "[data-cy=\"title-recipe-title\"]"]
  const PriceSelectors: seq<Selector> :=
    [".a-price .a-offscreen", ".a-price-whole", ".a-price-range", ".a-price"]
  const RatingSelectors: seq<Selector> :=
    [".a-icon-alt", ".a-icon-rating", "[aria-label*=\"stars\"]"]
  const ImageSelectors: seq<Selector> :=
    [".s-image", ".a-dynamic-image", "img[data-image-latency]", "img"]
  const LinkSelectors: seq<Selector> :=
    ["h2 a", ".a-link-normal", "a[href*=\"/dp/\"]"]
  const ReviewSelectors: seq<Selector> :=
    [".a-size-base", "[aria-label*=\"reviews\"]", "a[href*=\"#customerReviews\"]"]

  const Source := "amazon.sg"
  const NoTitle := "Unknown"

  /** `element.get(name)`, with a missing attribute read as "". */
  function Attr(e: Element, name: string): string {
    if name in e.attrs then e.attrs[name] else ""
  }

  // ---------------------------------------------------------------------------
  // The value each selector loop takes from a matched element; "" means the
  // loop moves on to the next selector.

  function TitleCandidate(e: Element): string {
    e.text
  }

  /** The aria-label when it mentions "out of" in any case, else the text. */
  function RatingCandidate(e: Element): (r: string)
    ensures r == Attr(e, "aria-label") || r == e.text
    ensures r != e.text ==> Contains(LowerStr(r), "out of")
    ensures Contains(LowerStr(Attr(e, "aria-label")), "out of") ==> r == Attr(e, "aria-label")
  {
    var aria := Attr(e, "aria-label");
    if Contains(LowerStr(aria), "out of") then aria else e.text
  }

  /** `src`, or `data-src` when `src` is missing or empty. */
  function ImageCandidate(e: Element): (r: string)
    ensures r == "" <==> Attr(e, "src") == "" && Attr(e, "data-src") == ""
    ensures Attr(e, "src") != "" ==> r == Attr(e, "src")
    ensures Attr(e, "src") == "" ==> r == Attr(e, "data-src")
  {
    if Attr(e, "src") != "" then Attr(e, "src") else Attr(e, "data-src")
  }

  function LinkCandidate(e: Element): string {
    Attr(e, "href")
  }

  /** Text that holds a number and the word "review" or "rating" in any case. */
  predicate IsReviewText(t: string) {
    HasDigit(t) && (Contains(LowerStr(t), "review") || Contains(LowerStr(t), "rating"))
  }

  /** The text when it qualifies as a review count, else "" so that the loop
      moves on. */
  function ReviewCandidate(e: Element): (r: string)
    ensures r != "" <==> IsReviewText(e.text)
    ensures r != "" ==> r == e.text
  {
    if IsReviewText(e.text) then e.text else ""
  }

  // ---------------------------------------------------------------------------
  // "First selector that yields a value" (title, rating, image, link, reviews)

  predicate Hit(m: map<Selector, Element>, sel: Selector, f: Element -> string) {
    sel in m && f(m[sel]) != ""
  }

  /** The first position at or after `p` whose selector yields a value, or
      `|sels|` when none does. */
  function FirstHit(m: map<Selector, Element>, sels: seq<Selector>, f: Element -> string,
                    p: nat): (k: nat)
    requires p <= |sels|
    ensures p <= k <= |sels|
    ensures k < |sels| ==> Hit(m, sels[k], f)
    ensures forall j :: p <= j < k ==> !Hit(m, sels[j], f)
    decreases |sels| - p
  {
    if p == |sels| || Hit(m, sels[p], f) then p else FirstHit(m, sels, f, p + 1)
  }

  /** The value of the first selector that yields one, or "" when none does. */
  function FirstValue(m: map<Selector, Element>, sels: seq<Selector>, f: Element -> string)
    : (r: string)
    ensures r == "" <==> forall j :: 0 <= j < |sels| ==> !Hit(m, sels[j], f)
    ensures r != "" ==> exists j :: 0 <= j < |sels| && sels[j] in m && f(m[sels[j]]) == r
  {
    var k := FirstHit(m, sels, f, 0);
    if k < |sels| then f(m[sels[k]]) else ""
  }

  /** The selector loop with `break` on the first value. */
  method ResolveFirst(m: map<Selector, Element>, sels: seq<Selector>, f: Element -> string)
      returns (raw: string)
    ensures raw == FirstValue(m, sels, f)
  {
    raw := "";
    var i := 0;
    while i < |sels|
      invariant 0 <= i <= |sels|
      invariant forall j :: 0 <= j < i ==> !Hit(m, sels[j], f)
      invariant raw == ""
    {
      if sels[i] in m {
        var v := f(m[sels[i]]);
        if v != "" {
          raw := v;
          break;
        }
      }
      i := i + 1;
    }
  }

  // ---------------------------------------------------------------------------
  // Price: every matched element overwrites the text; the loop stops at a
  // text containing "S$".

  function PriceFrom(m: map<Selector, Element>, sels: seq<Selector>, p: nat, acc: string)
    : (r: string)
    requires p <= |sels|
    ensures r == acc || exists j :: p <= j < |sels| && sels[j] in m && r == m[sels[j]].text
    ensures (forall j :: p <= j < |sels| ==> sels[j] !in m) ==> r == acc
    decreases |sels| - p
  {
    if p == |sels| then acc
    else if sels[p] in m then
      var t := m[sels[p]].text;
      if Contains(t, "S$") then t else PriceFrom(m, sels, p + 1, t)
    else PriceFrom(m, sels, p + 1, acc)
  }

  predicate HasCurrency(m: map<Selector, Element>, sel: Selector) {
    sel in m && Contains(m[sel].text, "S$")
  }

  /** When some matched text contains "S$", the first such text is the price. */
  lemma {:induction false} PriceStopsAtCurrency(m: map<Selector, Element>, sels: seq<Selector>,
                                                p: nat, acc: string, k: nat)
    requires p <= k < |sels| && HasCurrency(m, sels[k])
    requires forall j :: p <= j < k ==> !HasCurrency(m, sels[j])
    ensures PriceFrom(m, sels, p, acc) == m[sels[k]].text
    decreases k - p
  {
    if p < k {
      var next := if sels[p] in m then m[sels[p]].text else acc;
      PriceStopsAtCurrency(m, sels, p + 1, next, k);
    }
  }

  /** When no matched text contains "S$", the last matched text is the price,
      even an empty one; with no match at all, the price is what came before. */
  lemma {:induction false} PriceFallsBackToLast(m: map<Selector, Element>, sels: seq<Selector>,
                                                p: nat, acc: string)
    requires p <= |sels|
    requires forall j :: p <= j < |sels| ==> !HasCurrency(m, sels[j])
    ensures (forall j :: p <= j < |sels| ==> sels[j] !in m) ==> PriceFrom(m, sels, p, acc) == acc
    ensures forall k :: p <= k < |sels| && sels[k] in m
                        && (forall j :: k < j < |sels| ==> sels[j] !in m)
                        ==> PriceFrom(m, sels, p, acc) == m[sels[k]].text
    decreases |sels| - p
  {
    if p < |sels| {
      var next := if sels[p] in m then m[sels[p]].text else acc;
      PriceFallsBackToLast(m, sels, p + 1, next);
    }
  }

  /** The price selector loop. */
  method ResolvePrice(m: map<Selector, Element>, sels: seq<Selector>) returns (raw: string)
    ensures raw == PriceFrom(m, sels, 0, "")
  {
    raw := "";
    var i := 0;
    while i < |sels|
      invariant 0 <= i <= |sels|
      invariant PriceFrom(m, sels, 0, "") == PriceFrom(m, sels, i, raw)
    {
      if sels[i] in m {
        raw := m[sels[i]].text;
        if Contains(raw, "S$") {
          break;
        }
      }
      i := i + 1;
    }
  }

  // ---------------------------------------------------------------------------
  // re.search(r'(\d+\.?\d*)\s*out of', text)

  /** The pattern matches at the start of `u`: the number there is followed,
      after any whitespace, by "out of". */
  predicate OutOfAfterNumber(u: string)
    requires u != [] && IsDigit(u[0])
  {
    var m := DecimalPrefix(u);
    StartsWith(TrimStart(u[m.len..]), "out of")
  }

  /** The pattern matches at position `j`. */
  predicate RatingAt(s: string, j: nat) {
    j < |s| && IsDigit(s[j]) && OutOfAfterNumber(s[j..])
  }

  /** The number captured by a match at `j`, as `float()` reads it. */
  function RatingValueAt(s: string, j: nat): real
    requires j < |s| && IsDigit(s[j])
  {
    var m := DecimalPrefix(s[j..]);
    DecimalValue(m.whole, m.frac)
  }

  /** Whether the pattern matches, position by position. */
  function MatchFlags(s: string): (ms: seq<bool>)
    ensures |ms| == |s| && forall j :: 0 <= j < |s| ==> ms[j] == RatingAt(s, j)
  {
    seq(|s|, j requires 0 <= j < |s| => RatingAt(s, j))
  }

  /** The first set flag at or after `i`, or `|ms|` when there is none. */
  function FirstSet(ms: seq<bool>, i: nat): (k: nat)
    requires i <= |ms|
    ensures i <= k <= |ms|
    ensures k < |ms| ==> ms[k]
    ensures forall j :: i <= j < k ==> !ms[j]
    decreases |ms| - i
  {
    if i == |ms| || ms[i] then i else FirstSet(ms, i + 1)
  }

  /** Where the search finds its match when it starts looking at `i`: the
      leftmost matching position, or `|s|` when there is none. */
  function FirstRatingFrom(s: string, i: nat): (k: nat)
    requires i <= |s|
    ensures i <= k <= |s|
    ensures k < |s| ==> RatingAt(s, k)
    ensures forall j :: i <= j < k ==> !RatingAt(s, j)
  {
    FirstSet(MatchFlags(s), i)
  }

  /** The rating number: `None` exactly when the pattern matches nowhere in
      the text; otherwise the number at the leftmost match, in a text that
      contains "out of". */
  function RatingNumber(s: string): (r: Option<real>)
    ensures r.None? <==> forall j :: 0 <= j < |s| ==> !RatingAt(s, j)
    ensures r.Some? ==>
              exists k :: 0 <= k < |s| && RatingAt(s, k) && r.value == RatingValueAt(s, k)
                          && forall j :: 0 <= j < k ==> !RatingAt(s, j)
    ensures r.Some? ==> r.value >= 0.0 && Contains(s, "out of")
  {
    var k := FirstRatingFrom(s, 0);
    if k == |s| then None
    else
      OutOfAtContains(s, k);
      Some(RatingValueAt(s, k))
  }

  /** Text that starts, after whitespace, at `k0` with `sub` contains `sub`. */
  lemma ContainsAfterSpaces(s: string, k0: nat, sub: string)
    requires k0 <= |s| && StartsWith(TrimStart(s[k0..]), sub)
    ensures Contains(s, sub)
  {
    var a := s[k0..];
    var t := TrimStart(a);
    var k := k0 + (|a| - |t|);
    assert t == s[k..];
    assert s[k..k + |sub|] == t[..|sub|];
    ContainsAt(s, sub, k);
  }

  lemma OutOfAtContains(s: string, i: nat)
    requires RatingAt(s, i)
    ensures Contains(s, "out of")
  {
    var u := s[i..];
    ContainsAfterSpaces(u, DecimalPrefix(u).len, "out of");
    ContainsInSuffix(s, i, "out of");
  }


  /** What follows `d.frac` in `d + "." + frac + tail` is `tail`. */
  lemma AfterDecimalLiteral(s: string, d: string, frac: string, tail: string)
    requires s == d + ("." + (frac + tail))
    ensures |d| + 1 + |frac| <= |s| && s[|d| + 1 + |frac|..] == tail
  {
    SuffixAfter(s, 0, d, "." + (frac + tail));
    SuffixAfter(s, |d|, ".", frac + tail);
    SuffixAfter(s, |d| + 1, frac, tail);
  }

  /** A match right after a prefix without digits is the leftmost one. */
  lemma RatingAfterPrefix(s: string, pre: string, u: string, m: DecimalMatch, tail: string)
    requires !HasDigit(pre) && s == pre + u
    requires u != [] && IsDigit(u[0]) && m == DecimalPrefix(u)
    requires m.len <= |u| && u[m.len..] == tail && StartsWith(TrimStart(tail), "out of")
    ensures RatingNumber(s) == Some(DecimalValue(m.whole, m.frac))
  {
    var k := |pre|;
    assert s[k..] == u;
    MatchAt(s, k, u, m, tail);
    NoMatchBefore(s, pre, u);
    LeftmostMatch(s, k);
  }

  lemma MatchAt(s: string, k: nat, u: string, m: DecimalMatch, tail: string)
    requires k <= |s| && s[k..] == u
    requires u != [] && IsDigit(u[0]) && m == DecimalPrefix(u)
    requires m.len <= |u| && u[m.len..] == tail && StartsWith(TrimStart(tail), "out of")
    ensures RatingAt(s, k) && RatingValueAt(s, k) == DecimalValue(m.whole, m.frac)
  {
    assert IsDigit(s[k]) by {
      assert s[k] == u[0];
    }
    assert OutOfAfterNumber(u);
  }

  lemma NoMatchBefore(s: string, pre: string, u: string)
    requires !HasDigit(pre) && s == pre + u
    ensures forall j :: 0 <= j < |pre| ==> !RatingAt(s, j)
  {
    forall j | 0 <= j < |pre|
      ensures !IsDigit(s[j])
    {
      assert s[j] == pre[j];
    }
  }

  /** A match with none before it is the one the search reports. */
  lemma LeftmostMatch(s: string, k: nat)
    requires RatingAt(s, k) && forall j :: 0 <= j < k ==> !RatingAt(s, j)
    ensures RatingNumber(s) == Some(RatingValueAt(s, k))
  {
    assert FirstRatingFrom(s, 0) == k;
  }

  /** "Rated 4.5 out of 5": after a prefix without digits, `d.frac` followed,
      after any whitespace, by "out of" reads as the value of `d.frac`. */
  lemma RatingOfDecimal(s: string, pre: string, d: string, frac: string, tail: string)
    requires !HasDigit(pre)
    requires d != [] && AllDigits(d) && AllDigits(frac)
    requires tail == [] || !IsDigit(tail[0])
    requires StartsWith(TrimStart(tail), "out of")
    requires s == pre + (d + ("." + (frac + tail)))
    ensures RatingNumber(s) == Some(DecimalValue(d, frac))
  {
    var u := d + ("." + (frac + tail));
    var m := DecimalLiteralMatch(u, d, frac, tail);
    RatingAfterPrefix(s, pre, u, m, tail);
  }

  /** The match on `d.frac` + `tail`, and what follows it. */
  lemma DecimalLiteralMatch(u: string, d: string, frac: string, tail: string)
      returns (m: DecimalMatch)
    requires d != [] && AllDigits(d) && AllDigits(frac)
    requires tail == [] || !IsDigit(tail[0])
    requires u == d + ("." + (frac + tail))
    ensures u != [] && IsDigit(u[0]) && m == DecimalPrefix(u)
    ensures m.whole == d && m.frac == frac
    ensures m.len <= |u| && u[m.len..] == tail
  {
    m := DecimalMatch(d, frac, |d| + 1 + |frac|);
    DecimalOfLiteral(u, d, frac, tail);
    AfterDecimalLiteral(u, d, frac, tail);
  }

  /** "4 out of 5 stars": after a prefix without digits, an integer without a
      point followed, after any whitespace, by "out of" reads as that integer. */
  lemma RatingOfInteger(s: string, pre: string, d: string, tail: string)
    requires !HasDigit(pre)
    requires d != [] && AllDigits(d)
    requires tail == [] || (!IsDigit(tail[0]) && tail[0] != '.')
    requires StartsWith(TrimStart(tail), "out of")
    requires s == pre + (d + tail)
    ensures RatingNumber(s) == Some(DigitsValue(d) as real)
  {
    var u := d + tail;
    var m := DecimalMatch(d, [], |d|);
    assert u != [] && IsDigit(u[0]) && m == DecimalPrefix(u) && m.len <= |u| && u[m.len..] == tail by {
      DecimalOfInteger(u, d, tail);
      assert u[|d|..] == tail;
    }
    RatingAfterPrefix(s, pre, u, m, tail);
    DecimalValueWholeOnly(d, []);
  }

  /** One space, then "out of". */
  lemma OutOfAfterSpace(tail: string, more: string)
    requires tail == " " + ("out of" + more)
    ensures StartsWith(TrimStart(tail), "out of")
  {
    var u := "out of" + more;
    assert u[0] == 'o';
    SpaceThenWord(tail, u);
    assert u[..|"out of"|] == "out of";
  }

  lemma SpaceThenWord(tail: string, u: string)
    requires tail == " " + u && u != [] && !IsSpace(u[0])
    ensures TrimStart(tail) == u
  {
    assert tail[1..] == u;
  }

  lemma DecimalValueExample()
    ensures DecimalValue("4", "5") == 4.5
  {
    assert DigitsValue("4") == 4 && DigitsValue("5") == 5 && Pow10(1) == 10;
    assert 4.0 + 5.0 / 10.0 == 4.5;
  }

  /** "4.5 out of 5 stars" reads as 4.5. */
  lemma RatingExample(s: string)
    requires s == "4" + ("." + ("5" + (" " + ("out of" + " 5 stars"))))
    ensures RatingNumber(s) == Some(4.5)
  {
    var tail := " " + ("out of" + " 5 stars");
    OutOfAfterSpace(tail, " 5 stars");
    assert s == "" + ("4" + ("." + ("5" + tail)));
    RatingOfDecimal(s, "", "4", "5", tail);
    assert RatingNumber(s) == Some(DecimalValue("4", "5"));
    DecimalValueExample();
  }

  /** A badge without a figure has no rating number. */
  lemma RatingExampleNone(s: string)
    requires s == "Bestseller"
    ensures RatingNumber(s) == None
  {
    assert !HasDigit(s) by {
      forall i | 0 <= i < |s| ensures !IsDigit(s[i]) {}
    }
  }

  // ---------------------------------------------------------------------------
  // int(re.search(r'(\d+(?:,\d+)*)', text).group(1).replace(',', ''))

  /** The digits of the comma-grouped number at the start of `u`, without
      the commas. */
  function GroupedDigits(u: string): (r: string)
    requires u != [] && IsDigit(u[0])
    ensures r != [] && AllDigits(r)
    ensures DigitPrefix(u) <= r && |r| <= |u|
    decreases |u|
  {
    var d := DigitPrefix(u);
    var rest := u[|d|..];
    if |rest| >= 2 && rest[0] == ',' && IsDigit(rest[1]) then d + GroupedDigits(rest[1..])
    else d
  }

  function ReviewNumber(s: string): (r: Option<int>)
    ensures r.Some? <==> HasDigit(s)
    ensures r.Some? ==> r.value >= 0
  {
    var i := FirstDigitFrom(s, 0);
    if i == |s| then None else Some(DigitsValue(GroupedDigits(s[i..])))
  }

  /** How the digit run at the start of `u = d + rest` continues: into the next
      group when a comma and a digit follow, else not at all. */
  lemma GroupedDigitsSplit(u: string, d: string, rest: string)
    requires d != [] && AllDigits(d) && (rest == [] || !IsDigit(rest[0]))
    requires u == d + rest
    ensures u != [] && IsDigit(u[0])
    ensures GroupedDigits(u)
            == if |rest| >= 2 && rest[0] == ',' && IsDigit(rest[1])
               then d + GroupedDigits(rest[1..]) else d
  {
    assert u[0] == d[0];
    DigitPrefixOf(u, d, rest);
    SuffixAfter(u, 0, d, rest);
    assert u[0..] == u;
  }

  /** `",".join(gs)`: digit groups written with thousands separators. */
  function JoinGroups(gs: seq<string>): string
    requires gs != []
    decreases |gs|
  {
    if |gs| == 1 then gs[0] else gs[0] + ("," + JoinGroups(gs[1..]))
  }

  /** `"".join(gs)`: the same groups with the separators removed. */
  function ConcatGroups(gs: seq<string>): string
    decreases |gs|
  {
    if gs == [] then [] else gs[0] + ConcatGroups(gs[1..])
  }

  predicate DigitGroups(gs: seq<string>) {
    forall i :: 0 <= i < |gs| ==> gs[i] != [] && AllDigits(gs[i])
  }

  /** What follows a grouped number without extending it: neither a digit
      nor a comma followed by a digit. */
  predicate EndsNumber(tail: string) {
    tail == [] || (!IsDigit(tail[0]) && !(|tail| >= 2 && tail[0] == ',' && IsDigit(tail[1])))
  }

  /** On digit groups joined by commas, `(\d+(?:,\d+)*)` takes every group. */
  lemma {:induction false} GroupedDigitsOfGroups(gs: seq<string>, tail: string)
    requires gs != [] && DigitGroups(gs) && EndsNumber(tail)
    ensures JoinGroups(gs) + tail != [] && IsDigit((JoinGroups(gs) + tail)[0])
    ensures GroupedDigits(JoinGroups(gs) + tail) == ConcatGroups(gs)
    decreases |gs|
  {
    if |gs| == 1 {
      OneGroup(gs, tail);
    } else {
      DigitGroupsRest(gs);
      GroupedDigitsOfGroups(gs[1..], tail);
      NextGroup(gs, tail);
    }
  }

  lemma OneGroup(gs: seq<string>, tail: string)
    requires |gs| == 1 && DigitGroups(gs) && EndsNumber(tail)
    ensures JoinGroups(gs) + tail != [] && IsDigit((JoinGroups(gs) + tail)[0])
    ensures GroupedDigits(JoinGroups(gs) + tail) == ConcatGroups(gs)
  {
    var u := JoinGroups(gs) + tail;
    assert u == gs[0] + tail;
    GroupedDigitsSplit(u, gs[0], tail);
    assert ConcatGroups(gs) == gs[0] + ConcatGroups(gs[1..]);
    assert gs[0] + [] == gs[0];
  }

  /** The first group, then a comma and what the remaining groups give. */
  lemma NextGroup(gs: seq<string>, tail: string)
    requires |gs| >= 2 && DigitGroups(gs)
    requires JoinGroups(gs[1..]) + tail != [] && IsDigit((JoinGroups(gs[1..]) + tail)[0])
    requires GroupedDigits(JoinGroups(gs[1..]) + tail) == ConcatGroups(gs[1..])
    ensures JoinGroups(gs) + tail != [] && IsDigit((JoinGroups(gs) + tail)[0])
    ensures GroupedDigits(JoinGroups(gs) + tail) == ConcatGroups(gs)
  {
    var v := JoinGroups(gs[1..]) + tail;
    JoinGroupsCons(gs, tail);
    GroupThenRest(JoinGroups(gs) + tail, gs[0], v, ConcatGroups(gs[1..]));
  }

  lemma JoinGroupsCons(gs: seq<string>, tail: string)
    requires |gs| >= 2
    ensures JoinGroups(gs) + tail == gs[0] + ("," + (JoinGroups(gs[1..]) + tail))
  {
    var j := JoinGroups(gs[1..]);
    assert JoinGroups(gs) == gs[0] + ("," + j);
    ConcatAssoc(gs[0], "," + j, tail);
    ConcatAssoc(",", j, tail);
  }

  lemma GroupThenRest(u: string, g: string, v: string, c: string)
    requires g != [] && AllDigits(g) && v != [] && IsDigit(v[0]) && GroupedDigits(v) == c
    requires u == g + ("," + v)
    ensures u != [] && IsDigit(u[0]) && GroupedDigits(u) == g + c
  {
    var rest := "," + v;
    GroupedDigitsSplit(u, g, rest);
    assert rest[1..] == v;
  }

  lemma DigitGroupsRest(gs: seq<string>)
    requires gs != [] && DigitGroups(gs)
    ensures DigitGroups(gs[1..])
  {
    forall i | 0 <= i < |gs[1..]|
      ensures gs[1..][i] != [] && AllDigits(gs[1..][i])
    {
      assert gs[1..][i] == gs[i + 1];
    }
  }

  /** "523 ratings", "(1,234)", "1,234,567 reviews": after a prefix without
      digits, one or more comma-separated digit groups followed by anything
      that does not extend them count the groups' digits. */
  lemma ReviewOfGroups(s: string, pre: string, gs: seq<string>, tail: string)
    requires !HasDigit(pre) && gs != [] && DigitGroups(gs) && EndsNumber(tail)
    requires s == pre + (JoinGroups(gs) + tail)
    ensures AllDigits(ConcatGroups(gs))
    ensures ReviewNumber(s) == Some(DigitsValue(ConcatGroups(gs)))
  {
    var u := JoinGroups(gs) + tail;
    GroupedDigitsOfGroups(gs, tail);
    FirstDigitAfter(pre, u);
    assert s[|pre|..] == u;
  }

  /** "(1,234)" counts 1234. */
  lemma ReviewExample(s: string)
    requires s == "(" + ("1" + ("," + "234") + ")")
    ensures ReviewNumber(s) == Some(1234)
  {
    var gs := ["1", "234"];
    assert gs[1..] == ["234"];
    assert JoinGroups(gs) == "1" + ("," + "234");
    assert ConcatGroups(gs) == "1234" by {
      assert ConcatGroups(gs[1..]) == "234" + ConcatGroups(gs[1..][1..]);
      assert gs[1..][1..] == [];
    }
    assert !HasDigit("(") by {
      assert "("[0] == '(';
    }
    assert DigitGroups(gs) by {
      assert AllDigits("1") && AllDigits("234");
    }
    ReviewOfGroups(s, "(", gs, ")");
    DigitsValueExample();
  }

  lemma DigitsValueExample()
    ensures DigitsValue("1234") == 1234
  {
    assert DigitsValue("1") == 1;
    assert DigitsValue("12") == 12 by { assert "12"[..1] == "1"; }
    assert DigitsValue("123") == 123 by { assert "123"[..2] == "12"; }
    assert DigitsValue("1234") == 1234 by { assert "1234"[..3] == "123"; }
  }

  // ---------------------------------------------------------------------------
  // _extract_amazon_product_from_soup

  /** The product dictionary built from the raw value each selector loop
      left behind ("" where the loop found nothing). Apart from the title,
      the `if x else ""` guards change nothing: every helper already maps ""
      to "" or `None`. */
  function Assemble(now: string, baseUrl: string, title: string, price: string,
                    rating: string, image: string, link: string, review: string)
    : (p: ProductData)
    ensures p.extractedAt == now && p.source == Source
    ensures title == "" ==> p.title == NoTitle
    ensures title != "" ==> p.title == CleanText(title)
    ensures p.priceText == CleanText(price) && p.priceNumeric == ExtractPriceNumber(price)
    ensures p.ratingText == CleanText(rating) && p.ratingNumeric == RatingNumber(rating)
    ensures p.imageUrl == NormalizeUrl(image, baseUrl)
    ensures p.productUrl == NormalizeUrl(link, baseUrl)
    ensures p.reviewCountText == CleanText(review)
    ensures p.reviewCountNumeric == ReviewNumber(review)
  {
    EmptyField(baseUrl);
    ProductData(
      now,
      Source,
      if title != "" then CleanText(title) else NoTitle,
      if price != "" then CleanText(price) else "",
      if price != "" then ExtractPriceNumber(price) else None,
      if rating != "" then CleanText(rating) else "",
      if rating != "" then RatingNumber(rating) else None,
      if image != "" then NormalizeUrl(image, baseUrl) else "",
      if link != "" then NormalizeUrl(link, baseUrl) else "",
      if review != "" then CleanText(review) else "",
      if review != "" then ReviewNumber(review) else None)
  }

  /** Every helper maps an empty raw value to the empty field. */
  lemma EmptyField(baseUrl: string)
    ensures CleanText("") == "" && NormalizeUrl("", baseUrl) == ""
    ensures ExtractPriceNumber("") == None && RatingNumber("") == None
    ensures ReviewNumber("") == None
  {
    assert !HasDigit("");
  }

  /** A product is kept when it has a title or a price text. */
  function Accept(p: ProductData): (r: Option<ProductData>)
    ensures r.Some? <==> p.title != NoTitle || p.priceText != ""
    ensures r.Some? ==> r.value == p
  {
    if p.title != NoTitle || p.priceText != "" then Some(p) else None
  }

  function ExtractSpec(c: Container, now: string, baseUrl: string): Option<ProductData> {
    match c
    case Malformed => None
    case Container(m) =>
      Accept(Assemble(now, baseUrl,
                      FirstValue(m, TitleSelectors, TitleCandidate),
                      PriceFrom(m, PriceSelectors, 0, ""),
                      FirstValue(m, RatingSelectors, RatingCandidate),
                      FirstValue(m, ImageSelectors, ImageCandidate),
                      FirstValue(m, LinkSelectors, LinkCandidate),
                      FirstValue(m, ReviewSelectors, ReviewCandidate)))
  }

  /** The fields of an assembled product: the cleaned texts are in
      `clean_text`'s output form, a number is present exactly when its text
      holds a digit, and the review number exactly when there is review text. */
  lemma AssembledFields(now: string, baseUrl: string, title: string, price: string,
                        rating: string, image: string, link: string, review: string,
                        p: ProductData)
    requires review == "" || IsReviewText(review)
    requires p == Assemble(now, baseUrl, title, price, rating, image, link, review)
    ensures p.extractedAt == now && p.source == Source
    ensures p.title == NoTitle || Cleaned(p.title)
    ensures Cleaned(p.priceText) && Cleaned(p.ratingText) && Cleaned(p.reviewCountText)
    ensures p.priceNumeric.Some? <==> HasDigit(p.priceText)
    ensures p.priceNumeric.Some? ==> p.priceNumeric.value >= 0.0
    ensures p.ratingNumeric.Some? ==> HasDigit(p.ratingText) && p.ratingNumeric.value >= 0.0
    ensures p.reviewCountNumeric.Some? <==> p.reviewCountText != ""
    ensures p.reviewCountNumeric.Some? ==> p.reviewCountNumeric.value >= 0
  {
    CleanTextHasDigit(price);
    CleanTextHasDigit(rating);
    CleanTextHasDigit(review);
  }

  /** A review text chosen by the review loop holds a number and the word
      "review" or "rating". */
  lemma ReviewValueQualifies(m: map<Selector, Element>, sels: seq<Selector>)
    ensures FirstValue(m, sels, ReviewCandidate) == ""
            || IsReviewText(FirstValue(m, sels, ReviewCandidate))
  {
    var r := FirstValue(m, sels, ReviewCandidate);
    if r != "" {
      var j :| 0 <= j < |sels| && sels[j] in m && ReviewCandidate(m[sels[j]]) == r;
    }
  }

  /** Every product the extraction returns is stamped with the time and the
      site, has a title or a price text, and has the field shapes above. */
  lemma ExtractedRecord(c: Container, now: string, baseUrl: string, p: ProductData)
    requires ExtractSpec(c, now, baseUrl) == Some(p)
    ensures p.extractedAt == now && p.source == Source
    ensures p.title != NoTitle || p.priceText != ""
    ensures p.title == NoTitle || Cleaned(p.title)
    ensures Cleaned(p.priceText) && Cleaned(p.ratingText) && Cleaned(p.reviewCountText)
    ensures p.priceNumeric.Some? <==> HasDigit(p.priceText)
    ensures p.ratingNumeric.Some? ==> HasDigit(p.ratingText)
    ensures p.reviewCountNumeric.Some? <==> p.reviewCountText != ""
  {
    var m := c.matches;
    ReviewValueQualifies(m, ReviewSelectors);
    AssembledFields(now, baseUrl,
                    FirstValue(m, TitleSelectors, TitleCandidate),
                    PriceFrom(m, PriceSelectors, 0, ""),
                    FirstValue(m, RatingSelectors, RatingCandidate),
                    FirstValue(m, ImageSelectors, ImageCandidate),
                    FirstValue(m, LinkSelectors, LinkCandidate),
                    FirstValue(m, ReviewSelectors, ReviewCandidate), p);
  }

  method ExtractAmazonProduct(c: Container, now: string, baseUrl: string)
      returns (r: Option<ProductData>)
    ensures r == ExtractSpec(c, now, baseUrl)
  {
    if c.Malformed? {
      return None;
    }
    var m := c.matches;
    var title := ResolveFirst(m, TitleSelectors, TitleCandidate);
    var price := ResolvePrice(m, PriceSelectors);
    var rating := ResolveFirst(m, RatingSelectors, RatingCandidate);
    var image := ResolveFirst(m, ImageSelectors, ImageCandidate);
    var link := ResolveFirst(m, LinkSelectors, LinkCandidate);
    var review := ResolveFirst(m, ReviewSelectors, ReviewCandidate);
    r := Accept(Assemble(now, baseUrl, title, price, rating, image, link, review));
  }

  function ExtractWith(now: string, baseUrl: string): Container -> Option<ProductData> {
    c => ExtractSpec(c, now, baseUrl)
  }

  /** `html_parser`: the accepted products of the page, in container order. */
  method HtmlParser(containers: seq<Container>, now: string, baseUrl: string)
      returns (products: seq<ProductData>)
    ensures products == FilterMap(containers, ExtractWith(now, baseUrl))
  {
    products := [];
    var i := 0;
    while i < |containers|
      invariant 0 <= i <= |containers|
      invariant products == FilterMap(containers[..i], ExtractWith(now, baseUrl))
    {
      var p := ExtractAmazonProduct(containers[i], now, baseUrl);
      FilterMapStep(containers, i, ExtractWith(now, baseUrl), p);
      if p.Some? {
        products := products + [p.value];
      }
      i := i + 1;
    }
    assert containers[..i] == containers;
  }
}
