/** `DataProcessor` of `src/processor.py`: the validation pass that drops
    records without a usable title and normalises the rest, and the data
    quality report computed over the validated records. */
module Processor {
  import opened Wrappers
  import opened Text
  import opened Utils
  import opened Types
  import opened Collections
  import Parser

  // ---------------------------------------------------------------------------
  // validate_products

  /** A product dictionary as the validator reads it: `None` stands for a key
      that is missing or holds `None`. */
  datatype RawRecord = RawRecord(
    extractedAt: Option<string>,
    source: Option<string>,
    title: Option<string>,
    priceText: Option<string>,
    priceNumeric: Option<real>,
    ratingText: Option<string>,
    ratingNumeric: Option<real>,
    imageUrl: Option<string>,
    productUrl: Option<string>,
    reviewCountText: Option<string>,
    reviewCountNumeric: Option<int>)

  const DefaultSource := "amazon.sg"

  /** `safe_strip`: the stripped string, or "" for `None`. */
  function SafeStrip(v: Option<string>): (r: string)
    ensures r == [] || (!IsSpace(r[0]) && !IsSpace(r[|r| - 1]))
    ensures v.None? ==> r == ""
    ensures v.Some? && (v.value == [] || (!IsSpace(v.value[0]) && !IsSpace(v.value[|v.value| - 1])))
            ==> r == v.value
  {
    if v.Some? then Strip(v.value) else ""
  }

  /** The title check: present, non-empty, and not the "Unknown" placeholder.
      It looks at the title before it is stripped. */
  predicate HasUsableTitle(r: RawRecord) {
    r.title.Some? && r.title.value != "" && r.title.value != "Unknown"
  }

  /** The validated dictionary for one record, or `None` when it is skipped:
      kept exactly when the title is usable, and then built field by field from
      the record. */
  function Validate(r: RawRecord, now: string): (v: Option<ProductData>)
    ensures v.Some? <==> HasUsableTitle(r)
    ensures v.Some? ==> ValidatedFrom(v.value, r, now)
  {
    if !HasUsableTitle(r) then None
    else
      Some(ProductData(
        r.extractedAt.GetOr(now),
        r.source.GetOr(DefaultSource),
        SafeStrip(r.title),
        SafeStrip(r.priceText),
        r.priceNumeric,
        SafeStrip(r.ratingText),
        r.ratingNumeric,
        SafeStrip(r.imageUrl),
        SafeStrip(r.productUrl),
        SafeStrip(r.reviewCountText),
        r.reviewCountNumeric))
  }

  function ValidateWith(now: string): RawRecord -> Option<ProductData> {
    r => Validate(r, now)
  }

  /** `validate_products`: the loop that skips records without a usable title
      and appends the validated form of the others. */
  method ValidateProducts(products: seq<RawRecord>, now: string)
      returns (validated: seq<ProductData>)
    ensures validated == FilterMap(products, ValidateWith(now))
  {
    validated := [];
    var i := 0;
    while i < |products|
      invariant 0 <= i <= |products|
      invariant validated == FilterMap(products[..i], ValidateWith(now))
    {
      var product := products[i];
      FilterMapStep(products, i, ValidateWith(now), Validate(product, now));
      if !HasUsableTitle(product) {
        i := i + 1;
        continue;
      }
      var v := Validate(product, now);
      validated := validated + [v.value];
      i := i + 1;
    }
    assert products[..i] == products;
  }

  /** The validated list holds one record per input record with a usable
      title, in input order (`idx` gives their positions), each with the
      numbers copied, the title stripped, and the defaults for the time stamp
      and the site filled in. */
  lemma ValidateProductsKeepsExactly(products: seq<RawRecord>, now: string)
      returns (idx: seq<nat>)
    ensures var out := FilterMap(products, ValidateWith(now));
            |idx| == |out|
            && (forall k :: 0 <= k < |idx| ==> idx[k] < |products|)
            && (forall k, l :: 0 <= k < l < |idx| ==> idx[k] < idx[l])
            && (forall i :: 0 <= i < |products| ==> (HasUsableTitle(products[i]) <==> i in idx))
            && (forall k :: 0 <= k < |idx| ==> ValidatedFrom(out[k], products[idx[k]], now))
  {
    idx := FilterMapIndices(products, ValidateWith(now));
    var out := FilterMap(products, ValidateWith(now));
    forall k | 0 <= k < |idx|
      ensures ValidatedFrom(out[k], products[idx[k]], now)
    {
      assert Validate(products[idx[k]], now) == Some(out[k]);
    }
  }

  /** `v` is the validated form of `r`. */
  predicate ValidatedFrom(v: ProductData, r: RawRecord, now: string) {
    HasUsableTitle(r)
    && v.title == Strip(r.title.value)
    && v.extractedAt == r.extractedAt.GetOr(now)
    && v.source == r.source.GetOr(DefaultSource)
    && v.priceNumeric == r.priceNumeric
    && v.ratingNumeric == r.ratingNumeric
    && v.reviewCountNumeric == r.reviewCountNumeric
    && v.priceText == SafeStrip(r.priceText)
    && v.ratingText == SafeStrip(r.ratingText)
    && v.imageUrl == SafeStrip(r.imageUrl)
    && v.productUrl == SafeStrip(r.productUrl)
    && v.reviewCountText == SafeStrip(r.reviewCountText)
  }

  lemma StripAllSpace(s: string)
    requires AllSpace(s)
    ensures Strip(s) == ""
  {
  }

  /** The title check comes before stripping: a title made only of whitespace
      passes it and comes out empty. */
  lemma BlankTitleKept(r: RawRecord, now: string)
    requires r.title.Some? && r.title.value != "" && AllSpace(r.title.value)
    ensures Validate(r, now).Some? && Validate(r, now).value.title == ""
  {
    var t := r.title.value;
    assert t[0] in t;
    StripAllSpace(t);
  }

  /** A parser product as a dictionary with every key present. */
  function FromProduct(p: ProductData): RawRecord {
    RawRecord(Some(p.extractedAt), Some(p.source), Some(p.title), Some(p.priceText),
              p.priceNumeric, Some(p.ratingText), p.ratingNumeric, Some(p.imageUrl),
              Some(p.productUrl), Some(p.reviewCountText), p.reviewCountNumeric)
  }

  /** A record in the parser's output form survives validation exactly when
      it has a title; it comes out unchanged apart from its two links being
      stripped, and its title is then never empty nor "Unknown". */
  lemma ValidateCleanProduct(p: ProductData, later: string)
    requires p.title == Parser.NoTitle || Cleaned(p.title)
    requires Cleaned(p.priceText) && Cleaned(p.ratingText) && Cleaned(p.reviewCountText)
    ensures var v := Validate(FromProduct(p), later);
            (v.Some? <==> p.title != "" && p.title != "Unknown")
            && (v.Some? ==> v.value == p.(imageUrl := Strip(p.imageUrl),
                                          productUrl := Strip(p.productUrl)))
            && (v.Some? ==> v.value.title != "" && v.value.title != "Unknown")
  {
  }

  /** The same for every product the parser returns. */
  lemma ValidateParsedProduct(c: Parser.Container, now: string, baseUrl: string,
                              p: ProductData, later: string)
    requires Parser.ExtractSpec(c, now, baseUrl) == Some(p)
    ensures var v := Validate(FromProduct(p), later);
            (v.Some? <==> p.title != "" && p.title != "Unknown")
            && (v.Some? ==> v.value == p.(imageUrl := Strip(p.imageUrl),
                                          productUrl := Strip(p.productUrl)))
  {
    Parser.ExtractedRecord(c, now, baseUrl, p);
    ValidateCleanProduct(p, later);
  }

  /** The parsed products as the validator receives them. */
  function AsRecords(ps: seq<ProductData>): (rs: seq<RawRecord>)
    ensures |rs| == |ps| && forall i :: 0 <= i < |ps| ==> rs[i] == FromProduct(ps[i])
  {
    seq(|ps|, i requires 0 <= i < |ps| => FromProduct(ps[i]))
  }

  /** Parsing a page and validating the result never yields a record whose
      title is empty or "Unknown". */
  lemma ParsedThenValidatedTitles(containers: seq<Parser.Container>, now: string,
                                  baseUrl: string, later: string, v: ProductData)
    requires v in FilterMap(AsRecords(FilterMap(containers, Parser.ExtractWith(now, baseUrl))),
                            ValidateWith(later))
    ensures v.title != "" && v.title != "Unknown"
  {
    var ps := FilterMap(containers, Parser.ExtractWith(now, baseUrl));
    var i := FilterMapSource(AsRecords(ps), ValidateWith(later), v);
    assert Validate(FromProduct(ps[i]), later) == Some(v);
    var j := FilterMapSource(containers, Parser.ExtractWith(now, baseUrl), ps[i]);
    assert Parser.ExtractSpec(containers[j], now, baseUrl) == Some(ps[i]);
    Parser.ExtractedRecord(containers[j], now, baseUrl, ps[i]);
    ValidateCleanProduct(ps[i], later);
  }

  // ---------------------------------------------------------------------------
  // calculate_data_quality_metrics

  /** The value each field counts with, when it is truthy: a number other than
      0, a non-empty string, and for titles also not "Unknown". */
  function ValidTitle(p: ProductData): (r: Option<string>)
    ensures r.Some? <==> p.title != "" && p.title != "Unknown"
    ensures r.Some? ==> r.value == p.title
  {
    if p.title != "" && p.title != "Unknown" then Some(p.title) else None
  }

  function ValidPrice(p: ProductData): (r: Option<real>)
    ensures r.Some? <==> p.priceNumeric.Some? && p.priceNumeric.value != 0.0
    ensures r.Some? ==> r == p.priceNumeric
  {
    if p.priceNumeric.Some? && p.priceNumeric.value != 0.0 then p.priceNumeric else None
  }

  function ValidRating(p: ProductData): (r: Option<real>)
    ensures r.Some? <==> p.ratingNumeric.Some? && p.ratingNumeric.value != 0.0
    ensures r.Some? ==> r == p.ratingNumeric
  {
    if p.ratingNumeric.Some? && p.ratingNumeric.value != 0.0 then p.ratingNumeric else None
  }

  function ValidImage(p: ProductData): (r: Option<string>)
    ensures r.Some? <==> p.imageUrl != ""
    ensures r.Some? ==> r.value == p.imageUrl
  {
    if p.imageUrl != "" then Some(p.imageUrl) else None
  }

  function ValidUrl(p: ProductData): (r: Option<string>)
    ensures r.Some? <==> p.productUrl != ""
    ensures r.Some? ==> r.value == p.productUrl
  {
    if p.productUrl != "" then Some(p.productUrl) else None
  }

  function ValidReviews(p: ProductData): (r: Option<int>)
    ensures r.Some? <==> p.reviewCountNumeric.Some? && p.reviewCountNumeric.value != 0
    ensures r.Some? ==> r == p.reviewCountNumeric
  {
    if p.reviewCountNumeric.Some? && p.reviewCountNumeric.value != 0 then p.reviewCountNumeric
    else None
  }

  datatype FieldStats = FieldStats(validCount: nat, coveragePercentage: real)
  datatype RealRange = RealRange(min: real, max: real, avg: real)
  datatype CountRange = CountRange(min: int, max: int, total: int)

  datatype QualityMetrics = QualityMetrics(
    titles: FieldStats,
    prices: FieldStats,
    priceRange: Option<RealRange>,
    ratings: FieldStats,
    ratingRange: Option<RealRange>,
    images: FieldStats,
    productUrls: FieldStats,
    reviews: FieldStats,
    reviewRange: Option<CountRange>)

  /** `total_products`, and `quality_metrics`, which is empty (`None`) for an
      empty product list. */
  datatype QualityReport = QualityReport(totalProducts: nat, qualityMetrics: Option<QualityMetrics>)

  /** Valid count and coverage, as an exact percentage of the total. */
  function Coverage(valid: nat, total: nat): (r: FieldStats)
    requires 0 < total && valid <= total
    ensures r.validCount == valid
    ensures 0.0 <= r.coveragePercentage <= 100.0
    ensures r.coveragePercentage == 0.0 <==> valid == 0
    ensures r.coveragePercentage == 100.0 <==> valid == total
  {
    FieldStats(valid, valid as real / total as real * 100.0)
  }

  function SumReal(xs: seq<real>): real {
    if xs == [] then 0.0 else xs[0] + SumReal(xs[1..])
  }

  function SumInt(xs: seq<int>): int {
    if xs == [] then 0 else xs[0] + SumInt(xs[1..])
  }

  function MinReal(xs: seq<real>): (r: real)
    requires xs != []
    ensures r in xs && forall x :: x in xs ==> r <= x
  {
    if |xs| == 1 then xs[0]
    else
      var m := MinReal(xs[1..]);
      assert forall x :: x in xs ==> x == xs[0] || x in xs[1..];
      if xs[0] <= m then xs[0] else m
  }

  function MaxReal(xs: seq<real>): (r: real)
    requires xs != []
    ensures r in xs && forall x :: x in xs ==> x <= r
  {
    if |xs| == 1 then xs[0]
    else
      var m := MaxReal(xs[1..]);
      assert forall x :: x in xs ==> x == xs[0] || x in xs[1..];
      if xs[0] >= m then xs[0] else m
  }

  function MinInt(xs: seq<int>): (r: int)
    requires xs != []
    ensures r in xs && forall x :: x in xs ==> r <= x
  {
    if |xs| == 1 then xs[0]
    else
      var m := MinInt(xs[1..]);
      assert forall x :: x in xs ==> x == xs[0] || x in xs[1..];
      if xs[0] <= m then xs[0] else m
  }

  function MaxInt(xs: seq<int>): (r: int)
    requires xs != []
    ensures r in xs && forall x :: x in xs ==> x <= r
  {
    if |xs| == 1 then xs[0]
    else
      var m := MaxInt(xs[1..]);
      assert forall x :: x in xs ==> x == xs[0] || x in xs[1..];
      if xs[0] >= m then xs[0] else m
  }

  /** A sum of values between `lo` and `hi` lies between `n * lo` and `n * hi`. */
  lemma {:induction false} SumRealBounds(xs: seq<real>, lo: real, hi: real)
    requires forall x :: x in xs ==> lo <= x <= hi
    ensures |xs| as real * lo <= SumReal(xs) <= |xs| as real * hi
    decreases |xs|
  {
    if xs != [] {
      var rest := xs[1..];
      assert xs[0] in xs;
      assert forall x :: x in rest ==> x in xs;
      SumRealBounds(rest, lo, hi);
      var n := |rest| as real;
      assert |xs| as real * lo == n * lo + lo;
      assert |xs| as real * hi == n * hi + hi;
    }
  }

  /** min, max and the exact mean of the values; `None` for no values. */
  function RealRangeOf(xs: seq<real>): (r: Option<RealRange>)
    ensures r.None? <==> xs == []
    ensures r.Some? ==> r.value.min in xs && r.value.max in xs
    ensures r.Some? ==> forall x :: x in xs ==> r.value.min <= x <= r.value.max
    ensures r.Some? ==> r.value.avg * |xs| as real == SumReal(xs)
    ensures r.Some? ==> r.value.min <= r.value.avg <= r.value.max
  {
    if xs == [] then None
    else
      MeanWithin(xs, MinReal(xs), MaxReal(xs));
      DivTimes(SumReal(xs), |xs| as real);
      Some(RealRange(MinReal(xs), MaxReal(xs), SumReal(xs) / |xs| as real))
  }

  /** The mean of values within bounds is within the same bounds. */
  lemma MeanWithin(xs: seq<real>, lo: real, hi: real)
    requires xs != []
    requires forall x :: x in xs ==> lo <= x <= hi
    ensures lo <= SumReal(xs) / (|xs| as real) <= hi
  {
    SumRealBounds(xs, lo, hi);
    MeanBetween(SumReal(xs), |xs| as real, lo, hi);
  }

  lemma MeanBetween(s: real, n: real, lo: real, hi: real)
    requires n > 0.0 && n * lo <= s <= n * hi
    ensures lo <= s / n <= hi
  {
  }

  lemma DivTimes(s: real, n: real)
    requires n > 0.0
    ensures s / n * n == s
  {
  }

  /** min, max and total of the values; `None` for no values. */
  function CountRangeOf(xs: seq<int>): (r: Option<CountRange>)
    ensures r.None? <==> xs == []
    ensures r.Some? ==> r.value.min in xs && r.value.max in xs
    ensures r.Some? ==> forall x :: x in xs ==> r.value.min <= x <= r.value.max
    ensures r.Some? ==> r.value.total == SumInt(xs)
  {
    if xs == [] then None else Some(CountRange(MinInt(xs), MaxInt(xs), SumInt(xs)))
  }

  /** `calculate_data_quality_metrics`. */
  function CalculateDataQualityMetrics(products: seq<ProductData>): (r: QualityReport)
    ensures r.totalProducts == |products|
    ensures r.qualityMetrics.None? <==> products == []
    ensures r.qualityMetrics.Some? ==>
              var m := r.qualityMetrics.value;
              m.titles.validCount <= |products| && m.prices.validCount <= |products|
              && m.ratings.validCount <= |products| && m.images.validCount <= |products|
              && m.productUrls.validCount <= |products| && m.reviews.validCount <= |products|
              && 0.0 <= m.titles.coveragePercentage <= 100.0
              && 0.0 <= m.prices.coveragePercentage <= 100.0
              && 0.0 <= m.ratings.coveragePercentage <= 100.0
              && 0.0 <= m.images.coveragePercentage <= 100.0
              && 0.0 <= m.productUrls.coveragePercentage <= 100.0
              && 0.0 <= m.reviews.coveragePercentage <= 100.0
  {
    if products == [] then QualityReport(0, None)
    else
      var total := |products|;
      var prices := FilterMap(products, ValidPrice);
      var ratings := FilterMap(products, ValidRating);
      var reviews := FilterMap(products, ValidReviews);
      QualityReport(total, Some(QualityMetrics(
        Coverage(|FilterMap(products, ValidTitle)|, total),
        Coverage(|prices|, total),
        RealRangeOf(prices),
        Coverage(|ratings|, total),
        RealRangeOf(ratings),
        Coverage(|FilterMap(products, ValidImage)|, total),
        Coverage(|FilterMap(products, ValidUrl)|, total),
        Coverage(|reviews|, total),
        CountRangeOf(reviews))))
  }

  /** `r` is the range of the valid values `f` picks out of `products`: it
      exists exactly when some product has one, and then bounds all of them. */
  predicate RealSummary(r: Option<RealRange>, products: seq<ProductData>, f: ProductData -> Option<real>)
  {
    (r.None? <==> forall i :: 0 <= i < |products| ==> f(products[i]).None?)
    && (r.Some? ==>
          forall i :: 0 <= i < |products| && f(products[i]).Some? ==>
            r.value.min <= f(products[i]).value <= r.value.max)
  }

  predicate CountSummary(r: Option<CountRange>, products: seq<ProductData>, f: ProductData -> Option<int>)
  {
    (r.None? <==> forall i :: 0 <= i < |products| ==> f(products[i]).None?)
    && (r.Some? ==>
          forall i :: 0 <= i < |products| && f(products[i]).Some? ==>
            r.value.min <= f(products[i]).value <= r.value.max)
  }

  /** Over a product list, the range summarises the valid values and its
      ends are values of products. */
  lemma RealRangeOverProducts(products: seq<ProductData>, f: ProductData -> Option<real>)
    ensures var r := RealRangeOf(FilterMap(products, f));
            RealSummary(r, products, f)
            && (r.Some? ==> (exists i :: 0 <= i < |products| && f(products[i]) == Some(r.value.min))
                            && (exists i :: 0 <= i < |products| && f(products[i]) == Some(r.value.max)))
  {
    var xs := FilterMap(products, f);
    forall i | 0 <= i < |products| && f(products[i]).Some?
      ensures f(products[i]).value in xs
    {
      FilterMapIncludes(products, f, i);
    }
    if xs != [] {
      var r := RealRangeOf(xs).value;
      var i := FilterMapSource(products, f, xs[0]);
      var lo := FilterMapSource(products, f, r.min);
      var hi := FilterMapSource(products, f, r.max);
    }
  }

  lemma CountRangeOverProducts(products: seq<ProductData>, f: ProductData -> Option<int>)
    ensures var r := CountRangeOf(FilterMap(products, f));
            CountSummary(r, products, f)
            && (r.Some? ==> (exists i :: 0 <= i < |products| && f(products[i]) == Some(r.value.min))
                            && (exists i :: 0 <= i < |products| && f(products[i]) == Some(r.value.max)))
  {
    var xs := FilterMap(products, f);
    forall i | 0 <= i < |products| && f(products[i]).Some?
      ensures f(products[i]).value in xs
    {
      FilterMapIncludes(products, f, i);
    }
    if xs != [] {
      var r := CountRangeOf(xs).value;
      var i := FilterMapSource(products, f, xs[0]);
      var lo := FilterMapSource(products, f, r.min);
      var hi := FilterMapSource(products, f, r.max);
    }
  }

  /** The price, rating and review ranges of the report summarise the valid
      values, and the review total adds up the valid review counts. */
  lemma QualityRanges(products: seq<ProductData>)
    requires products != []
    ensures var m := CalculateDataQualityMetrics(products).qualityMetrics.value;
            RealSummary(m.priceRange, products, ValidPrice)
            && RealSummary(m.ratingRange, products, ValidRating)
            && CountSummary(m.reviewRange, products, ValidReviews)
            && (m.reviewRange.Some? ==> m.reviewRange.value.total == SumInt(FilterMap(products, ValidReviews)))
  {
    RealRangeOverProducts(products, ValidPrice);
    RealRangeOverProducts(products, ValidRating);
    CountRangeOverProducts(products, ValidReviews);
  }
}
