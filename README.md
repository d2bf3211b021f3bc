# Amazon.sg product scraper: extraction, cleaning and validation core

This project is a Dafny model of the data path of a scraper for Amazon
Singapore search pages:

- **utils** (`utils.dfy`) covers the three text helpers the rest relies on.
  `clean_text` trims the text and collapses every whitespace run to one
  space. `extract_price_number` reads the first decimal number of a price
  after removing thousands separators. `normalize_url` turns a relative
  link into an absolute one.
- **parser** (`parser.dfy`) covers how `HTMLParser` turns each product
  container of a search page into a `ProductData` record:
  - title, price, rating, image, link and review count each come from an
    ordered list of CSS selectors, tried in order;
  - the price keeps looking until it finds a text holding `S$`;
  - the rating number is the first `\d+\.?\d*\s*out of` match;
  - the review count is the first comma-grouped digit run;
  - a record is kept only when it has a real title or a price text.
- **processor** (`processor.dfy`) covers two parts of `DataProcessor`.
  `validate_products` drops records without a usable title and strips the
  rest, keeping their order. `calculate_data_quality_metrics` counts,
  gives coverage and gives price/rating/review ranges.
- **anti_bot** (`anti_bot.dfy`) covers the deterministic state of `AntiBot`.
  It holds a round-robin proxy index and a sticky "rate limit seen" flag.
  The flag doubles the delay bounds.

HTML parsing is not modelled. A product container is an oracle: `Container`
maps each CSS selector that matches to the first matching element, given
as its stripped text and its attributes. `Malformed` stands for a container
whose extraction raises. The extractors are loops over the selector lists
(`Parser.ResolveFirst`, `Parser.ResolvePrice`, `Parser.HtmlParser`,
`Processor.ValidateProducts`). Each loop is proved equal to a recursive
specification function (`FirstValue`, `PriceFrom`, `FilterMap`), and the
properties are proved about those functions. The proxy rotator is a class
whose methods update its fields.

Whitespace means the characters Python's `str.isspace()`, `str.strip()`
and `\s` treat as whitespace: tab through carriage return, the separators
0x1C–0x1F, the space, and the Unicode spaces and line and paragraph
separators (0x85, 0xA0, 0x1680, 0x2000–0x200A, 0x2028, 0x2029, 0x202F,
0x205F, 0x3000). Digits are `'0'..'9'`. Lower-casing is ASCII only.
Floating-point values are exact `real`s.

## Model

| member | source | states |
|---|---|---|
| Text.Strip | src/utils.py:46 | `str.strip()`: no whitespace at either end, and a string without edge whitespace is returned unchanged |
| Utils.CleanText | src/utils.py:40-47 | `""` for empty input; otherwise no whitespace at either end, no two whitespace characters in a row and only plain spaces, while the non-whitespace characters and their order are kept |
| Utils.CleanTextHasDigit | src/utils.py:46 | the cleaned text holds a digit exactly when the input does |
| Utils.CleanTextFixed | src/utils.py:40-47 | text already in cleaned form is returned unchanged |
| Utils.CleanTextIdempotent | src/utils.py:40-47 | cleaning twice equals cleaning once |
| Utils.CleanTextIsJoinOfWords | src/utils.py:46 | `clean_text(s)` equals the independent reference `" ".join(s.split())` for every string |
| Utils.RemoveCommasHasDigit | src/utils.py:55 | `replace(',', '')` keeps whether the text has a digit |
| Utils.ExtractPriceNumber | src/utils.py:49-63 | `None` exactly when the text has no digit (and for empty text); otherwise a non-negative number |
| Utils.PriceOfLiteral | src/utils.py:55-59 | a price "currency, digits with separators, '.', fraction, non-digit tail" reads back as exactly that decimal value, separators ignored |
| Utils.PriceOfInteger | src/utils.py:55-59 | a price without a point ("currency, digits with separators, then a tail that starts with neither a digit nor '.'", such as `S$45` or `1,299`) reads back as exactly that integer, separators ignored |
| Utils.PriceExampleAmount | src/utils.py:55-59 | `"S$1,299.00"` reads as 1299.0 |
| Utils.PriceExampleNone | src/utils.py:55-63 | one example: `"Contact for price"` has no price |
| Utils.NormalizeUrl | src/utils.py:65-75 | `""` exactly for an empty link; an `http…` link unchanged; any other link becomes the base, one `/`, then the link, with nothing lost |
| Utils.NormalizeUrlIdempotent | src/utils.py:65-75 | with an absolute base, normalizing an already normalized link changes nothing |
| Utils.NormalizeUrlRooted | src/utils.py:72-73 | a link starting with `/` is appended to the base unchanged, with no extra `/` |
| Collections.FilterMapIndices | src/parser.py:38-46 | the output of a keep-or-drop pass is, in order, the kept value of each accepted input and of nothing else; every accepted input appears |
| Collections.FilterMapSource | src/processor.py:176-202 | every output value comes from some input |
| Parser.FirstValue | src/parser.py:83-98 | the value of the first selector whose element gives a non-empty candidate; `""` exactly when no selector does |
| Parser.ResolveFirst | src/parser.py:91-96 | the selector loop with early `break` computes `FirstValue` (the same loop shape serves title, rating, image, link and review count) |
| Parser.PriceStopsAtCurrency | src/parser.py:108-114 | the price loop stops at the first present element whose text holds `S$` and returns that text |
| Parser.PriceFallsBackToLast | src/parser.py:108-114 | with no `S$` anywhere, the price text is that of the last present element, or none when none is present |
| Parser.ResolvePrice | src/parser.py:108-114 | the price loop, with its overwrite-then-break behaviour, computes `PriceFrom` |
| Parser.PriceFrom | src/parser.py:108-114 | the price text is the starting value or the text of some present element; with no element present it is the starting value |
| Parser.RatingCandidate | src/parser.py:131-136 | the rating text is the aria-label or the element text; it is the aria-label whenever that mentions `out of` in any case, and any text other than the element text mentions `out of` |
| Parser.ImageCandidate | src/parser.py:160 | `src or data-src`: `src` when it is non-empty, else `data-src`; empty exactly when both are |
| Parser.ReviewCandidate | src/parser.py:194-196 | an element yields its text exactly when the text holds a digit and "review" or "rating" in any case, and `""` (the loop moves on) otherwise |
| Parser.FirstRatingFrom | src/parser.py:140 | the position where `re.search` matches: the leftmost position from the start point at which a number is followed, after any whitespace, by `out of`, or the end when there is none |
| Parser.RatingNumber | src/parser.py:140-142 | `None` exactly when the pattern matches at no position; otherwise the value of the number at the leftmost match, whose text contains `out of` |
| Parser.RatingOfDecimal | src/parser.py:140-142 | a prefix without digits, then `digits.fraction`, then optional whitespace and `out of` (such as `Rated 4.5 out of 5`) gives exactly that decimal |
| Parser.RatingOfInteger | src/parser.py:140-142 | a prefix without digits, then an integer with no point, then optional whitespace and `out of` (such as `4 out of 5 stars`) gives exactly that integer |
| Parser.RatingExample | src/parser.py:139-142 | `"4.5 out of 5 stars"` gives 4.5 |
| Parser.RatingExampleNone | src/parser.py:140-141 | one example: the badge `"Bestseller"` gives no rating number |
| Parser.GroupedDigits | src/parser.py:203-205 | the match of `\d+(?:,\d+)*` without its commas: digits only, starting with the first digit run and no longer than the text |
| Parser.GroupedDigitsOfGroups | src/parser.py:203-205 | on one or more digit groups joined by commas and followed by anything that does not extend them, the match takes every group |
| Parser.ReviewNumber | src/parser.py:202-209 | a review number exists exactly when the text has a digit, and it is non-negative |
| Parser.ReviewOfGroups | src/parser.py:203-205 | a prefix without digits, then one or more comma-separated digit groups and a tail that does not extend them (`523 ratings`, `(1,234)`, `1,234,567 reviews`), gives the value of the groups' digits |
| Parser.ReviewExample | src/parser.py:203-205 | `"(1,234)"` gives 1234 |
| Parser.ReviewValueQualifies | src/parser.py:190-197 | a chosen review text holds a digit and the word "review" or "rating" |
| Parser.Accept | src/parser.py:211-215 | a record is emitted exactly when its title is not `"Unknown"` or its price text is non-empty, and it is emitted unchanged |
| Parser.Assemble | src/parser.py:98-209 | the record stamps the time and `amazon.sg`; the title is `"Unknown"` for no title and the cleaned title otherwise; every other field is its helper applied to the raw value, because each helper already maps `""` to `""` or `None` and the `if x else ""` guards change nothing |
| Parser.EmptyField | src/parser.py:116-209 | `clean_text`, `normalize_url`, `extract_price_number`, the rating search and the review search all give `""` or `None` on an empty value |
| Parser.AssembledFields | src/parser.py:77-209 | stamps the time and `amazon.sg`; the title (unless `"Unknown"`) and the price, rating and review texts are in cleaned form; a price number exists exactly when the price text has a digit; a rating number needs a digit in the rating text; a review number exists exactly when there is review text; all numbers are non-negative |
| Parser.ExtractedRecord | src/parser.py:74-219 | every record the extraction returns has the stamps, passes the acceptance rule and has the field shapes above |
| Parser.ExtractAmazonProduct | src/parser.py:74-219 | the per-container extraction computes `ExtractSpec`, with `None` for a container whose extraction raises |
| Parser.HtmlParser | src/parser.py:34-51 | the container loop returns, in order, exactly the accepted records (`FilterMap` of the extraction) |
| Processor.SafeStrip | src/processor.py:184-186 | `""` for a missing value; no whitespace at either end; an already stripped value is unchanged |
| Processor.Validate | src/processor.py:179-200 | a record is kept exactly when its title is present, non-empty and not `"Unknown"` before stripping; a kept record has the stripped title and texts, the defaults for a missing time or source, and the numbers passed through |
| Processor.ValidateProducts | src/processor.py:174-209 | the validation loop computes `FilterMap(products, Validate)` |
| Processor.ValidateProductsKeepsExactly | src/processor.py:176-202 | the output keeps input order and holds one record per input with a usable title and none for the rest; each record has a stripped title, the defaults for a missing time or source, and the numbers passed through |
| Processor.BlankTitleKept | src/processor.py:179-191 | a whitespace-only title passes the title test and comes out as `""` |
| Processor.ValidateCleanProduct | src/processor.py:179-200 | a parser-shaped record is kept exactly when its title is neither `""` nor `"Unknown"`, and only its URLs can change |
| Processor.ValidateParsedProduct | src/processor.py:179-200 | every record the extraction yields is kept by validation exactly when its title is neither `""` nor `"Unknown"`, and only its two URLs can change (they are stripped) |
| Processor.ParsedThenValidatedTitles | src/processor.py:179-181 | after extraction then validation, no record has title `""` or `"Unknown"` |
| Processor.ValidTitle | src/processor.py:82 | a title counts exactly when it is non-empty and not `"Unknown"` |
| Processor.ValidPrice | src/processor.py:79 | a price counts exactly when it is present and not 0 (Python truthiness) |
| Processor.ValidRating | src/processor.py:80 | a rating counts exactly when it is present and not 0 |
| Processor.ValidImage | src/processor.py:81 | an image URL counts exactly when it is non-empty |
| Processor.ValidUrl | src/processor.py:83 | a product URL counts exactly when it is non-empty |
| Processor.ValidReviews | src/processor.py:84 | a review count counts exactly when it is present and not 0 |
| Processor.Coverage | src/processor.py:90-91 | the valid count, and a percentage in [0, 100] that is 0 exactly when nothing is valid and 100 exactly when everything is (before rounding; see Left out) |
| Processor.MinReal | src/processor.py:97 | `min`: an element that bounds every element from below |
| Processor.MaxReal | src/processor.py:98 | `max`: an element that bounds every element from above |
| Processor.MinInt | src/processor.py:123 | `min` over review counts |
| Processor.MaxInt | src/processor.py:124 | `max` over review counts |
| Processor.SumRealBounds | src/processor.py:99 | values within [lo, hi] sum to between n·lo and n·hi |
| Processor.MeanWithin | src/processor.py:99 | the mean of values within [lo, hi] is within [lo, hi] |
| Processor.RealRangeOf | src/processor.py:96-100 | no range for no values; otherwise min and max are values and bound all values, and the average times the count is the sum and lies between min and max |
| Processor.CountRangeOf | src/processor.py:122-126 | no range for no values; otherwise min and max are values and bound all values, and the total is the sum |
| Processor.CalculateDataQualityMetrics | src/processor.py:60-131 | the product count; no metrics exactly for an empty list; each valid count is at most the product count and each coverage is in [0, 100] |
| Processor.RealRangeOverProducts | src/processor.py:79-80 | a price or rating range exists exactly when some product has a valid value; it bounds every valid value and its ends are values of products |
| Processor.CountRangeOverProducts | src/processor.py:84 | the same for review counts |
| Processor.QualityRanges | src/processor.py:96-126 | in the report, the price, rating and review ranges summarise the valid values of the products, and the review total is their sum |
| AntiBot.NextIndex | src/anti_bot.py:55 | one rotation step equals `(i + 1) % n`, stays in the list and wraps from the last index to 0 |
| AntiBot.AntiBot.constructor | src/anti_bot.py:27-36 | rotation starts at index 0, the count is 0 and no rate limit has been seen |
| AntiBot.AntiBot.GetNextProxy | src/anti_bot.py:42-56 | no proxy and no change for an empty list; otherwise the proxy at the old index, with the index moved one step on; nothing else changes |
| AntiBot.AntiBot.HandleRateLimiting | src/anti_bot.py:58-77 | reports a limit exactly for status 429; the flag becomes set on 429 and is otherwise unchanged; nothing else changes and the index stays valid |
| AntiBot.AntiBot.IntelligentDelay | src/anti_bot.py:79-85 | the delay bounds, 5 and 10 s by default, are doubled exactly when a rate limit has been seen; ordered bounds stay ordered |
| AntiBot.IndexAfterWithinRound | src/anti_bot.py:54-55 | within one round, k calls move the index k places on, wrapping once |
| AntiBot.FullRound | src/anti_bot.py:54-55 | `len(proxy_list)` calls from any index serve every proxy once, in list order from that index, and restore the index |
| AntiBot.FlagAfterSticky | src/anti_bot.py:67-68 | after a run of responses the flag is set exactly when it was set before or one response was 429; nothing clears it |
| AntiBot.Backoff | src/anti_bot.py:69 | the back-off is positive and at most 60 s; below the cap it lies between `2**attempt` and three times that |

## Left out

- HTML parsing (`BeautifulSoup`, `find_all`, `select_one`, `get_text(strip=True)`) is a foreign library. A container is given as a map from matching selector to its first element, with the element's text already stripped. The list of containers is an input.
- Unicode digits (which `\d` and `int()` accept) and Unicode case mapping are not modelled; only `'0'..'9'` and `'A'..'Z'` count. Whitespace follows Python's full set, listed above.
- A Python `None` passed to `clean_text`, `extract_price_number` or `normalize_url` takes the same branch as `""`, and it is modelled as `""`.
- `str()` of a non-string value inside `safe_strip` is not modelled: validator fields are optional strings.
- Processor.ValidateProducts: an `extracted_at` or `source` key that is present with the value `None` is treated like an absent key (the source would keep `None`).
- Floating point: prices, ratings, coverage and averages are exact reals. Processor.RealRangeOf does not round the average to two decimals.
- Processor.Coverage does not round to one decimal. Its "0 exactly when nothing is valid" and "100 exactly when everything is valid" hold for the exact percentage only: after `round(…, 1)` the source gives 0.0 for 1 valid out of 3000 and 100.0 for 2999 out of 3000.
- `datetime.now()` is one timestamp parameter shared by all containers of a page and by the validator's default.
- Randomness and sleeping are out of scope: `get_random_user_agent`, the `random.uniform` draws (a parameter `u` in AntiBot.Backoff; the delay draw between the bounds of AntiBot.AntiBot.IntelligentDelay) and the `asyncio.sleep` calls. The console messages are left out too.
- AntiBot.Backoff takes a non-negative attempt number; negative attempts (fractional `2 ** attempt`) are not modelled.
- `request_count` is never updated by the class; the model keeps it and proves that nothing changes it.
- The proxy list is a constructor parameter. The source initialises it to an empty placeholder list that callers may replace, and a list replaced after rotation has started is not modelled.
- File and console I/O are left out: `load_and_parse_html_files`, `export_to_json`, `print_quality_summary`, logging and the fetching of pages.
- The selector table stored by `HTMLParser.__init__` is never read by the extraction, so it is not modelled.
- `Malformed` stands for any exception raised while extracting one container, which the source turns into a dropped record. An exception raised by the whole page parse is not modelled.
- Processor: the validator's output invariant (no title `""` or `"Unknown"`) does not hold for arbitrary input. The title is checked before it is stripped, so a whitespace-only title becomes `""` (Processor.BlankTitleKept) and `" Unknown "` becomes `"Unknown"`. The model follows the code. It proves the invariant for records coming from the parser, whose titles are already cleaned (Processor.ParsedThenValidatedTitles).
- Parser output enters the validator through Processor.FromProduct, which turns each field into a present value.
