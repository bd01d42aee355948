# Netflix price scraper: a verified model of its deterministic core

`netflix_scraper.py` drives a headless browser over Netflix's "plans and
pricing" help page, country by country, and writes one spreadsheet row per
plan. Around the browser work sit three small pieces of deterministic logic,
and this project models and proves them in Dafny:

- **The price-text normaliser `extract_price_details`** (`price_parser.dfy`, module `PriceParser`).
  It turns a price cell such as `"$15.49/month"` into a triple
  `(currency, amount, note)`. The guard `"month" in s.lower()`, the split
  `re.split(r"/\s*month", text, flags=re.IGNORECASE)` and the two searches
  `([\d,.]+)` and `([^\d\s,.]+)` are written out by hand. There is a predicate
  `RegexMatch` stating what the marker pattern matches, and scans (`MarkerEnd`,
  `FindMarker`, `Search`) that are proved to find exactly those matches.
  `str.strip()`, the character classes and first-maximal-run search live in
  `text.dfy` (module `Text`).
- **The record building of `process_country`** (`country_scraper.dfy`, module `CountryScraper`).
  The browser session is abstracted as a `PageOutcome`: `Failed(message)`
  stands for an exception, and `Rendered(items)` holds the `<li>` texts under
  the "Pricing" heading, or `None` when there is no heading or no list.
  - `ProcessCountry` and its loop `CollectRows` are methods.
  - They are proved equal to the reference functions `CountryRecords` and `PricingRows`.
  - Lemmas about those functions state the guarantees: one row per colon-bearing item in list order, the N/A and ERROR fallbacks, and every row tagged with its country.
- **The batching loop of `main`** (`batch_orchestrator.dfy`, module `BatchOrchestrator`).
  - `RunBatches` walks the country list in slices of `BatchSize` = 5. It gathers each slice's results and extends `results` with them.
  - It is proved to return each country's records concatenated in country-list order (`AllRecords`), and to visit exactly the slices `Batches(countries, 5)`.
  - Lemmas show that the slices are non-empty, hold at most 5 countries each (all but the last exactly 5), number ⌈n/5⌉, and concatenate back to the list.

The worked examples are in `price_parser_examples.dfy` and
`country_scraper_examples.dfy`.

Two behaviours of the parser deserve notice:
- **Decimal commas.** Commas are deleted, not read as a decimal point: `"€13,99 / Month for new members"` gives the amount `"1399"`, not `"13.99"` (`PriceParserExamples.ExampleDecimalComma`).
- **A literal "Unknown".** A currency of `"Unknown"` does not always mean "no currency found". A price whose first non-digit, non-space token is literally `Unknown` gives the same string. `PriceParser.CurrencySpec` states both cases separately.

Assumptions fixed by the model:
- `\s` and `strip()` use Python's whitespace set (`Text.IsSpace`, the 29 code points for which `str.isspace()` holds).
- `\d` is the ASCII digits only.
- Case folding of the letters of "month" is ASCII lower-casing.

## Model

| member | source | states |
|---|---|---|
| PriceParser.ExtractPriceDetails | netflix_scraper.py:10-32 | without a case-insensitive "month" (the empty text included) the result is exactly `("Unknown", "", input)`, unstripped; otherwise the amount holds only digits and periods (never a comma), the currency is never empty, and the note is stripped |
| PriceParser.MonthFrom | netflix_scraper.py:14 | the guard `"month" in s.lower()` holds exactly when some position starts "month" in any letter case |
| PriceParser.MentionsMonth | netflix_scraper.py:14 | the guard holds exactly when "month", in any letter case, starts at some position of the text |
| PriceParser.NoLetterMNoMonth | netflix_scraper.py:14-15 | text without an `m`/`M` fails the guard, so it comes back as `("Unknown", "", text)` |
| PriceParser.MarkerEnd | netflix_scraper.py:21 | a `/`, then whitespace, then "month" in any case: any end it reports is a match of `/\s*month` |
| PriceParser.MarkerEndComplete | netflix_scraper.py:21 | MarkerEnd finds every match: whenever the pattern matches `s[i..e]`, MarkerEnd reports `e` |
| PriceParser.RegexMatchEndUnique | netflix_scraper.py:21 | a match starting at a position has one end only, so greedy `\s*` never backtracks |
| PriceParser.FindMarker | netflix_scraper.py:21 | returns the leftmost start of a match at or after `from`; with None, there is no match there at all |
| PriceParser.SplitOnMarker | netflix_scraper.py:21-23 | the first two pieces of `re.split`: without a match, the whole text and no second piece; with one, the text before the first match, and the text from its end to the next match or to the end |
| PriceParser.FirstSlashStartsMarker | netflix_scraper.py:21 | a match that no `/` precedes is the one the split uses |
| PriceParser.PricePart | netflix_scraper.py:22 | `month_split[0].strip()` is trimmed |
| PriceParser.NotePart | netflix_scraper.py:23 | `month_split[1].strip()`, or `""` without a second piece, is trimmed |
| PriceParser.DeleteCommas | netflix_scraper.py:29 | `replace(",", "")` keeps exactly the non-comma characters, and leaves a comma-free text unchanged |
| PriceParser.DeleteCommasCount | netflix_scraper.py:29 | every non-comma character is kept as often as it occurs, and every comma goes |
| PriceParser.DeleteCommasAppend | netflix_scraper.py:29 | deletion works piece by piece: `DeleteCommas(a + b)` is `DeleteCommas(a) + DeleteCommas(b)`, so the kept characters stay in order |
| PriceParser.DeleteCommasEmpty | netflix_scraper.py:29 | deleting commas leaves nothing exactly when the text was all commas |
| PriceParser.AmountOf | netflix_scraper.py:26-29 | the amount holds only digits and periods |
| PriceParser.AmountIsFirstRun | netflix_scraper.py:26-29 | the amount is the first maximal run of `[\d,.]` with its commas deleted |
| PriceParser.AmountEmptyIff | netflix_scraper.py:26-29 | the amount is empty exactly when the price part has no digit, comma or period, or its first run of them is all commas |
| PriceParser.AmountEmptyAtRun | netflix_scraper.py:26-29 | given the first `[\d,.]` run, the amount is empty exactly when that run is all commas |
| PriceParser.CurrencyOf | netflix_scraper.py:27-30 | the currency is never empty |
| PriceParser.CurrencySpec | netflix_scraper.py:27-30 | the currency is "Unknown" when the price part has no character outside digits, whitespace, `,` and `.`; otherwise it is the first maximal run of such characters |
| PriceParser.NoMarkerSpec | netflix_scraper.py:21-23 | "month" present but no `/`-prefixed marker: the note is `""` and the price part is the whole stripped text |
| PriceParser.MarkerImpliesMentionsMonth | netflix_scraper.py:14-21 | a text with a marker always passes the guard, so the guard hides no marker from the split |
| PriceParser.SplitBeforeTrailingMarker | netflix_scraper.py:18-23 | a trimmed, slash-free price part followed by "/month" is already stripped and splits into that price part and an empty piece |
| PriceParser.TrailingMarkerParts | netflix_scraper.py:21-23 | for such a text the price part is the given part and the note is empty |
| PriceParser.ClassesApart | netflix_scraper.py:26-27 | the currency class and the amount class are disjoint; digits and periods are amount characters |
| PriceParser.TokenThenNumberRuns | netflix_scraper.py:26-27 | in a currency token followed by a number, the token is the first currency run and the number the first amount run |
| PriceParser.TokenThenNumber | netflix_scraper.py:26-30 | such a price part gives exactly that currency and that amount |
| PriceParser.PlainMonthlyPrice | netflix_scraper.py:10-32 | a currency token, a number and "/month" parse to exactly that currency and number, with an empty note |
| PriceParserExamples.ExampleDollarsPerMonth | netflix_scraper.py:10-32 | `"$15.49/month"` gives `("$", "15.49", "")` |
| PriceParserExamples.ExampleDecimalComma | netflix_scraper.py:10-32 | `"€13,99 / Month for new members"` gives `("€", "1399", "for new members")`: the comma is deleted |
| PriceParserExamples.ExampleNoMonth | netflix_scraper.py:14-15 | `""` and `" 9.99 a week "` come back as `("Unknown", "", input)`, unstripped |
| PriceParserExamples.EuroPieces | netflix_scraper.py:21 | the split of the euro example cuts at the first marker and runs to the end, since there is no second marker |
| PriceParserExamples.EuroAmount | netflix_scraper.py:26-29 | the amount of `"€13,99"` is `"1399"` |
| PriceParserExamples.EuroCurrency | netflix_scraper.py:27-30 | the currency of `"€13,99"` is `"€"` |
| Text.Search | netflix_scraper.py:26-27 | `re.search(r"(K+)", s)`: None exactly when no character is in the class; otherwise the leftmost maximal non-empty run, all of whose characters are in the class |
| Text.SearchIsFirstRun | netflix_scraper.py:26-27 | whatever run is the leftmost maximal one is what Search returns |
| Text.FirstRunUnique | netflix_scraper.py:26-27 | there is at most one leftmost maximal run |
| Text.FirstIndex | netflix_scraper.py:68 | the first position at or after `from` in the class (such as the first colon), or the length when there is none |
| Text.Strip | netflix_scraper.py:18 | `str.strip()` returns a text no longer than its input that neither starts nor ends with whitespace (StripSurround and StripOfPadded complete the characterisation) |
| Text.RunEndSpec | netflix_scraper.py:18 | the leading run of a class ends at the first character outside it |
| Text.RunStartSpec | netflix_scraper.py:18 | the trailing run of a class starts just after the last character outside it |
| Text.StripIsTrimmed | netflix_scraper.py:18 | `strip()` returns a text that neither starts nor ends with whitespace |
| Text.StripSurround | netflix_scraper.py:18 | what `strip()` removes on either side is whitespace |
| Text.StripOfPadded | netflix_scraper.py:18 | a trimmed text padded with whitespace on both sides strips to itself |
| Text.StripTrimmed | netflix_scraper.py:18 | `strip()` leaves a trimmed text unchanged |
| Text.StripIdempotent | netflix_scraper.py:18 | stripping twice is stripping once |
| Text.StripIgnoresLeadingSpace | netflix_scraper.py:18 | leading whitespace makes no difference to `strip()` |
| Text.StripIgnoresTrailingSpace | netflix_scraper.py:18 | trailing whitespace makes no difference to `strip()` |
| Text.SplitStrippedAt | netflix_scraper.py:68 | splitting `s.strip()` at its first colon and stripping both halves gives the same halves as splitting `s` itself |
| CountryScraper.RowRecord | netflix_scraper.py:67-77 | a row built from an `<li>` text carries the country and a non-empty currency |
| CountryScraper.ColonItems | netflix_scraper.py:66-67 | the `<li>` texts kept are exactly those containing a colon |
| CountryScraper.ColonItemsAppend | netflix_scraper.py:66-67 | filtering works piece by piece, so the colon-bearing texts are kept once each, in list order |
| CountryScraper.ColonItemsSnoc | netflix_scraper.py:66-67 | one more `<li>` text is kept exactly when it holds a colon |
| CountryScraper.SplitItem | netflix_scraper.py:68-73 | plan and price are both stripped, and the plan holds no colon because the split is at the first colon |
| CountryScraper.NotAvailable | netflix_scraper.py:78-79 | the N/A row names the country and carries no currency and no amount |
| CountryScraper.ErrorRecord | netflix_scraper.py:84-86 | the ERROR row names the country, carries the message as its price, and has no currency and no amount |
| CountryScraper.PricingRows | netflix_scraper.py:66-77 | as many rows as `<li>` texts with a colon |
| CountryScraper.CountryRecords | netflix_scraper.py:63-86 | `process_country` never returns an empty list |
| CountryScraper.SplitItemAtFirstColon | netflix_scraper.py:68-73 | with `c` the first colon, the plan is the text before `c`, stripped, and the price the text after `c` (later colons included), stripped |
| CountryScraper.CollectRows | netflix_scraper.py:66-77 | the loop over the `<li>` elements yields exactly `PricingRows`: one row per colon-bearing item, in list order |
| CountryScraper.ProcessCountry | netflix_scraper.py:63-86 | returns exactly `CountryRecords`: the ERROR row on an exception; otherwise the pricing rows, or the single N/A row when there are none |
| CountryScraper.PricingRowsTagged | netflix_scraper.py:66-77 | every row from the pricing list names the country and has a currency |
| CountryScraper.PricingRowsFollowColonItems | netflix_scraper.py:66-77 | row `k` is the row of the `k`-th colon-bearing `<li>` text, and there are as many rows as such texts |
| CountryScraper.CountryRecordsTagged | netflix_scraper.py:63-86 | `process_country` never returns an empty list, and every row names the country |
| CountryScraper.NotAvailableIff | netflix_scraper.py:63-79 | the N/A row appears exactly when the page rendered but gave no colon-bearing item (no heading, no list, or no item with a colon), and then it is the only row |
| CountryScraper.ErrorRecordIff | netflix_scraper.py:84-86 | the ERROR row with a message appears exactly when the scrape failed with that message, and then it is the only row |
| CountryScraper.RowKinds | netflix_scraper.py:70-86 | a row has an empty currency exactly when it is the N/A or the ERROR row |
| CountryScraperExamples.ItemParts | netflix_scraper.py:68-73 | `"Basic: $16.49/month"` splits into the plan "Basic" and the price "$16.49/month" |
| CountryScraperExamples.ExampleRow | netflix_scraper.py:66-77 | `"Basic: $16.49/month"` for Brazil gives the row `(Brazil, Basic, $16.49/month, $, 16.49, "")` |
| BatchOrchestrator.SliceEnd | netflix_scraper.py:119 | `countries[i:i+batch_size]` ends `batch_size` further on, or at the end of the list when that is closer |
| BatchOrchestrator.BatchesFrom | netflix_scraper.py:115-119 | every slice `xs[i:i+size]` from `start` on is non-empty and at most `size` long |
| BatchOrchestrator.Batches | netflix_scraper.py:115-119 | the slices concatenate back to the country list |
| BatchOrchestrator.Reports | netflix_scraper.py:119-124 | one report per country |
| BatchOrchestrator.ReportsNonEmpty | netflix_scraper.py:119-124 | no country's report is empty |
| BatchOrchestrator.AllRecords | netflix_scraper.py:112-126 | `results` has at least one row per country |
| BatchOrchestrator.RunBatches | netflix_scraper.py:112-126 | the loop returns each country's records concatenated in country-list order, and visits exactly the slices `Batches(countries, 5)` |
| BatchOrchestrator.GatherBatch | netflix_scraper.py:119-124 | `asyncio.gather` over a slice's tasks returns each country's `process_country` result, by position |
| BatchOrchestrator.ExtendAll | netflix_scraper.py:125-126 | extending `results` with each gathered list appends their concatenation |
| BatchOrchestrator.ReportsAt | netflix_scraper.py:119-124 | the `k`-th report is the result for the `k`-th country |
| BatchOrchestrator.ReportsAppend | netflix_scraper.py:119-126 | the reports of two consecutive parts of the list are the two parts' reports, one after the other |
| BatchOrchestrator.BatchesFromFlatten | netflix_scraper.py:115-119 | the slices from a start position concatenate back to the rest of the list |
| BatchOrchestrator.BatchesFlatten | netflix_scraper.py:115-119 | the slices concatenate back to the country list |
| BatchOrchestrator.BatchesFromShape | netflix_scraper.py:115-119 | every slice is non-empty and at most `size` long, and all but the last are exactly `size` long |
| BatchOrchestrator.BatchesFromCount | netflix_scraper.py:115-119 | the number of slices `m` is the least with `m * size >= n` (none for an empty remainder) |
| BatchOrchestrator.BatchesShape | netflix_scraper.py:115-119 | there are exactly ⌈n/size⌉ slices (none for an empty list), each non-empty and at most `size` long, all but the last exactly `size` long |
| BatchOrchestrator.ExampleTwelveCountries | netflix_scraper.py:112-119 | twelve countries make slices of 5, 5 and 2 |
| BatchOrchestrator.EveryCountryReported | netflix_scraper.py:113-126 | every country has at least one row, every row names a country of the list, and there are at least as many rows as countries |
| BatchOrchestrator.AllRecordsAppend | netflix_scraper.py:119-126 | the results of a list are the results of its first part followed by those of the rest |
| BatchOrchestrator.ExampleTwoCountries | netflix_scraper.py:84-126 | a failed tab and a page without a pricing list give an ERROR row and an N/A row, in country order |

## Left out

- Browser work is not modelled: Playwright navigation, clicks, typing, selectors, time-outs and settle delays (lines 42-59, 92-107). It is external I/O; the model takes each country's page as a `PageOutcome` given as input.
- The cookie-banner `try`/`except: pass` (lines 46-49, 100-103) has no effect on the output.
- BeautifulSoup parsing and `find`/`find_next`/`find_all` (lines 60-66) belong to a foreign library. Their result is the `Rendered` list of `<li>` texts, whose `.text` is taken as given.
- Fetching the country list from the page (lines 105-106) is browser I/O; the list is a parameter of `RunBatches`.
- BatchOrchestrator.RunBatches: concurrency, tab opening and closing (lines 120-121, 128-129) and browser shutdown are not modelled. `asyncio.gather` returns results by position, so the slice is run as a sequential map in `GatherBatch`.
- Exporting to Excel with pandas/openpyxl and the console `print` calls (lines 81, 85, 109, 134-136) are I/O only.
- Text.IsDigit: `\d` is the ASCII digits; Python's `\d` on `str` also matches other Unicode decimal digits, which the model treats as currency characters.
- Text.Lower: only ASCII letters are lower-cased. No other character lower-cases to a letter of "month", so the guard and the split are unaffected.
- CountryScraper.ProcessCountry: an exception is assumed to end the scrape before any row is built, which holds because the row-building code cannot raise. The message `str(e)` is taken as given.
