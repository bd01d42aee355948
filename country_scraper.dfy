/**
 * The record building of `process_country`: from what the browser session
 * produced for one country to the list of output rows for that country.
 *
 * The browser work (navigation, cookie banner, dropdown, typing, settle
 * delays) and the HTML parsing are abstracted into a PageOutcome: either the
 * exception that ended the session, or the texts of the `<li>` elements of the
 * first `<ul>` after the `<h3>` whose text contains "Pricing", when there is one.
 */
module CountryScraper {
  import opened Text
  import opened PriceParser

  /** One output row, with the columns Country, Plan, Price, Currency, Amount, Note. */
  datatype PriceRecord = PriceRecord(
    country: string,
    plan: string,
    price: string,
    currency: string,
    amount: string,
    note: string)

  /** What scraping one country's page yields. */
  datatype PageOutcome =
    | Failed(message: string)                      // an exception was raised; `message` is `str(e)`
    | Rendered(pricingItems: Option<seq<string>>)  // None: no "Pricing" heading, or no list after it

  /** The fallback row for a country whose page has no usable pricing rows. */
  function NotAvailable(country: string): (r: PriceRecord)
    ensures r.country == country && r.currency == [] && r.amount == []
  {
    PriceRecord(country, "N/A", "N/A", "", "", "")
  }

  /** The row for a country whose scrape raised an exception. */
  function ErrorRecord(country: string, message: string): (r: PriceRecord)
    ensures r.country == country && r.price == message && r.currency == [] && r.amount == []
  {
    PriceRecord(country, "ERROR", message, "", "", "")
  }

  /** Text that contains a colon has a first colon. */
  lemma ColonFound(item: string)
    requires ':' in item
    ensures FirstIndex(item, Colon, 0) < |item|
  {
    var k :| 0 <= k < |item| && item[k] == ':';
    assert InClass(item[k], Colon);
  }

  /** Plan and price text of one `<li>` text. */
  datatype PlanAndPrice = PlanAndPrice(plan: string, price: string)

  /** `plan, price_text = li.text.strip().split(":", 1)`, then both parts stripped. */
  function SplitItem(item: string): (r: PlanAndPrice)
    requires ':' in item
    ensures Trimmed(r.plan) && Trimmed(r.price)
    ensures ':' !in r.plan
  {
    var text := Strip(item);
    ColonFound(item);
    FirstIndexThroughStrip(item, Colon);
    var c := FirstIndex(text, Colon, 0);
    StripSurround(text[..c]);
    assert forall j :: 0 <= j < c ==> !InClass(text[..c][j], Colon);
    PlanAndPrice(Strip(text[..c]), Strip(text[c + 1..]))
  }

  /** The row for one `<li>` text that contains a colon: its plan and price,
      and the price run through the normaliser. */
  function RowRecord(country: string, item: string): (r: PriceRecord)
    requires ':' in item
    ensures r.country == country
    ensures r.currency != []
  {
    var parts := SplitItem(item);
    var details := ExtractPriceDetails(parts.price);
    PriceRecord(country, parts.plan, parts.price, details.currency, details.amount, details.note)
  }

  /** The `<li>` texts that contain a colon, in list order. */
  function ColonItems(items: seq<string>): (r: seq<string>)
    ensures forall x :: x in r <==> x in items && ':' in x
    decreases |items|
  {
    if items == [] then []
    else
      var init, last := items[..|items| - 1], items[|items| - 1];
      assert items == init + [last];
      ColonItems(init) + (if ':' in last then [last] else [])
  }

  /** The rows the loop over the `<li>` elements appends, in list order. */
  function PricingRows(country: string, items: seq<string>): (r: seq<PriceRecord>)
    ensures |r| == |ColonItems(items)|
    decreases |items|
  {
    if items == [] then []
    else
      var last := items[|items| - 1];
      PricingRows(country, items[..|items| - 1]) + (if ':' in last then [RowRecord(country, last)] else [])
  }

  /** Everything `process_country` returns for one country. */
  function CountryRecords(country: string, page: PageOutcome): (r: seq<PriceRecord>)
    ensures r != []
  {
    match page
    case Failed(message) => [ErrorRecord(country, message)]
    case Rendered(None) => [NotAvailable(country)]
    case Rendered(Some(items)) =>
      var rows := PricingRows(country, items);
      if rows == [] then [NotAvailable(country)] else rows
  }

  /** The loop of `process_country` over the `<li>` elements of the pricing list. */
  method CollectRows(country: string, items: seq<string>) returns (rows: seq<PriceRecord>)
    ensures rows == PricingRows(country, items)
  {
    rows := [];
    for i := 0 to |items|
      invariant rows == PricingRows(country, items[..i])
    {
      assert items[..i + 1][..i] == items[..i];
      if ':' in items[i] {
        rows := rows + [RowRecord(country, items[i])];
      }
    }
    assert items[..|items|] == items;
  }

  /** `process_country(country, page)`, from the moment the page has been
      scraped: the rows of the pricing list and the fallbacks. */
  method ProcessCountry(country: string, page: PageOutcome) returns (results: seq<PriceRecord>)
    ensures results == CountryRecords(country, page)
  {
    if page.Failed? {
      return [ErrorRecord(country, page.message)];
    }
    results := [];
    if page.pricingItems.Some? {
      results := CollectRows(country, page.pricingItems.value);
    }
    if results == [] {
      results := [NotAvailable(country)];
    }
  }

  /** Keeping the colon-bearing texts works piece by piece, so they stay in list order. */
  lemma {:induction false} ColonItemsAppend(a: seq<string>, b: seq<string>)
    ensures ColonItems(a + b) == ColonItems(a) + ColonItems(b)
    decreases |b|
  {
    if b == [] {
      assert a + b == a;
    } else {
      var n := |b| - 1;
      var init, x := b[..n], b[n];
      assert b == init + [x];
      assert a + b == (a + init) + [x];
      ColonItemsSnoc(a + init, x);
      ColonItemsSnoc(init, x);
      ColonItemsAppend(a, init);
      ConcatAssoc(ColonItems(a), ColonItems(init), if ':' in x then [x] else []);
    }
  }

  /** One more `<li>` text adds itself when it holds a colon, and nothing otherwise. */
  lemma ColonItemsSnoc(xs: seq<string>, x: string)
    ensures ColonItems(xs + [x]) == ColonItems(xs) + (if ':' in x then [x] else [])
  {
    assert (xs + [x])[..|xs|] == xs;
  }

  lemma ConcatAssoc<T>(x: seq<T>, y: seq<T>, z: seq<T>)
    ensures (x + y) + z == x + (y + z)
  {
  }

  /** Every row from the pricing list carries the country and a currency. */
  lemma {:induction false} PricingRowsTagged(country: string, items: seq<string>)
    ensures forall r :: r in PricingRows(country, items) ==> r.country == country && r.currency != []
    decreases |items|
  {
    if items != [] {
      PricingRowsTagged(country, items[..|items| - 1]);
    }
  }

  /** `process_country` returns at least one row, and every row names the country. */
  lemma CountryRecordsTagged(country: string, page: PageOutcome)
    ensures CountryRecords(country, page) != []
    ensures forall r :: r in CountryRecords(country, page) ==> r.country == country
  {
    if page.Rendered? && page.pricingItems.Some? {
      PricingRowsTagged(country, page.pricingItems.value);
    }
  }

  /** One row per colon-bearing `<li>` text, in list order, and nothing for the others. */
  lemma {:induction false} PricingRowsFollowColonItems(country: string, items: seq<string>)
    ensures |PricingRows(country, items)| == |ColonItems(items)|
    ensures forall k :: 0 <= k < |ColonItems(items)| ==>
      ':' in ColonItems(items)[k] && PricingRows(country, items)[k] == RowRecord(country, ColonItems(items)[k])
    decreases |items|
  {
    if items != [] {
      var init := items[..|items| - 1];
      PricingRowsFollowColonItems(country, init);
      assert ColonItems(init) + [] == ColonItems(init);
      assert PricingRows(country, init) + [] == PricingRows(country, init);
    }
  }

  /** Splitting at the first colon `c` of a `<li>` text: the plan is what
      precedes `c` and the price text what follows it (later colons included),
      both stripped, so stripping the whole text first makes no difference. */
  lemma SplitItemAtFirstColon(item: string, c: nat)
    requires c < |item| && item[c] == ':'
    requires forall j :: 0 <= j < c ==> item[j] != ':'
    ensures ':' in item
    ensures SplitItem(item) == PlanAndPrice(Strip(item[..c]), Strip(item[c + 1..]))
  {
    assert InClass(item[c], Colon);
    FirstIndexIs(item, Colon, 0, c);
    SplitStrippedAt(item, Colon);
    SplitItemUnfold(item);
  }

  lemma SplitItemUnfold(item: string)
    requires ':' in item
    ensures FirstIndex(Strip(item), Colon, 0) < |Strip(item)|
    ensures SplitItem(item) == PlanAndPrice(
      Strip(Strip(item)[..FirstIndex(Strip(item), Colon, 0)]),
      Strip(Strip(item)[FirstIndex(Strip(item), Colon, 0) + 1..]))
  {
    ColonFound(item);
    FirstIndexThroughStrip(item, Colon);
  }

  /** The N/A row appears exactly when the page rendered but gave no colon-bearing
      `<li>` text (no heading, no list, or no item with a colon), and then it is the only row. */
  lemma NotAvailableIff(country: string, page: PageOutcome)
    ensures NotAvailable(country) in CountryRecords(country, page) <==>
      page.Rendered? && (page.pricingItems.None? || ColonItems(page.pricingItems.value) == [])
    ensures NotAvailable(country) in CountryRecords(country, page) ==>
      CountryRecords(country, page) == [NotAvailable(country)]
  {
    if page.Rendered? && page.pricingItems.Some? {
      var items := page.pricingItems.value;
      PricingRowsFollowColonItems(country, items);
      PricingRowsTagged(country, items);
      assert NotAvailable(country).currency == [];
    }
  }

  /** The ERROR row appears exactly when the scrape raised an exception, with
      that exception's message, and then it is the only row. */
  lemma ErrorRecordIff(country: string, page: PageOutcome, message: string)
    ensures ErrorRecord(country, message) in CountryRecords(country, page) <==> page == Failed(message)
    ensures page.Failed? ==> CountryRecords(country, page) == [ErrorRecord(country, page.message)]
  {
    if page.Rendered? && page.pricingItems.Some? {
      PricingRowsTagged(country, page.pricingItems.value);
      assert ErrorRecord(country, message).currency == [];
    }
  }

  /** Rows built from `<li>` texts always carry a currency (a token or
      "Unknown"), while the N/A and ERROR rows carry none, so the currency
      column tells the three kinds of row apart. */
  lemma RowKinds(country: string, page: PageOutcome, r: PriceRecord)
    requires r in CountryRecords(country, page)
    ensures r.currency == [] <==> r == NotAvailable(country) || (page.Failed? && r == ErrorRecord(country, page.message))
  {
    if page.Rendered? && page.pricingItems.Some? {
      PricingRowsTagged(country, page.pricingItems.value);
    }
  }
}
