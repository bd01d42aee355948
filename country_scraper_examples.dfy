/**
 * A worked example of the row built for one `<li>` text of the pricing list.
 */
module CountryScraperExamples {
  import opened Text
  import opened PriceParser
  import opened CountryScraper

  const Item := "Basic: $16.49/month"

  lemma ItemSlices()
    ensures Item[..5] == "Basic" && Item[6..] == " $16.49/month"
  {
  }

  lemma ItemStrips()
    ensures Strip("Basic") == "Basic"
    ensures Strip(" $16.49/month") == "$16.49/month"
  {
    StripTrimmed("Basic");
    var none: string := [];
    assert " $16.49/month" == " " + "$16.49/month" + none;
    StripOfPadded(" ", "$16.49/month", none);
  }

  lemma ItemParts()
    ensures ':' in Item
    ensures SplitItem(Item) == PlanAndPrice("Basic", "$16.49/month")
  {
    SplitItemAtFirstColon(Item, 5);
    ItemSlices();
    ItemStrips();
  }

  lemma ItemDetails()
    ensures ExtractPriceDetails("$16.49/month") == PriceDetails("$", "16.49", "")
  {
    assert "$" + "16.49" + "/month" == "$16.49/month";
    PlainMonthlyPrice("$", "16.49");
  }

  lemma RowRecordVia(country: string, item: string, parts: PlanAndPrice, details: PriceDetails)
    requires ':' in item && SplitItem(item) == parts && ExtractPriceDetails(parts.price) == details
    ensures RowRecord(country, item) ==
      PriceRecord(country, parts.plan, parts.price, details.currency, details.amount, details.note)
  {
  }

  /** `"Basic: $16.49/month"` gives the plan "Basic", the price text "$16.49/month",
      the currency "$", the amount "16.49" and an empty note. */
  lemma ExampleRow()
    ensures ':' in Item
    ensures RowRecord("Brazil", Item) == PriceRecord("Brazil", "Basic", "$16.49/month", "$", "16.49", "")
  {
    ItemParts();
    ItemDetails();
    RowRecordVia("Brazil", Item, PlanAndPrice("Basic", "$16.49/month"), PriceDetails("$", "16.49", ""));
  }
}
