/**
 * Worked examples of the price-text normaliser, evaluated step by step:
 * a plain "/month" price, a price written with a decimal comma and a note
 * after the marker, and text without "month".
 */
module PriceParserExamples {
  import opened Text
  import opened PriceParser

  lemma PricePartVia(s: string, text: string, first: string)
    requires Strip(s) == text && SplitOnMarker(text).first == first
    ensures PricePart(s) == Strip(first)
  {
  }

  lemma NotePartVia(s: string, text: string, second: string)
    requires Strip(s) == text && SplitOnMarker(text).second == Some(second)
    ensures NotePart(s) == Strip(second)
  {
  }

  lemma NoSlashNoMarker(s: string, from: nat)
    requires from <= |s|
    requires forall k :: from <= k < |s| ==> s[k] != '/'
    ensures FindMarker(s, from) == None
  {
  }

  /** `extract_price_details("$15.49/month")` is `("$", "15.49", "")`. */
  lemma ExampleDollarsPerMonth()
    ensures ExtractPriceDetails("$15.49/month") == PriceDetails("$", "15.49", "")
  {
    assert "$" + "15.49" + "/month" == "$15.49/month";
    PlainMonthlyPrice("$", "15.49");
  }

  const Euro := "€13,99 / Month for new members"

  lemma EuroFirstMarker()
    ensures FindMarker(Euro, 0) == Some(7) && MarkerEnd(Euro, 7) == Some(14)
  {
    assert MonthAt(Euro, 9);
    assert RegexMatch(Euro, 7, 14);
    FirstSlashStartsMarker(Euro, 7, 14);
  }

  lemma EuroNoSecondMarker()
    ensures FindMarker(Euro, 14) == None
  {
    NoSlashNoMarker(Euro, 14);
  }

  lemma EuroPieces()
    ensures SplitOnMarker(Euro) == Pieces(Euro[..7], Some(Euro[14..]))
  {
    EuroFirstMarker();
    EuroNoSecondMarker();
  }

  lemma EuroSlices()
    ensures Euro[..7] == "€13,99 " && Euro[14..] == " for new members"
  {
  }

  lemma EuroStrips()
    ensures Strip("€13,99 ") == "€13,99"
    ensures Strip(" for new members") == "for new members"
  {
    var none: string := [];
    assert "€13,99 " == none + "€13,99" + " ";
    StripOfPadded(none, "€13,99", " ");
    assert " for new members" == " " + "for new members" + none;
    StripOfPadded(" ", "for new members", none);
  }

  lemma EuroPricePart()
    ensures PricePart(Euro) == "€13,99"
  {
    StripTrimmed(Euro);
    EuroPieces();
    EuroSlices();
    PricePartVia(Euro, Euro, "€13,99 ");
    EuroStrips();
  }

  lemma EuroNote()
    ensures NotePart(Euro) == "for new members"
  {
    StripTrimmed(Euro);
    EuroPieces();
    EuroSlices();
    NotePartVia(Euro, Euro, " for new members");
    EuroStrips();
  }

  lemma EuroAmount()
    ensures AmountOf("€13,99") == "1399"
  {
    var p := "€13,99";
    assert IsFirstRun(p, AmountChar, 1, 6);
    SearchIsFirstRun(p, AmountChar, 1, 6);
    assert p[1..6] == "13,99";
    assert DeleteCommas("13,99") == "1399";
  }

  lemma EuroCurrency()
    ensures CurrencyOf("€13,99") == "€"
  {
    var p := "€13,99";
    assert IsFirstRun(p, CurrencyChar, 0, 1);
    SearchIsFirstRun(p, CurrencyChar, 0, 1);
    assert p[0..1] == "€";
  }

  /** A decimal comma is deleted, not turned into a point:
      `extract_price_details("€13,99 / Month for new members")` is `("€", "1399", "for new members")`. */
  lemma ExampleDecimalComma()
    ensures ExtractPriceDetails(Euro) == PriceDetails("€", "1399", "for new members")
  {
    assert MonthAt(Euro, 9);
    EuroPricePart();
    EuroNote();
    EuroAmount();
    EuroCurrency();
    ExtractParts(Euro);
  }

  /** Text without "month" comes back unchanged, unstripped, as the note. */
  lemma ExampleNoMonth()
    ensures ExtractPriceDetails("") == PriceDetails("Unknown", "", "")
    ensures ExtractPriceDetails(" 9.99 a week ") == PriceDetails("Unknown", "", " 9.99 a week ")
  {
    NoLetterMNoMonth(" 9.99 a week ");
  }
}
