/**
 * The price-text normaliser `extract_price_details`: from the text of one
 * price cell ("$15.49/month", "€13,99 / Month for new members", ...) to a
 * currency token, an amount with its commas deleted, and the note that
 * follows the "/month" marker.
 *
 * The three regular expressions it uses are written out by hand:
 * `/\s*month` (ignoring case) as MarkerEnd and FindMarker, checked against
 * the predicate RegexMatch, which says what the pattern matches; and
 * `([\d,.]+)` and `([^\d\s,.]+)` as Search over AmountChar and CurrencyChar.
 */
module PriceParser {
  import opened Text

  /** The triple `(currency, amount, note)`. */
  datatype PriceDetails = PriceDetails(currency: string, amount: string, note: string)

  /** "month", in any mix of upper and lower case, starts at position `i` of `s`. */
  predicate MonthAt(s: string, i: nat) {
    && i + 5 <= |s|
    && Lower(s[i]) == 'm'
    && Lower(s[i + 1]) == 'o'
    && Lower(s[i + 2]) == 'n'
    && Lower(s[i + 3]) == 't'
    && Lower(s[i + 4]) == 'h'
  }

  /** "month", ignoring case, starts somewhere at or after position `from` of `s`. */
  predicate MonthFrom(s: string, from: nat)
    requires from <= |s|
    ensures MonthFrom(s, from) <==> exists i :: from <= i < |s| && MonthAt(s, i)
    decreases |s| - from
  {
    from < |s| && (MonthAt(s, from) || MonthFrom(s, from + 1))
  }

  /** The guard `"month" in s.lower()`. */
  predicate MentionsMonth(s: string)
    ensures MentionsMonth(s) <==> exists i :: 0 <= i < |s| && MonthAt(s, i)
  {
    MonthFrom(s, 0)
  }

  /** Without an `m` or an `M` there is no "month", in any case. */
  lemma NoLetterMNoMonth(s: string)
    requires forall k :: 0 <= k < |s| ==> s[k] != 'm' && s[k] != 'M'
    ensures !MentionsMonth(s)
  {
    forall i | 0 <= i < |s|
      ensures !MonthAt(s, i)
    {
      assert Lower(s[i]) != 'm';
    }
  }

  /** The pattern `/\s*month`, ignoring case, matches exactly `s[i..e]`. */
  ghost predicate RegexMatch(s: string, i: nat, e: nat) {
    && i < |s| && s[i] == '/'
    && i + 6 <= e <= |s|
    && (forall k :: i < k < e - 5 ==> IsSpace(s[k]))
    && MonthAt(s, e - 5)
  }

  /** A match of the pattern starts at `a` and none starts in `[from, a)`:
      the match that a left-to-right scan from `from` finds. */
  ghost predicate FirstMatch(s: string, from: nat, a: nat, e: nat) {
    && from <= a
    && RegexMatch(s, a, e)
    && forall k: nat, e': nat :: from <= k < a ==> !RegexMatch(s, k, e')
  }

  lemma MonthLetterIsNotSpace(s: string, j: nat)
    requires MonthAt(s, j)
    ensures !IsSpace(s[j])
  {
    assert s[j] == 'm' || s[j] == 'M';
  }

  /** A match starting at `i` can end in one place only, so the greedy `\s*`
      never needs to give back whitespace. */
  lemma RegexMatchEndUnique(s: string, i: nat, e: nat, e': nat)
    requires RegexMatch(s, i, e) && RegexMatch(s, i, e')
    ensures e == e'
  {
    MonthLetterIsNotSpace(s, e - 5);
    MonthLetterIsNotSpace(s, e' - 5);
  }

  /** Where a match of the pattern that starts at `i` ends, if one does. */
  function MarkerEnd(s: string, i: nat): (e: Option<nat>)
    requires i <= |s|
    ensures e.Some? ==> RegexMatch(s, i, e.value)
  {
    if i < |s| && s[i] == '/' then
      var j := RunEnd(s, Whitespace, i + 1);
      RunEndSpec(s, Whitespace, i + 1);
      if MonthAt(s, j) then Some(j + 5) else None
    else
      None
  }

  /** MarkerEnd finds every match: whenever the pattern matches `s[i..e]`, MarkerEnd says `e`. */
  lemma MarkerEndComplete(s: string, i: nat)
    requires i <= |s|
    ensures forall e: nat :: RegexMatch(s, i, e) ==> MarkerEnd(s, i) == Some(e)
  {
    forall e: nat | RegexMatch(s, i, e)
      ensures MarkerEnd(s, i) == Some(e)
    {
      var j := RunEnd(s, Whitespace, i + 1);
      RunEndSpec(s, Whitespace, i + 1);
      MonthLetterIsNotSpace(s, e - 5);
      assert j < |s| ==> !IsSpace(s[j]);
      assert j == e - 5;
    }
  }

  /** The start of the first match of the pattern at or after `from`. */
  function FindMarker(s: string, from: nat): (a: Option<nat>)
    requires from <= |s|
    ensures a.Some? ==> from <= a.value < |s| && MarkerEnd(s, a.value).Some?
    ensures a.None? ==> forall k: nat, e: nat :: from <= k ==> !RegexMatch(s, k, e)
    ensures a.Some? ==> forall k: nat, e: nat :: from <= k < a.value ==> !RegexMatch(s, k, e)
    decreases |s| - from
  {
    if from == |s| then None
    else if MarkerEnd(s, from).Some? then Some(from)
    else
      MarkerEndComplete(s, from);
      assert forall e: nat :: !RegexMatch(s, from, e);
      FindMarker(s, from + 1)
  }

  /** The first two pieces of `re.split(r"/\s*month", text, flags=re.IGNORECASE)`:
      the text before the first match, and, when there is a match, the text
      from its end up to the next match or to the end of the text. */
  datatype Pieces = Pieces(first: string, second: Option<string>)

  function SplitOnMarker(text: string): (r: Pieces)
    ensures r.second.None? <==> forall a: nat, e: nat :: !RegexMatch(text, a, e)
    ensures r.second.None? ==> r.first == text
    ensures r.second.Some? ==>
      exists a: nat, e: nat ::
        && FirstMatch(text, 0, a, e)
        && r.first == text[..a]
        && (|| (r.second.value == text[e..] && forall b: nat, e2: nat :: e <= b ==> !RegexMatch(text, b, e2))
            || (exists b: nat, e2: nat :: FirstMatch(text, e, b, e2) && r.second.value == text[e..b]))
  {
    match FindMarker(text, 0)
    case None => Pieces(text, None)
    case Some(a) =>
      var e := MarkerEnd(text, a).value;
      assert FirstMatch(text, 0, a, e);
      match FindMarker(text, e)
      case None => Pieces(text[..a], Some(text[e..]))
      case Some(b) =>
        var e2 := MarkerEnd(text, b).value;
        assert FirstMatch(text, e, b, e2);
        Pieces(text[..a], Some(text[e..b]))
  }

  /** `month_split[0].strip()`, the part of the stripped text before the first marker. */
  function PricePart(priceText: string): (p: string)
    ensures Trimmed(p)
  {
    StripIsTrimmed(SplitOnMarker(Strip(priceText)).first);
    Strip(SplitOnMarker(Strip(priceText)).first)
  }

  /** `month_split[1].strip()` when there is a marker, `""` otherwise. */
  function NotePart(priceText: string): (n: string)
    ensures Trimmed(n)
  {
    match SplitOnMarker(Strip(priceText)).second
    case None => ""
    case Some(after) => StripIsTrimmed(after); Strip(after)
  }

  /** `run.replace(",", "")`. */
  function DeleteCommas(s: string): (r: string)
    ensures forall c :: c in r <==> c in s && c != ','
    ensures (forall i :: 0 <= i < |s| ==> s[i] != ',') ==> r == s
    decreases |s|
  {
    if s == [] then []
    else
      var rest := DeleteCommas(s[1..]);
      assert s == [s[0]] + s[1..];
      if s[0] == ',' then rest else [s[0]] + rest
  }

  /** Deleting commas keeps every other character as often as it occurs, and no comma. */
  lemma {:induction false} DeleteCommasCount(s: string)
    ensures multiset(DeleteCommas(s)) == multiset(s)[',' := 0]
    decreases |s|
  {
    if s != [] {
      DeleteCommasCount(s[1..]);
      assert s == [s[0]] + s[1..];
      assert multiset(s) == multiset{s[0]} + multiset(s[1..]);
    }
  }

  /** Deleting commas works piece by piece, so the characters that remain keep their order. */
  lemma {:induction false} DeleteCommasAppend(a: string, b: string)
    ensures DeleteCommas(a + b) == DeleteCommas(a) + DeleteCommas(b)
    decreases |a|
  {
    if a == [] {
      assert a + b == b;
    } else {
      assert (a + b)[0] == a[0] && (a + b)[1..] == a[1..] + b;
      DeleteCommasAppend(a[1..], b);
    }
  }

  /** `number_match.group(1).replace(",", "") if number_match else ""`, where
      `number_match = re.search(r"([\d,.]+)", pricePart)`. */
  function AmountOf(pricePart: string): (amount: string)
    ensures forall c :: c in amount ==> IsDigit(c) || c == '.'
  {
    match Search(pricePart, AmountChar)
    case None => ""
    case Some(run) => DeleteCommas(run)
  }

  /** `currency_match.group(1) if currency_match else "Unknown"`, where
      `currency_match = re.search(r"([^\d\s,.]+)", pricePart)`. */
  function CurrencyOf(pricePart: string): (currency: string)
    ensures currency != []
  {
    match Search(pricePart, CurrencyChar)
    case None => "Unknown"
    case Some(run) => run
  }

  /** `extract_price_details(price_text)`. */
  function ExtractPriceDetails(priceText: string): (r: PriceDetails)
    ensures !MentionsMonth(priceText) ==> r == PriceDetails("Unknown", "", priceText)
    ensures forall c :: c in r.amount ==> IsDigit(c) || c == '.'
    ensures r.currency != []
    ensures MentionsMonth(priceText) ==> Trimmed(r.note)
  {
    if priceText == [] || !MentionsMonth(priceText) then
      PriceDetails("Unknown", "", priceText)
    else
      var pricePart := PricePart(priceText);
      PriceDetails(CurrencyOf(pricePart), AmountOf(pricePart), NotePart(priceText))
  }

  /** The amount is the first maximal run of `[\d,.]` with its commas deleted. */
  lemma AmountIsFirstRun(pricePart: string)
    ensures forall i: nat, j: nat :: IsFirstRun(pricePart, AmountChar, i, j) ==> AmountOf(pricePart) == DeleteCommas(pricePart[i..j])
  {
    forall i: nat, j: nat | IsFirstRun(pricePart, AmountChar, i, j)
      ensures AmountOf(pricePart) == DeleteCommas(pricePart[i..j])
    {
      SearchIsFirstRun(pricePart, AmountChar, i, j);
    }
  }

  /** The amount is empty exactly when the price part has no digit, comma or
      period, or when the first run of them holds only commas. */
  lemma AmountEmptyIff(pricePart: string)
    ensures AmountOf(pricePart) == "" <==>
      || (forall k :: 0 <= k < |pricePart| ==> !InClass(pricePart[k], AmountChar))
      || (exists i: nat, j: nat :: IsFirstRun(pricePart, AmountChar, i, j) && forall k :: i <= k < j ==> pricePart[k] == ',')
  {
    var i := FirstIndex(pricePart, AmountChar, 0);
    if i < |pricePart| {
      var j := RunEnd(pricePart, AmountChar, i);
      RunEndSpec(pricePart, AmountChar, i);
      assert IsFirstRun(pricePart, AmountChar, i, j);
      AmountEmptyAtRun(pricePart, i, j);
      forall i': nat, j': nat | IsFirstRun(pricePart, AmountChar, i', j')
        ensures i' == i && j' == j
      {
        FirstRunUnique(pricePart, AmountChar, i, j, i', j');
      }
    }
  }

  /** Given the first run of digits, commas and periods, the amount is empty
      exactly when that run holds only commas. */
  lemma AmountEmptyAtRun(pricePart: string, i: nat, j: nat)
    requires IsFirstRun(pricePart, AmountChar, i, j)
    ensures AmountOf(pricePart) == "" <==> forall k :: i <= k < j ==> pricePart[k] == ','
  {
    SearchIsFirstRun(pricePart, AmountChar, i, j);
    var run := pricePart[i..j];
    assert AmountOf(pricePart) == DeleteCommas(run);
    DeleteCommasEmpty(run);
    CommasOnlyInSlice(pricePart, i, j);
  }

  lemma CommasOnlyInSlice(s: string, i: nat, j: nat)
    requires i <= j <= |s|
    ensures (forall k :: i <= k < j ==> s[k] == ',') <==> (forall k :: 0 <= k < |s[i..j]| ==> s[i..j][k] == ',')
  {
    forall k | i <= k < j
      ensures s[i..j][k - i] == s[k]
    {
    }
  }

  /** Deleting the commas leaves nothing exactly when there was nothing but commas. */
  lemma DeleteCommasEmpty(s: string)
    ensures DeleteCommas(s) == [] <==> forall k :: 0 <= k < |s| ==> s[k] == ','
  {
    var r := DeleteCommas(s);
    if r != [] {
      assert r[0] in r;
    }
    if exists k :: 0 <= k < |s| && s[k] != ',' {
      var k :| 0 <= k < |s| && s[k] != ',';
      assert s[k] in s;
    }
  }

  /** The currency is `"Unknown"` when there is no character outside digits,
      whitespace, `,` and `.`; otherwise it is the first maximal run of such characters. */
  lemma CurrencySpec(pricePart: string)
    ensures (forall k :: 0 <= k < |pricePart| ==> !InClass(pricePart[k], CurrencyChar)) ==> CurrencyOf(pricePart) == "Unknown"
    ensures forall i: nat, j: nat :: IsFirstRun(pricePart, CurrencyChar, i, j) ==> CurrencyOf(pricePart) == pricePart[i..j]
  {
    forall i: nat, j: nat | IsFirstRun(pricePart, CurrencyChar, i, j)
      ensures CurrencyOf(pricePart) == pricePart[i..j]
    {
      SearchIsFirstRun(pricePart, CurrencyChar, i, j);
    }
  }

  /** Past the guard, the triple is the currency and the amount of the price part and the note part. */
  lemma ExtractParts(priceText: string)
    requires MentionsMonth(priceText)
    ensures ExtractPriceDetails(priceText) ==
      PriceDetails(CurrencyOf(PricePart(priceText)), AmountOf(PricePart(priceText)), NotePart(priceText))
  {
  }

  /** When "month" occurs but no `/`-prefixed marker does, the note is empty and
      the price part is the whole stripped text. */
  lemma NoMarkerSpec(priceText: string)
    requires MentionsMonth(priceText)
    requires forall a: nat, e: nat :: !RegexMatch(Strip(priceText), a, e)
    ensures ExtractPriceDetails(priceText).note == ""
    ensures PricePart(priceText) == Strip(priceText)
  {
    var text := Strip(priceText);
    var pieces := SplitOnMarker(text);
    assert pieces.second.None?;
    assert pieces.first == text;
    StripIdempotent(priceText);
    ExtractParts(priceText);
  }

  /** Text carrying a `/month` marker always passes the `"month"` guard, so the
      guard never hides a marker from the split. */
  lemma MarkerImpliesMentionsMonth(priceText: string, a: nat, e: nat)
    requires RegexMatch(Strip(priceText), a, e)
    ensures MentionsMonth(priceText)
  {
    var text := Strip(priceText);
    var lead := StripStart(priceText);
    StripSurround(priceText);
    var m := e - 5;
    assert text[m..m + 5] == priceText[lead + m..lead + m + 5];
    assert MonthAt(priceText, lead + m);
  }

  /** A match that no `/` precedes is the first one. */
  lemma FirstSlashStartsMarker(s: string, a: nat, e: nat)
    requires RegexMatch(s, a, e)
    requires forall k :: 0 <= k < a ==> s[k] != '/'
    ensures FindMarker(s, 0) == Some(a) && MarkerEnd(s, a) == Some(e)
  {
    MarkerEndComplete(s, a);
  }

  /** The text `pricePart + "/month"`, with `pricePart` trimmed and free of `/`,
      is already stripped and splits into `pricePart` and an empty second piece. */
  lemma SplitBeforeTrailingMarker(pricePart: string)
    requires pricePart != [] && Trimmed(pricePart)
    requires forall k :: 0 <= k < |pricePart| ==> pricePart[k] != '/'
    ensures MentionsMonth(pricePart + "/month")
    ensures Strip(pricePart + "/month") == pricePart + "/month"
    ensures SplitOnMarker(pricePart + "/month") == Pieces(pricePart, Some([]))
  {
    var s := pricePart + "/month";
    var m := |pricePart|;
    assert s[m + 1..] == "month";
    assert MonthAt(s, m + 1);
    assert !IsSpace(s[0]) && s[|s| - 1] == 'h';
    StripTrimmed(s);
    assert RegexMatch(s, m, |s|);
    assert forall k :: 0 <= k < m ==> s[k] == pricePart[k];
    FirstSlashStartsMarker(s, m, |s|);
    assert s[..m] == pricePart;
  }

  /** A currency character is not in the amount class, and a digit or a period
      is in the amount class and not in the currency class. */
  lemma ClassesApart(c: char)
    ensures InClass(c, CurrencyChar) ==> !InClass(c, AmountChar)
    ensures IsDigit(c) || c == '.' ==> InClass(c, AmountChar) && !InClass(c, CurrencyChar)
  {
  }

  /** In a currency token followed by a number, the token is the first
      currency run and the number the first amount run. */
  lemma TokenThenNumberRuns(currency: string, number: string)
    requires currency != [] && forall k :: 0 <= k < |currency| ==> InClass(currency[k], CurrencyChar)
    requires number != [] && forall k :: 0 <= k < |number| ==> IsDigit(number[k]) || number[k] == '.'
    ensures IsFirstRun(currency + number, CurrencyChar, 0, |currency|)
    ensures IsFirstRun(currency + number, AmountChar, |currency|, |currency + number|)
  {
    var pricePart := currency + number;
    var c := |currency|;
    forall k | 0 <= k < c
      ensures pricePart[k] == currency[k] && !InClass(pricePart[k], AmountChar)
    {
      ClassesApart(currency[k]);
    }
    forall k | c <= k < |pricePart|
      ensures pricePart[k] == number[k - c] && InClass(pricePart[k], AmountChar)
    {
      ClassesApart(number[k - c]);
    }
    assert pricePart[c] == number[0];
    ClassesApart(number[0]);
  }

  lemma TokenThenNumber(currency: string, number: string)
    requires currency != [] && forall k :: 0 <= k < |currency| ==> InClass(currency[k], CurrencyChar)
    requires number != [] && forall k :: 0 <= k < |number| ==> IsDigit(number[k]) || number[k] == '.'
    ensures CurrencyOf(currency + number) == currency
    ensures AmountOf(currency + number) == number
  {
    var pricePart := currency + number;
    var c := |currency|;
    TokenThenNumberRuns(currency, number);
    SearchIsFirstRun(pricePart, AmountChar, c, |pricePart|);
    assert pricePart[c..|pricePart|] == number;
    SearchIsFirstRun(pricePart, CurrencyChar, 0, c);
    assert pricePart[0..c] == currency;
  }

  lemma TrailingMarkerParts(pricePart: string)
    requires pricePart != [] && Trimmed(pricePart)
    requires forall k :: 0 <= k < |pricePart| ==> pricePart[k] != '/'
    ensures PricePart(pricePart + "/month") == pricePart
    ensures NotePart(pricePart + "/month") == ""
  {
    SplitBeforeTrailingMarker(pricePart);
    StripTrimmed(pricePart);
    var none: string := [];
    StripTrimmed(none);
  }

  /** A price written as a currency token, a number and "/month" and nothing
      else parses to exactly that currency and that number, with no note. */
  lemma PlainMonthlyPrice(currency: string, number: string)
    requires currency != [] && forall k :: 0 <= k < |currency| ==> InClass(currency[k], CurrencyChar) && currency[k] != '/'
    requires number != [] && forall k :: 0 <= k < |number| ==> IsDigit(number[k]) || number[k] == '.'
    ensures ExtractPriceDetails(currency + number + "/month") == PriceDetails(currency, number, "")
  {
    var pricePart := currency + number;
    assert pricePart[|pricePart| - 1] == number[|number| - 1];
    assert Trimmed(pricePart);
    assert forall k :: 0 <= k < |pricePart| ==> pricePart[k] != '/';
    SplitBeforeTrailingMarker(pricePart);
    TrailingMarkerParts(pricePart);
    TokenThenNumber(currency, number);
    ExtractParts(pricePart + "/month");
  }
}
