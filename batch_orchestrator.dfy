/**
 * The batching loop of `main`: the country list is cut into consecutive
 * slices of at most `BatchSize` countries; for each slice the `process_country`
 * calls are gathered and their results are appended in slice order.
 *
 * The browser is abstracted as in CountryScraper: `outcomes[k]` is what the tab opened
 * for `countries[k]` yields (see CountryScraper.PageOutcome).
 */
module BatchOrchestrator {
  import opened Text
  import opened CountryScraper

  /** `batch_size = 5`: how many countries are scraped at once. */
  const BatchSize: nat := 5

  /** The end of the slice `xs[i:i+size]`: Python clamps it to the length. */
  function SliceEnd(n: nat, size: nat, i: nat): (hi: nat)
    requires i < n && 0 < size
    ensures i < hi <= n && hi - i <= size
    ensures hi < n ==> hi == i + size
  {
    if i + size <= n then i + size else n
  }

  /** The slices `xs[i:i+size]` for `i` in `range(start, len(xs), size)`. */
  function BatchesFrom<T>(xs: seq<T>, size: nat, start: nat): (r: seq<seq<T>>)
    requires 0 < size && start <= |xs|
    ensures forall k :: 0 <= k < |r| ==> 0 < |r[k]| <= size
    decreases |xs| - start
  {
    if start == |xs| then []
    else
      var hi := SliceEnd(|xs|, size, start);
      [xs[start..hi]] + BatchesFrom(xs, size, hi)
  }

  /** The slices the outer loop of `main` visits, in order. */
  function Batches<T>(xs: seq<T>, size: nat): (r: seq<seq<T>>)
    requires 0 < size
    ensures Flatten(r) == xs
  {
    BatchesFromFlatten(xs, size, 0);
    BatchesFrom(xs, size, 0)
  }

  /** The concatenation of a list of lists, in order. */
  function Flatten<T>(xss: seq<seq<T>>): (r: seq<T>)
    decreases |xss|
  {
    if xss == [] then [] else xss[0] + Flatten(xss[1..])
  }

  /** What `process_country` returns for each country of the list, in list order. */
  function Reports(countries: seq<string>, outcomes: seq<PageOutcome>): (r: seq<seq<PriceRecord>>)
    requires |outcomes| == |countries|
    ensures |r| == |countries|
    decreases |countries|
  {
    if countries == [] then []
    else
      var n := |countries| - 1;
      Reports(countries[..n], outcomes[..n]) + [CountryRecords(countries[n], outcomes[n])]
  }

  /** The report at position `k` is `process_country`'s result for the `k`-th country. */
  lemma {:induction false} ReportsAt(countries: seq<string>, outcomes: seq<PageOutcome>, k: nat)
    requires |outcomes| == |countries| && k < |countries|
    ensures Reports(countries, outcomes)[k] == CountryRecords(countries[k], outcomes[k])
    decreases |countries|
  {
    var n := |countries| - 1;
    if k < n {
      ReportsAt(countries[..n], outcomes[..n], k);
    }
  }

  /** The reports of a list are those of its first part followed by those of the rest. */
  lemma ReportsAppend(c1: seq<string>, o1: seq<PageOutcome>, c2: seq<string>, o2: seq<PageOutcome>)
    requires |o1| == |c1| && |o2| == |c2|
    ensures Reports(c1 + c2, o1 + o2) == Reports(c1, o1) + Reports(c2, o2)
  {
    var whole, first, rest := Reports(c1 + c2, o1 + o2), Reports(c1, o1), Reports(c2, o2);
    forall k | 0 <= k < |whole|
      ensures whole[k] == (first + rest)[k]
    {
      ReportsAt(c1 + c2, o1 + o2, k);
      if k < |c1| {
        ReportsAt(c1, o1, k);
      } else {
        ReportsAt(c2, o2, k - |c1|);
      }
    }
  }

  /** The `results` list `main` hands to the spreadsheet writer: each country's
      records, in the order of the country list. */
  function AllRecords(countries: seq<string>, outcomes: seq<PageOutcome>): (r: seq<PriceRecord>)
    requires |outcomes| == |countries|
    ensures |r| >= |countries|
  {
    ReportsNonEmpty(countries, outcomes);
    FlattenLength(Reports(countries, outcomes));
    Flatten(Reports(countries, outcomes))
  }

  /** No country's report is empty. */
  lemma ReportsNonEmpty(countries: seq<string>, outcomes: seq<PageOutcome>)
    requires |outcomes| == |countries|
    ensures forall k :: 0 <= k < |countries| ==> Reports(countries, outcomes)[k] != []
  {
    forall k | 0 <= k < |countries|
      ensures Reports(countries, outcomes)[k] != []
    {
      ReportsAt(countries, outcomes, k);
    }
  }

  /** The batching loop of `main` (the `for i in range(0, len(countries), batch_size)`
      loop), given what each country's tab yields. Returns the collected results
      and, alongside, the slices it visited. */
  method RunBatches(countries: seq<string>, outcomes: seq<PageOutcome>)
    returns (results: seq<PriceRecord>, batches: seq<seq<string>>)
    requires |outcomes| == |countries|
    ensures results == AllRecords(countries, outcomes)
    ensures batches == Batches(countries, BatchSize)
  {
    ghost var reports := Reports(countries, outcomes);
    results, batches := [], [];
    var i := 0;
    while i < |countries|
      invariant i <= |countries|
      invariant results + Flatten(reports[i..]) == Flatten(reports)
      invariant batches + BatchesFrom(countries, BatchSize, i) == Batches(countries, BatchSize)
      decreases |countries| - i
    {
      var hi := SliceEnd(|countries|, BatchSize, i);
      batches := batches + [countries[i..hi]];
      var batchResults := GatherBatch(countries, outcomes, i, hi);
      ghost var previous := results;
      results := ExtendAll(results, batchResults);
      ExtendStep(reports, i, hi, previous, results);
      i := hi;
    }
  }

  /** `asyncio.gather(*tasks)` over the `process_country` calls of the slice
      `countries[lo..hi]`: one result list per country, in task order. */
  method GatherBatch(countries: seq<string>, outcomes: seq<PageOutcome>, lo: nat, hi: nat)
    returns (batchResults: seq<seq<PriceRecord>>)
    requires |outcomes| == |countries| && lo <= hi <= |countries|
    ensures batchResults == Reports(countries, outcomes)[lo..hi]
  {
    ghost var reports := Reports(countries, outcomes);
    batchResults := [];
    for j := lo to hi
      invariant batchResults == reports[lo..j]
    {
      var res := ProcessCountry(countries[j], outcomes[j]);
      ReportsAt(countries, outcomes, j);
      SliceSnoc(reports, lo, j);
      batchResults := batchResults + [res];
    }
  }

  /** Extending a slice by one position appends that element. */
  lemma SliceSnoc<T>(xs: seq<T>, lo: nat, j: nat)
    requires lo <= j < |xs|
    ensures xs[lo..j + 1] == xs[lo..j] + [xs[j]]
  {
  }

  /** `for res in batch_results: results.extend(res)`. */
  method ExtendAll<T>(results: seq<T>, batchResults: seq<seq<T>>) returns (r: seq<T>)
    ensures r == results + Flatten(batchResults)
  {
    r := results;
    for t := 0 to |batchResults|
      invariant r == results + Flatten(batchResults[..t])
    {
      assert batchResults[..t + 1] == batchResults[..t] + [batchResults[t]];
      FlattenAppend(batchResults[..t], [batchResults[t]]);
      assert Flatten([batchResults[t]]) == batchResults[t] + Flatten([]);
      r := r + batchResults[t];
    }
    assert batchResults[..|batchResults|] == batchResults;
  }

  /** Concatenating two lists of lists concatenates their concatenations. */
  lemma {:induction false} FlattenAppend<T>(a: seq<seq<T>>, b: seq<seq<T>>)
    ensures Flatten(a + b) == Flatten(a) + Flatten(b)
    decreases |a|
  {
    if a != [] {
      assert (a + b)[1..] == a[1..] + b;
      FlattenAppend(a[1..], b);
    } else {
      assert a + b == b;
    }
  }

  /** Cutting a list of lists at `mid` cuts its concatenation accordingly. */
  lemma FlattenSplit<T>(xss: seq<seq<T>>, lo: nat, mid: nat)
    requires lo <= mid <= |xss|
    ensures Flatten(xss[lo..]) == Flatten(xss[lo..mid]) + Flatten(xss[mid..])
  {
    assert xss[lo..] == xss[lo..mid] + xss[mid..];
    FlattenAppend(xss[lo..mid], xss[mid..]);
  }

  /** Extending the results with one slice's reports keeps them a prefix of the whole. */
  lemma ExtendStep<T>(xss: seq<seq<T>>, lo: nat, hi: nat, before: seq<T>, after: seq<T>)
    requires lo <= hi <= |xss|
    requires before + Flatten(xss[lo..]) == Flatten(xss)
    requires after == before + Flatten(xss[lo..hi])
    ensures after + Flatten(xss[hi..]) == Flatten(xss)
  {
    FlattenSplit(xss, lo, hi);
    AppendAssoc(before, Flatten(xss[lo..hi]), Flatten(xss[hi..]));
  }

  lemma AppendAssoc<T>(a: seq<T>, b: seq<T>, c: seq<T>)
    ensures (a + b) + c == a + (b + c)
  {
  }

  /** An element is in the concatenation exactly when it is in one of the lists. */
  lemma {:induction false} FlattenMembers<T>(xss: seq<seq<T>>, x: T)
    ensures x in Flatten(xss) <==> exists k :: 0 <= k < |xss| && x in xss[k]
    decreases |xss|
  {
    if xss != [] {
      FlattenMembers(xss[1..], x);
      if exists k :: 0 <= k < |xss| && x in xss[k] {
        var k :| 0 <= k < |xss| && x in xss[k];
        if k > 0 {
          assert xss[1..][k - 1] == xss[k];
        }
      }
      if exists k :: 0 <= k < |xss[1..]| && x in xss[1..][k] {
        var k :| 0 <= k < |xss[1..]| && x in xss[1..][k];
        assert xss[k + 1] == xss[1..][k];
      }
    }
  }

  /** When no list is empty, the concatenation is at least as long as the list of lists. */
  lemma {:induction false} FlattenLength<T>(xss: seq<seq<T>>)
    requires forall k :: 0 <= k < |xss| ==> xss[k] != []
    ensures |Flatten(xss)| >= |xss|
    decreases |xss|
  {
    if xss != [] {
      assert forall k :: 0 <= k < |xss[1..]| ==> xss[1..][k] == xss[k + 1];
      FlattenLength(xss[1..]);
    }
  }

  /** The slices are the country list cut in order: nothing dropped, duplicated or reordered. */
  lemma {:induction false} BatchesFromFlatten<T>(xs: seq<T>, size: nat, start: nat)
    requires 0 < size && start <= |xs|
    ensures Flatten(BatchesFrom(xs, size, start)) == xs[start..]
    decreases |xs| - start
  {
    if start < |xs| {
      var hi := SliceEnd(|xs|, size, start);
      BatchesFromFlatten(xs, size, hi);
      assert xs[start..] == xs[start..hi] + xs[hi..];
    }
  }

  lemma BatchesFlatten<T>(xs: seq<T>, size: nat)
    requires 0 < size
    ensures Flatten(Batches(xs, size)) == xs
  {
    BatchesFromFlatten(xs, size, 0);
  }

  /** Every slice is non-empty and holds at most `size` elements, and every
      slice but the last holds exactly `size`. */
  lemma {:induction false} BatchesFromShape<T>(xs: seq<T>, size: nat, start: nat)
    requires 0 < size && start <= |xs|
    ensures forall k :: 0 <= k < |BatchesFrom(xs, size, start)| ==>
      0 < |BatchesFrom(xs, size, start)[k]| <= size
    ensures forall k :: 0 <= k < |BatchesFrom(xs, size, start)| - 1 ==>
      |BatchesFrom(xs, size, start)[k]| == size
    decreases |xs| - start
  {
    if start < |xs| {
      var hi := SliceEnd(|xs|, size, start);
      BatchesFromShape(xs, size, hi);
      if hi == |xs| {
        assert BatchesFrom(xs, size, hi) == [];
      }
    }
  }

  /** There are `ceil(len / size)` slices, as many as `range(0, len, size)`
      has elements: the fewest `size`-element slices that cover the list. */
  lemma {:induction false} BatchesFromCount<T>(xs: seq<T>, size: nat, start: nat)
    requires 0 < size && start <= |xs|
    ensures |BatchesFrom(xs, size, start)| * size >= |xs| - start
    ensures (|BatchesFrom(xs, size, start)| - 1) * size < |xs| - start
    decreases |xs| - start
  {
    if start < |xs| {
      var hi := SliceEnd(|xs|, size, start);
      var m := |BatchesFrom(xs, size, hi)|;
      BatchesFromCount(xs, size, hi);
      assert |BatchesFrom(xs, size, start)| == m + 1;
      assert (m + 1) * size == m * size + size;
    }
  }

  lemma BatchesShape<T>(xs: seq<T>, size: nat)
    requires 0 < size
    ensures |Batches(xs, size)| * size >= |xs|
    ensures (|Batches(xs, size)| - 1) * size < |xs|
    ensures forall k :: 0 <= k < |Batches(xs, size)| ==> 0 < |Batches(xs, size)[k]| <= size
    ensures forall k :: 0 <= k < |Batches(xs, size)| - 1 ==> |Batches(xs, size)[k]| == size
  {
    BatchesFromCount(xs, size, 0);
    BatchesFromShape(xs, size, 0);
  }

  /** Twelve countries make three slices, of five, five and two countries. */
  lemma ExampleTwelveCountries(countries: seq<string>)
    requires |countries| == 12
    ensures Batches(countries, BatchSize) == [countries[..5], countries[5..10], countries[10..]]
  {
    assert BatchesFrom(countries, BatchSize, 12) == [];
    assert BatchesFrom(countries, BatchSize, 10) == [countries[10..12]];
    assert BatchesFrom(countries, BatchSize, 5) == [countries[5..10], countries[10..12]];
    assert countries[10..12] == countries[10..];
  }

  /** Every country of the list is reported by at least one row, every row
      names a country of the list, and there are at least as many rows as countries. */
  lemma EveryCountryReported(countries: seq<string>, outcomes: seq<PageOutcome>)
    requires |outcomes| == |countries|
    ensures forall k :: 0 <= k < |countries| ==>
      exists r :: r in AllRecords(countries, outcomes) && r.country == countries[k]
    ensures forall r :: r in AllRecords(countries, outcomes) ==> r.country in countries
    ensures |AllRecords(countries, outcomes)| >= |countries|
  {
    var reports := Reports(countries, outcomes);
    forall k | 0 <= k < |countries|
      ensures reports[k] != [] && forall r: PriceRecord :: r in reports[k] ==> r.country == countries[k]
    {
      ReportsAt(countries, outcomes, k);
      CountryRecordsTagged(countries[k], outcomes[k]);
    }
    FlattenLength(reports);
    forall k | 0 <= k < |countries|
      ensures exists r :: r in AllRecords(countries, outcomes) && r.country == countries[k]
    {
      var r := reports[k][0];
      FlattenMembers(reports, r);
      assert r in reports[k];
    }
    forall r | r in AllRecords(countries, outcomes)
      ensures r.country in countries
    {
      FlattenMembers(reports, r);
      var k :| 0 <= k < |reports| && r in reports[k];
    }
  }

  /** The results of a list are the results of its first part followed by
      those of the rest, so cutting the list into slices and concatenating
      the slices' results changes nothing. */
  lemma AllRecordsAppend(c1: seq<string>, o1: seq<PageOutcome>, c2: seq<string>, o2: seq<PageOutcome>)
    requires |o1| == |c1| && |o2| == |c2|
    ensures AllRecords(c1 + c2, o1 + o2) == AllRecords(c1, o1) + AllRecords(c2, o2)
  {
    ReportsAppend(c1, o1, c2, o2);
    FlattenAppend(Reports(c1, o1), Reports(c2, o2));
  }

  /** A failed tab gives an ERROR row and a page without a pricing list an N/A
      row, each in its country's place. */
  lemma ExampleTwoCountries()
    ensures AllRecords(["Atlantis", "Utopia"], [Failed("Timeout 60000ms exceeded"), Rendered(None)])
      == [ErrorRecord("Atlantis", "Timeout 60000ms exceeded"), NotAvailable("Utopia")]
  {
    var reports := Reports(["Atlantis", "Utopia"], [Failed("Timeout 60000ms exceeded"), Rendered(None)]);
    assert reports == [[ErrorRecord("Atlantis", "Timeout 60000ms exceeded")], [NotAvailable("Utopia")]];
    assert Flatten(reports[1..]) == [NotAvailable("Utopia")] + Flatten(reports[2..]);
  }
}
