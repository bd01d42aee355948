/**
 * Character classes and string scans that the price parser and the row
 * splitter are built from: Python's `str.strip()`, the regular-expression
 * classes the patterns use, and "the first maximal run of characters of a
 * class", which is what `re.search(r"([...]+)", s).group(1)` returns.
 */
module Text {

  datatype Option<+T> = None | Some(value: T)

  /** Python's whitespace: the characters for which `str.isspace()` holds,
      which are also the characters `\s` matches in a `str` pattern. */
  predicate IsSpace(c: char) {
    || ('\t' <= c <= '\r')
    || ('\U{1C}' <= c <= '\U{1F}')
    || c == ' '
    || c == '\U{85}'
    || c == '\U{A0}'
    || c == '\U{1680}'
    || ('\U{2000}' <= c <= '\U{200A}')
    || c == '\U{2028}'
    || c == '\U{2029}'
    || c == '\U{202F}'
    || c == '\U{205F}'
    || c == '\U{3000}'
  }

  /** The regular-expression class `\d`, restricted to ASCII digits. */
  predicate IsDigit(c: char) {
    '0' <= c <= '9'
  }

  /** The character classes the scraper's patterns and splits use. */
  datatype CharClass =
    | Whitespace    // `\s`
    | Colon         // the `:` that separates plan from price
    | AmountChar    // `[\d,.]`
    | CurrencyChar  // `[^\d\s,.]`

  predicate InClass(c: char, k: CharClass) {
    match k
    case Whitespace => IsSpace(c)
    case Colon => c == ':'
    case AmountChar => IsDigit(c) || c == ',' || c == '.'
    case CurrencyChar => !IsDigit(c) && !IsSpace(c) && c != ',' && c != '.'
  }

  /** ASCII lower-casing, as Python's `str.lower()` acts on the letters of "month". */
  function Lower(c: char): (l: char)
    ensures l == c || 'A' <= c <= 'Z'
    ensures l == 'm' <==> c == 'm' || c == 'M'
    ensures l == 'o' <==> c == 'o' || c == 'O'
    ensures l == 'n' <==> c == 'n' || c == 'N'
    ensures l == 't' <==> c == 't' || c == 'T'
    ensures l == 'h' <==> c == 'h' || c == 'H'
  {
    if 'A' <= c <= 'Z' then (c as int + 32) as char else c
  }

  ghost predicate AllSpace(s: string) {
    forall i :: 0 <= i < |s| ==> IsSpace(s[i])
  }

  /** A string that `strip()` leaves as it is. */
  ghost predicate Trimmed(s: string) {
    s == [] || (!IsSpace(s[0]) && !IsSpace(s[|s| - 1]))
  }

  /** The first index at or after `from` whose character is in class `k`, or `|s|`. */
  function FirstIndex(s: string, k: CharClass, from: nat): (i: nat)
    requires from <= |s|
    ensures from <= i <= |s|
    ensures i < |s| ==> InClass(s[i], k)
    ensures forall j :: from <= j < i ==> !InClass(s[j], k)
    decreases |s| - from
  {
    if from == |s| || InClass(s[from], k) then from else FirstIndex(s, k, from + 1)
  }

  /** The end of the longest run of class-`k` characters that starts at `from`. */
  function RunEnd(s: string, k: CharClass, from: nat): (e: nat)
    requires from <= |s|
    ensures from <= e <= |s|
    decreases |s| - from
  {
    if from < |s| && InClass(s[from], k) then RunEnd(s, k, from + 1) else from
  }

  /** Every character of the run is in class `k`, and the one after it is not. */
  lemma {:induction false} RunEndSpec(s: string, k: CharClass, from: nat)
    requires from <= |s|
    ensures forall j :: from <= j < RunEnd(s, k, from) ==> InClass(s[j], k)
    ensures RunEnd(s, k, from) < |s| ==> !InClass(s[RunEnd(s, k, from)], k)
    decreases |s| - from
  {
    if from < |s| && InClass(s[from], k) {
      RunEndSpec(s, k, from + 1);
    }
  }

  /** The start of the longest run of class-`k` characters that ends at `hi`
      and does not reach below `lo`. */
  function RunStart(s: string, k: CharClass, lo: nat, hi: nat): (b: nat)
    requires lo <= hi <= |s|
    ensures lo <= b <= hi
    decreases hi
  {
    if lo < hi && InClass(s[hi - 1], k) then RunStart(s, k, lo, hi - 1) else hi
  }

  /** Every character of the run is in class `k`, and the one before it, if
      still at or above `lo`, is not. */
  lemma {:induction false} RunStartSpec(s: string, k: CharClass, lo: nat, hi: nat)
    requires lo <= hi <= |s|
    ensures forall j :: RunStart(s, k, lo, hi) <= j < hi ==> InClass(s[j], k)
    ensures lo < RunStart(s, k, lo, hi) ==> !InClass(s[RunStart(s, k, lo, hi) - 1], k)
    decreases hi
  {
    if lo < hi && InClass(s[hi - 1], k) {
      RunStartSpec(s, k, lo, hi - 1);
    }
  }

  /** Whatever index has the characterisation of RunEnd is RunEnd. */
  lemma {:induction false} RunEndIs(s: string, k: CharClass, from: nat, e: nat)
    requires from <= e <= |s|
    requires forall j :: from <= j < e ==> InClass(s[j], k)
    requires e < |s| ==> !InClass(s[e], k)
    ensures RunEnd(s, k, from) == e
    decreases e - from
  {
    if from < e {
      RunEndIs(s, k, from + 1, e);
    }
  }

  /** Whatever index has the characterisation of RunStart is RunStart. */
  lemma {:induction false} RunStartIs(s: string, k: CharClass, lo: nat, hi: nat, b: nat)
    requires lo <= b <= hi <= |s|
    requires forall j :: b <= j < hi ==> InClass(s[j], k)
    requires lo < b ==> !InClass(s[b - 1], k)
    ensures RunStart(s, k, lo, hi) == b
    decreases hi
  {
    if hi > b {
      RunStartIs(s, k, lo, hi - 1, b);
    }
  }

  /** Where the text that `strip()` keeps starts: the end of the leading whitespace. */
  function StripStart(s: string): (a: nat)
    ensures a <= |s|
  {
    RunEnd(s, Whitespace, 0)
  }

  /** Where the text that `strip()` keeps ends: the start of the trailing whitespace. */
  function StripEnd(s: string): (b: nat)
    ensures StripStart(s) <= b <= |s|
  {
    RunStart(s, Whitespace, StripStart(s), |s|)
  }

  /** `s.strip()`: the infix of `s` between its leading and its trailing whitespace. */
  function Strip(s: string): (r: string)
    ensures |r| <= |s|
    ensures Trimmed(r)
  {
    RunEndSpec(s, Whitespace, 0);
    RunStartSpec(s, Whitespace, StripStart(s), |s|);
    s[StripStart(s)..StripEnd(s)]
  }

  /** What `strip()` returns neither starts nor ends with whitespace. */
  lemma StripIsTrimmed(s: string)
    ensures Trimmed(Strip(s))
  {
    var a, b := StripStart(s), StripEnd(s);
    RunEndSpec(s, Whitespace, 0);
    RunStartSpec(s, Whitespace, a, |s|);
    assert a < b ==> s[a..b][0] == s[a] && s[a..b][b - a - 1] == s[b - 1];
  }

  /** What `strip()` removes is whitespace. */
  lemma StripSurround(s: string)
    ensures Strip(s) == s[StripStart(s)..StripEnd(s)]
    ensures AllSpace(s[..StripStart(s)]) && AllSpace(s[StripEnd(s)..])
  {
    RunEndSpec(s, Whitespace, 0);
    RunStartSpec(s, Whitespace, StripStart(s), |s|);
  }

  /** Every string is its stripped form with whitespace around it. */
  lemma StripSplits(s: string) returns (w1: string, w2: string)
    ensures AllSpace(w1) && AllSpace(w2)
    ensures s == w1 + Strip(s) + w2
  {
    var a, b := StripStart(s), StripEnd(s);
    StripSurround(s);
    w1, w2 := s[..a], s[b..];
    assert s == s[..a] + s[a..b] + s[b..];
  }

  /** `strip()` is determined by its characterisation: whatever trimmed string is
      surrounded by whitespace only is the result. */
  lemma StripOfPadded(w1: string, m: string, w2: string)
    requires AllSpace(w1) && AllSpace(w2) && Trimmed(m)
    ensures Strip(w1 + m + w2) == m
  {
    var s := w1 + m + w2;
    var a, b := |w1|, |w1| + |m|;
    assert forall j :: 0 <= j < a ==> s[j] == w1[j];
    assert forall j :: b <= j < |s| ==> s[j] == w2[j - b];
    if m == [] {
      RunEndIs(s, Whitespace, 0, |s|);
    } else {
      assert s[a] == m[0] && s[b - 1] == m[|m| - 1];
      RunEndIs(s, Whitespace, 0, a);
      RunStartIs(s, Whitespace, a, |s|, b);
      assert s[a..b] == m;
    }
  }

  /** `strip()` leaves a trimmed string as it is. */
  lemma StripTrimmed(s: string)
    requires Trimmed(s)
    ensures Strip(s) == s
  {
    var none: string := [];
    StripOfPadded(none, s, none);
    assert none + s + none == s;
  }

  lemma StripIdempotent(s: string)
    ensures Strip(Strip(s)) == Strip(s)
  {
    StripIsTrimmed(s);
    StripTrimmed(Strip(s));
  }

  /** Leading whitespace makes no difference to `strip()`. */
  lemma StripIgnoresLeadingSpace(w: string, x: string)
    requires AllSpace(w)
    ensures Strip(w + x) == Strip(x)
  {
    var w1, w2 := StripSplits(x);
    StripIsTrimmed(x);
    assert w + x == (w + w1) + Strip(x) + w2;
    StripOfPadded(w + w1, Strip(x), w2);
  }

  /** Trailing whitespace makes no difference to `strip()`. */
  lemma StripIgnoresTrailingSpace(x: string, w: string)
    requires AllSpace(w)
    ensures Strip(x + w) == Strip(x)
  {
    var w1, w2 := StripSplits(x);
    StripIsTrimmed(x);
    assert x + w == w1 + Strip(x) + (w2 + w);
    StripOfPadded(w1, Strip(x), w2 + w);
  }

  /** `s[i..j]` is the leftmost maximal non-empty run of class-`k` characters in `s`:
      what the pattern `(K+)` matches under `re.search`. */
  ghost predicate IsFirstRun(s: string, k: CharClass, i: nat, j: nat) {
    && i < j <= |s|
    && (forall x :: 0 <= x < i ==> !InClass(s[x], k))
    && (forall x :: i <= x < j ==> InClass(s[x], k))
    && (j < |s| ==> !InClass(s[j], k))
  }

  /** There is at most one leftmost maximal run. */
  lemma FirstRunUnique(s: string, k: CharClass, i: nat, j: nat, i': nat, j': nat)
    requires IsFirstRun(s, k, i, j) && IsFirstRun(s, k, i', j')
    ensures i == i' && j == j'
  {
    assert InClass(s[i], k) && InClass(s[i'], k);
    assert j < |s| ==> !InClass(s[j], k);
    assert j' < |s| ==> !InClass(s[j'], k);
  }

  /** `re.search(r"(K+)", s)`: the first maximal run of class-`k` characters, if any. */
  function Search(s: string, k: CharClass): (r: Option<string>)
    ensures r.None? <==> forall x :: 0 <= x < |s| ==> !InClass(s[x], k)
    ensures r.Some? ==> exists i: nat, j: nat :: IsFirstRun(s, k, i, j) && r.value == s[i..j]
    ensures r.Some? ==> r.value != [] && forall c :: c in r.value ==> InClass(c, k)
  {
    var i := FirstIndex(s, k, 0);
    if i == |s| then None
    else
      var j := RunEnd(s, k, i);
      RunEndSpec(s, k, i);
      assert IsFirstRun(s, k, i, j);
      Some(s[i..j])
  }

  /** Whatever run has the characterisation of the first maximal run is the one Search returns. */
  lemma SearchIsFirstRun(s: string, k: CharClass, i: nat, j: nat)
    requires IsFirstRun(s, k, i, j)
    ensures Search(s, k) == Some(s[i..j])
  {
    var i0 := FirstIndex(s, k, 0);
    assert InClass(s[i], k);
    assert i0 <= i;
    assert i0 < |s| && InClass(s[i0], k);
    RunEndIs(s, k, i, j);
  }

  /** Whatever index has the characterisation of FirstIndex is FirstIndex. */
  lemma {:induction false} FirstIndexIs(s: string, k: CharClass, from: nat, i: nat)
    requires from <= i <= |s|
    requires forall j :: from <= j < i ==> !InClass(s[j], k)
    requires i < |s| ==> InClass(s[i], k)
    ensures FirstIndex(s, k, from) == i
    decreases i - from
  {
    if from < i {
      FirstIndexIs(s, k, from + 1, i);
    }
  }

  /** Whitespace holds no character of any other class. */
  lemma SpaceNotInClass(w: string, k: CharClass)
    requires AllSpace(w) && k != Whitespace
    ensures forall j :: 0 <= j < |w| ==> !InClass(w[j], k)
  {
    forall j | 0 <= j < |w|
      ensures !InClass(w[j], k)
    {
      assert IsSpace(w[j]);
    }
  }

  /** A character of a non-whitespace class lies between the leading and the
      trailing whitespace. */
  lemma ClassCharInsideStrip(s: string, k: CharClass, f: nat)
    requires k != Whitespace && f < |s| && InClass(s[f], k)
    ensures StripStart(s) <= f < StripEnd(s)
    ensures Strip(s)[f - StripStart(s)] == s[f]
  {
    var a, b := StripStart(s), StripEnd(s);
    StripSurround(s);
    SpaceNotInClass(s[..a], k);
    SpaceNotInClass(s[b..], k);
    assert forall j :: 0 <= j < a ==> s[j] == s[..a][j];
    assert forall j :: b <= j < |s| ==> s[j] == s[b..][j - b];
  }

  /** The first character of a non-whitespace class lies inside the stripped
      text, behind the leading whitespace. */
  lemma FirstIndexThroughStrip(s: string, k: CharClass)
    requires k != Whitespace && FirstIndex(s, k, 0) < |s|
    ensures FirstIndex(Strip(s), k, 0) < |Strip(s)|
    ensures FirstIndex(s, k, 0) == StripStart(s) + FirstIndex(Strip(s), k, 0)
  {
    var a := StripStart(s);
    var text := Strip(s);
    var f := FirstIndex(s, k, 0);
    ClassCharInsideStrip(s, k, f);
    StripSurround(s);
    var c := FirstIndex(text, k, 0);
    assert c <= f - a;
    SpaceNotInClass(s[..a], k);
    assert forall j :: 0 <= j < a ==> s[j] == s[..a][j];
    assert forall j :: a <= j <= a + c ==> s[j] == text[j - a];
    FirstIndexIs(s, k, 0, a + c);
  }

  /** Leading whitespace cut off before or after slicing: the stripped prefix is the same. */
  lemma StripPrefixBehindSpace(s: string, a: nat, b: nat, text: string, c: nat, c': nat)
    requires a + c' <= b <= |s| && text == s[a..b] && c == a + c' && AllSpace(s[..a])
    ensures Strip(s[..c]) == Strip(text[..c'])
  {
    assert s[..c] == s[..a] + text[..c'];
    StripIgnoresLeadingSpace(s[..a], text[..c']);
  }

  /** Trailing whitespace cut off before or after slicing: the stripped suffix is the same. */
  lemma StripSuffixBeforeSpace(s: string, a: nat, b: nat, text: string, c: nat, c': nat)
    requires a + c' < b <= |s| && text == s[a..b] && c == a + c' && AllSpace(s[b..])
    ensures Strip(s[c + 1..]) == Strip(text[c' + 1..])
  {
    assert s[c + 1..] == text[c' + 1..] + s[b..];
    StripIgnoresTrailingSpace(text[c' + 1..], s[b..]);
  }

  /** Splitting at the first character of a non-whitespace class and stripping
      both parts gives the same whether or not the text was stripped first. */
  lemma SplitStrippedAt(s: string, k: CharClass)
    requires k != Whitespace && FirstIndex(s, k, 0) < |s|
    ensures FirstIndex(Strip(s), k, 0) < |Strip(s)|
    ensures Strip(s[..FirstIndex(s, k, 0)]) == Strip(Strip(s)[..FirstIndex(Strip(s), k, 0)])
    ensures Strip(s[FirstIndex(s, k, 0) + 1..]) == Strip(Strip(s)[FirstIndex(Strip(s), k, 0) + 1..])
  {
    FirstIndexThroughStrip(s, k);
    StripSurround(s);
    var a, b := StripStart(s), StripEnd(s);
    var text := Strip(s);
    var c, c' := FirstIndex(s, k, 0), FirstIndex(text, k, 0);
    StripPrefixBehindSpace(s, a, b, text, c, c');
    StripSuffixBeforeSpace(s, a, b, text, c, c');
  }
}
