/** `calculatePriceConfidence` and `getSurroundingText`: how much a number
    found by the fallback text scan looks like a price. The score starts at
    50, gains 15 for every price keyword near the number and up to 40 for
    a price-like format, loses 20 for an implausible value, and is clamped
    to the range 0 to 100. */
module Confidence {
  import opened Text
  import opened Models
  import opened NumberFormat
  import opened PricePatterns

  /** The words and currency signs that make a nearby number look like a price. */
  const PriceKeywords: seq<string> := [
    "price", "cost", "amount", "total",
    "سعر", "تكلفة", "مبلغ", "إجمالي",
    "ريال", "دولار", "جنيه", "درهم", "دينار", "ر.س",
    "$", "€", "£"]

  /** How far on either side of a number keywords are looked for. */
  const Radius: nat := 50

  function Min(a: int, b: int): int { if a <= b then a else b }

  function Max(a: int, b: int): int { if a >= b then a else b }

  /** `getSurroundingText`: the piece of `full` around the first occurrence
      of `target`, or the empty string when there is none. */
  function SurroundingText(target: string, full: string, radius: nat): string {
    var index := IndexOf(full, target);
    if index == -1 then []
    else
      var start := Max(0, index - radius);
      var end := Min(|full|, index + |target| + radius);
      full[start..end]
  }

  /** The window holds the target, preceded by up to `radius` characters of
      `full` and followed by up to `radius` more, and nothing else. */
  lemma SurroundingWindow(target: string, full: string, radius: nat)
    ensures var i := IndexOf(full, target);
      var r := SurroundingText(target, full, radius);
      (i == -1 ==> r == []) &&
      (i >= 0 ==>
        var before := Min(i, radius);
        var after := Min(|full| - i - |target|, radius);
        OccursAt(full, r, i - before) && OccursAt(r, target, before) &&
        |r| == before + |target| + after)
  {
    var i := IndexOf(full, target);
    if i >= 0 {
      WindowAround(full, target, radius, i);
      var r := full[Max(0, i - radius)..Min(|full|, i + |target| + radius)];
      assert SurroundingText(target, full, radius) == r;
      assert OccursAt(r, target, Min(i, radius));
      assert OccursAt(full, r, i - Min(i, radius));
    }
  }

  /** The window around an occurrence of `target` at `i`. */
  lemma WindowAround(full: string, target: string, radius: nat, i: nat)
    requires OccursAt(full, target, i)
    ensures var start := Max(0, i - radius);
      var end := Min(|full|, i + |target| + radius);
      var before := Min(i, radius);
      var after := Min(|full| - i - |target|, radius);
      start == i - before && end - start == before + |target| + after &&
      OccursAt(full, full[start..end], start) && OccursAt(full[start..end], target, before)
  {
    var start := Max(0, i - radius);
    var end := Min(|full|, i + |target| + radius);
    SliceOfSlice(full, start, end, i - start, i - start + |target|);
  }

  /** The number of `keywords` that occur in `around`, ignoring ASCII case. */
  function KeywordHits(around: string, keywords: seq<string>): (n: nat)
    ensures n <= |keywords|
  {
    if keywords == [] then 0
    else
      var k := keywords[|keywords| - 1];
      KeywordHits(around, keywords[..|keywords| - 1]) + (if Includes(ToLower(around), ToLower(k)) then 1 else 0)
  }

  /** No keyword is counted exactly when none occurs. */
  lemma {:induction false} KeywordHitsNone(around: string, keywords: seq<string>)
    ensures KeywordHits(around, keywords) == 0 <==>
      forall j :: 0 <= j < |keywords| ==> !Includes(ToLower(around), ToLower(keywords[j]))
  {
    if keywords != [] {
      var init := keywords[..|keywords| - 1];
      KeywordHitsNone(around, init);
      assert forall j :: 0 <= j < |init| ==> init[j] == keywords[j];
    }
  }

  /** Every keyword is counted exactly when all of them occur. */
  lemma {:induction false} KeywordHitsAll(around: string, keywords: seq<string>)
    ensures KeywordHits(around, keywords) == |keywords| <==>
      forall j :: 0 <= j < |keywords| ==> Includes(ToLower(around), ToLower(keywords[j]))
  {
    if keywords != [] {
      var init := keywords[..|keywords| - 1];
      KeywordHitsAll(around, init);
      assert forall j :: 0 <= j < |init| ==> init[j] == keywords[j];
    }
  }

  /** `/\d{1,3}(,\d{3})*\.\d{2}/.test(t)`: the US cents form somewhere in `t`. */
  predicate HasUsCents(t: string) {
    exists i :: 0 <= i <= |t| && CentsMatch(t, i, Single(','), '.').Some?
  }

  /** The recogniser finds the form exactly when some piece of `t` has it. */
  lemma HasUsCentsIff(t: string)
    ensures HasUsCents(t) <==>
      exists i, q :: 0 <= i < q <= |t| && GroupedWithCents(t[i..q], Single(','), Single('.'))
  {
    if HasUsCents(t) {
      var i :| 0 <= i <= |t| && CentsMatch(t, i, Single(','), '.').Some?;
      CentsMatchExact(t, i, Single(','), '.');
      var q := CentsMatch(t, i, Single(','), '.').value;
      assert GroupedWithCents(t[i..q], Single(','), Single('.'));
    }
    if exists i, q :: 0 <= i < q <= |t| && GroupedWithCents(t[i..q], Single(','), Single('.')) {
      var i, q :| 0 <= i < q <= |t| && GroupedWithCents(t[i..q], Single(','), Single('.'));
      CentsMatchExact(t, i, Single(','), '.');
    }
  }

  /** `/\d+\.\d{2}$/.test(t)`: `t` ends in a digit, a dot and two digits. */
  predicate EndsWithCents(t: string) {
    |t| >= 4 && IsDigit(t[|t| - 4]) && t[|t| - 3] == '.' && IsDigit(t[|t| - 2]) && IsDigit(t[|t| - 1])
  }

  /** `t[i..]` is a non-empty run of digits, a dot and two digits. */
  predicate CentsSuffixAt(t: string, i: int) {
    0 <= i < |t| - 3 && AllDigits(t[i..|t| - 3]) && t[|t| - 3] == '.' && AllDigits(t[|t| - 2..])
  }

  /** The four characters checked are what the anchored pattern demands: some
      non-empty run of digits, the dot and two digits, up to the end. */
  lemma EndsWithCentsIff(t: string)
    ensures EndsWithCents(t) <==> exists i :: CentsSuffixAt(t, i)
  {
    if EndsWithCents(t) {
      var i := |t| - 4;
      assert AllDigits(t[i..|t| - 3]) by { assert t[i..|t| - 3] == [t[i]]; }
      var tail := t[|t| - 2..];
      assert tail[0] == t[|t| - 2] && tail[1] == t[|t| - 1];
      assert CentsSuffixAt(t, i);
    }
    if exists i :: CentsSuffixAt(t, i) {
      var i :| CentsSuffixAt(t, i);
      assert t[|t| - 4] == t[i..|t| - 3][|t| - 4 - i];
      assert t[|t| - 2] == t[|t| - 2..][0] && t[|t| - 1] == t[|t| - 2..][1];
    }
  }

  /** `parseFloat(t.replace(/[^\d.]/g, ""))`; `None` stands for NaN. */
  function NumericValue(t: string): Option<real> {
    ParseFloat(Filter(t, DigitOrDot, true))
  }

  /** `numericValue < 1 || numericValue > 100000`: false for NaN. */
  predicate OutOfRange(v: Option<real>) {
    v.Some? && (v.value < 1.0 || v.value > 100000.0)
  }

  /** The score before it is clamped. */
  function RawConfidence(priceText: string, context: string): int {
    50 + 15 * KeywordHits(SurroundingText(priceText, context, Radius), PriceKeywords)
      + (if HasUsCents(priceText) then 20 else 0)
      + (if EndsWithCents(priceText) then 10 else 0)
      + (if 4 <= |priceText| <= 10 then 10 else 0)
      - (if OutOfRange(NumericValue(priceText)) then 20 else 0)
  }

  /** `Math.max(0, Math.min(100, x))`. */
  function Clamp(x: int): (r: int)
    ensures 0 <= r <= 100
    ensures 0 <= x <= 100 ==> r == x
    ensures x < 0 ==> r == 0
    ensures x > 100 ==> r == 100
  {
    Max(0, Min(100, x))
  }

  function PriceConfidence(priceText: string, context: string): (c: int)
    ensures 0 <= c <= 100
  {
    Clamp(RawConfidence(priceText, context))
  }

  /** The raw score lies between 30 and 50 + 40 + 15 for each of the 17
      keywords, and within 60 above 30 plus 15 per keyword found. */
  lemma RawConfidenceRange(priceText: string, context: string)
    ensures var hits := KeywordHits(SurroundingText(priceText, context, Radius), PriceKeywords);
      var r := RawConfidence(priceText, context);
      30 + 15 * hits <= r <= 90 + 15 * hits && 30 <= r <= 90 + 15 * |PriceKeywords|
  {
  }

  /** Five or more keywords nearby always give full confidence, however the
      number is written. */
  lemma ManyKeywordsFullConfidence(priceText: string, context: string)
    requires KeywordHits(SurroundingText(priceText, context, Radius), PriceKeywords) >= 5
    ensures PriceConfidence(priceText, context) == 100
  {
    RawConfidenceRange(priceText, context);
  }

  /** Counting one keyword more of a prefix. */
  lemma KeywordHitsStep(around: string, keywords: seq<string>, k: nat)
    requires k < |keywords|
    ensures KeywordHits(around, keywords[..k + 1]) ==
      KeywordHits(around, keywords[..k]) + (if Includes(ToLower(around), ToLower(keywords[k])) then 1 else 0)
  {
    assert keywords[..k + 1][..k] == keywords[..k];
  }

  /** `calculatePriceConfidence`, with its loop over the keywords. */
  method CalculatePriceConfidence(priceText: string, context: string) returns (confidence: int)
    ensures confidence == PriceConfidence(priceText, context)
    ensures 0 <= confidence <= 100
  {
    confidence := 50;
    var surroundingText := SurroundingText(priceText, context, Radius);
    var k := 0;
    while k < |PriceKeywords|
      invariant 0 <= k <= |PriceKeywords|
      invariant confidence == 50 + 15 * KeywordHits(surroundingText, PriceKeywords[..k])
    {
      KeywordHitsStep(surroundingText, PriceKeywords, k);
      if Includes(ToLower(surroundingText), ToLower(PriceKeywords[k])) {
        confidence := confidence + 15;
      }
      k := k + 1;
    }
    assert PriceKeywords[..k] == PriceKeywords;
    if HasUsCents(priceText) {
      confidence := confidence + 20;
    }
    if EndsWithCents(priceText) {
      confidence := confidence + 10;
    }
    if |priceText| >= 4 && |priceText| <= 10 {
      confidence := confidence + 10;
    }
    var numericValue := NumericValue(priceText);
    if OutOfRange(numericValue) {
      confidence := confidence - 20;
    }
    confidence := Max(0, Min(100, confidence));
  }
}
