/** `parsePrice`: Arabic-Indic digits are converted, every character that
    cannot belong to a number is blanked, and the patterns are tried in
    order until one of them yields a plausible number; among those, the
    largest one inside the retail range wins, preferring whole or
    two-decimal values when there is a choice. */
module PriceParsing {
  import opened Text
  import opened Models
  import opened NumberFormat
  import opened PricePatterns
  import opened Lists
  import Arith

  /** `[\d\.,٫\s]`: the characters a number may be written with. */
  predicate IsNumberChar(c: char) {
    IsDigit(c) || c == '.' || c == ',' || c == ArabicMark || IsSpace(c)
  }

  /** `replace(/[^\d\.,٫\s]/g, " ")`. */
  function Blank(s: string): (r: string)
    ensures |r| == |s|
    ensures forall i :: 0 <= i < |s| ==> r[i] == if IsNumberChar(s[i]) then s[i] else ' '
  {
    seq(|s|, i requires 0 <= i < |s| => if IsNumberChar(s[i]) then s[i] else ' ')
  }

  /** The text the patterns are run over. */
  function CleanText(text: string): string { Blank(Westernize(text)) }

  /** The number a matched piece of text is read as. */
  function ReadNumber(m: string): Option<real> {
    ParseFloat(NormalizeNumber(Trim(m)))
  }

  /** `!isNaN(num) && num > 0 && num <= 1000000` */
  predicate Plausible(v: Option<real>) {
    v.Some? && 0.0 < v.value <= 1000000.0
  }

  /** The number `m` is read as, when it is plausible. */
  function PlausibleOf(m: string): seq<real> {
    if Plausible(ReadNumber(m)) then [ReadNumber(m).value] else []
  }

  /** The numbers the matches are read as that are plausible, in match order. */
  function Candidates(ms: seq<string>): seq<real> {
    if ms == [] then [] else Candidates(ms[..|ms| - 1]) + PlausibleOf(ms[|ms| - 1])
  }

  /** Every candidate is a number above 0 and at most 1000000. */
  lemma {:induction false} CandidatesBounds(ms: seq<string>)
    ensures forall x :: x in Candidates(ms) ==> 0.0 < x <= 1000000.0
  {
    if ms != [] {
      CandidatesBounds(ms[..|ms| - 1]);
      WithinConcat(Candidates(ms[..|ms| - 1]), PlausibleOf(ms[|ms| - 1]), 0.0, 1000000.0);
    }
  }

  /** Values in `(lo, hi]` on both sides stay there when joined. */
  lemma WithinConcat(a: seq<real>, b: seq<real>, lo: real, hi: real)
    requires forall x :: x in a ==> lo < x <= hi
    requires forall x :: x in b ==> lo < x <= hi
    ensures forall x :: x in a + b ==> lo < x <= hi
  {
  }

  lemma CandidatesStep(ms: seq<string>, j: nat)
    requires j < |ms|
    ensures Candidates(ms[..j + 1]) ==
      Candidates(ms[..j]) + PlausibleOf(ms[j])
  {
    assert ms[..j + 1][..j] == ms[..j];
  }

  /** `f` of the first element of `xs` for which it is not empty. */
  function FirstNonEmpty<T>(xs: seq<T>, f: T -> seq<real>): seq<real> {
    if xs == [] then []
    else if f(xs[0]) != [] then f(xs[0]) else FirstNonEmpty(xs[1..], f)
  }

  /** The candidates of the first pattern in `pats` that has any. */
  function FirstCandidates(pats: seq<Pattern>, s: string): seq<real> {
    FirstNonEmpty(pats, p => Candidates(Matches(p, s)))
  }

  /** Trying the pattern at `k`: its candidates when it has any, otherwise
      those of the first later pattern that has any. */
  lemma FirstCandidatesStep(pats: seq<Pattern>, s: string, k: nat)
    requires k < |pats|
    ensures FirstCandidates(pats[k..], s) ==
      if Candidates(Matches(pats[k], s)) != [] then Candidates(Matches(pats[k], s)) else FirstCandidates(pats[k + 1..], s)
  {
    assert pats[k..][0] == pats[k] && pats[k..][1..] == pats[k + 1..];
  }

  /** `p % 1 === 0 || (p * 100) % 1 === 0`, on exact values. */
  predicate IsPrecise(p: real) {
    p.Floor as real == p || (p * 100.0).Floor as real == p * 100.0
  }

  predicate Reasonable(p: real) { 0.01 <= p <= 100000.0 }

  /** The choice among the candidates of the winning pattern. */
  function Choose(prices: seq<real>): (r: Option<real>)
    ensures r.Some? ==> r.value in prices && Reasonable(r.value)
  {
    var reasonable := Keep(prices, Reasonable);
    KeepMembers(prices, Reasonable);
    if reasonable == [] then None
    else
      var precise := Keep(reasonable, IsPrecise);
      KeepMembers(reasonable, IsPrecise);
      if |reasonable| > 1 && precise != [] then
        Arith.MaxOfIsGreatest(precise);
        Some(Arith.MaxOf(precise))
      else
        Arith.MaxOfIsGreatest(reasonable);
        Some(Arith.MaxOf(reasonable))
  }

  /** What `parsePrice` returns; `None` stands for null. */
  function ParsePriceOf(text: string): (r: Option<real>)
    ensures text == [] ==> r.None?
    ensures r.Some? ==> 0.01 <= r.value <= 100000.0
  {
    if text == [] then None
    else
      var prices := FirstCandidates(AllPatterns, CleanText(text));
      if prices == [] then None else Choose(prices)
  }

  /** The inner loop of `parsePrice`: the plausible numbers among the
      matches of one pattern, in match order. */
  method PlausibleNumbers(matches: seq<string>) returns (prices: seq<real>)
    ensures prices == Candidates(matches)
  {
    prices := [];
    var j := 0;
    while j < |matches|
      invariant 0 <= j <= |matches|
      invariant prices == Candidates(matches[..j])
    {
      var found := ReadPlausible(matches[j]);
      prices := prices + found;
      CandidatesStep(matches, j);
      j := j + 1;
    }
    assert matches[..j] == matches;
  }

  /** One match, as the loop body reads it: normalised and read, and kept
      exactly when it is a number above 0 and at most 1000000. */
  method ReadPlausible(m: string) returns (found: seq<real>)
    ensures found == PlausibleOf(m)
    ensures found != [] <==> Plausible(ReadNumber(m))
    ensures found != [] ==> found == [ReadNumber(m).value] && 0.0 < found[0] <= 1000000.0
  {
    found := [];
    var num := ReadNumber(m);
    if Plausible(num) {
      found := [num.value];
    }
  }

  /** The choice after the loops, for a non-empty candidate list. */
  method ChoosePrice(prices: seq<real>) returns (r: Option<real>)
    ensures r == Choose(prices)
    ensures r.Some? <==> exists x :: x in prices && Reasonable(x)
    ensures r.Some? ==> r.value in prices && Reasonable(r.value)
    ensures r.Some? ==> forall x :: x in prices && Reasonable(x) && (IsPrecise(x) || !IsPrecise(r.value)) ==> x <= r.value
    ensures r.Some? && |Keep(prices, Reasonable)| > 1 && (exists x :: x in prices && Reasonable(x) && IsPrecise(x)) ==> IsPrecise(r.value)
  {
    ChooseIsPreferredMax(prices);
    var reasonablePrices := Keep(prices, Reasonable);
    if |reasonablePrices| == 0 {
      return None;
    }
    if |reasonablePrices| > 1 {
      var precisionPrices := Keep(reasonablePrices, IsPrecise);
      if |precisionPrices| > 0 {
        return Some(Arith.MaxOf(precisionPrices));
      }
    }
    return Some(Arith.MaxOf(reasonablePrices));
  }

  /** `parsePrice`, with its two loops: over the patterns, then over the
      matches of one pattern, stopping after the first pattern that gave a
      candidate. */
  method ParsePrice(text: string) returns (r: Option<real>)
    ensures r == ParsePriceOf(text)
  {
    if text == [] {
      return None;
    }
    var cleanText := ConvertArabicNumerals(text);
    cleanText := Blank(cleanText);
    var prices: seq<real> := [];
    var k := 0;
    while k < |AllPatterns|
      invariant 0 <= k <= |AllPatterns|
      invariant prices == []
      invariant FirstCandidates(AllPatterns, cleanText) == FirstCandidates(AllPatterns[k..], cleanText)
    {
      var matches := Matches(AllPatterns[k], cleanText);
      prices := PlausibleNumbers(matches);
      FirstCandidatesStep(AllPatterns, cleanText, k);
      if |prices| > 0 {
        break;
      }
      k := k + 1;
    }
    if |prices| == 0 {
      return None;
    }
    r := ChoosePrice(prices);
  }

  // ---------------------------------------------------------------------
  // Properties

  lemma {:induction false} FirstNonEmptyIsFirst<T>(xs: seq<T>, f: T -> seq<real>)
    requires FirstNonEmpty(xs, f) != []
    ensures exists k :: 0 <= k < |xs| && FirstNonEmpty(xs, f) == f(xs[k]) && forall j :: 0 <= j < k ==> f(xs[j]) == []
  {
    if f(xs[0]) == [] {
      FirstNonEmptyIsFirst(xs[1..], f);
      var k :| 0 <= k < |xs[1..]| && FirstNonEmpty(xs[1..], f) == f(xs[1..][k]) &&
        forall j :: 0 <= j < k ==> f(xs[1..][j]) == [];
      assert forall j :: 1 <= j < k + 1 ==> xs[j] == xs[1..][j - 1];
      assert FirstNonEmpty(xs, f) == f(xs[k + 1]);
    } else {
      assert FirstNonEmpty(xs, f) == f(xs[0]);
    }
  }

  lemma {:induction false} FirstNonEmptyEmpty<T>(xs: seq<T>, f: T -> seq<real>)
    ensures FirstNonEmpty(xs, f) == [] <==> forall k :: 0 <= k < |xs| ==> f(xs[k]) == []
  {
    if xs != [] {
      FirstNonEmptyEmpty(xs[1..], f);
      assert forall k :: 1 <= k < |xs| ==> xs[k] == xs[1..][k - 1];
    }
  }

  /** The candidates used are those of the first pattern that has any. */
  lemma FirstCandidatesIsFirst(pats: seq<Pattern>, s: string)
    requires FirstCandidates(pats, s) != []
    ensures exists k :: (0 <= k < |pats| && FirstCandidates(pats, s) == Candidates(Matches(pats[k], s)) &&
      forall j :: 0 <= j < k ==> Candidates(Matches(pats[j], s)) == [])
  {
    var f := p => Candidates(Matches(p, s));
    FirstNonEmptyIsFirst(pats, f);
    var k :| 0 <= k < |pats| && FirstNonEmpty(pats, f) == f(pats[k]) && forall j :: 0 <= j < k ==> f(pats[j]) == [];
    assert forall j :: 0 <= j < k ==> Candidates(Matches(pats[j], s)) == f(pats[j]);
  }

  /** No pattern before the winner gives a candidate, and when none gives
      one there is nothing to choose from. */
  lemma FirstCandidatesEmpty(pats: seq<Pattern>, s: string)
    ensures FirstCandidates(pats, s) == [] <==> forall k :: 0 <= k < |pats| ==> Candidates(Matches(pats[k], s)) == []
  {
    var f := p => Candidates(Matches(p, s));
    FirstNonEmptyEmpty(pats, f);
    assert forall k :: 0 <= k < |pats| ==> Candidates(Matches(pats[k], s)) == f(pats[k]);
  }

  /** The value returned is the largest reasonable candidate of the winning
      pattern, except that a whole or two-decimal candidate is preferred to
      any other when there are several reasonable ones. */
  lemma ChooseIsPreferredMax(prices: seq<real>)
    ensures var r := Choose(prices);
      (r.Some? <==> exists x :: x in prices && Reasonable(x)) &&
      (r.Some? ==> forall x :: x in prices && Reasonable(x) && (IsPrecise(x) || !IsPrecise(r.value)) ==> x <= r.value) &&
      (r.Some? && |Keep(prices, Reasonable)| > 1 && (exists x :: x in prices && Reasonable(x) && IsPrecise(x)) ==> IsPrecise(r.value))
  {
    var reasonable := Keep(prices, Reasonable);
    KeepMembers(prices, Reasonable);
    var r := Choose(prices);
    if reasonable != [] {
      var precise := Keep(reasonable, IsPrecise);
      KeepMembers(reasonable, IsPrecise);
      Arith.MaxOfIsGreatest(reasonable);
      if precise != [] {
        Arith.MaxOfIsGreatest(precise);
      }
      if |reasonable| == 1 {
        assert forall x :: x in reasonable ==> x == reasonable[0];
      }
      if (exists x :: x in prices && Reasonable(x) && IsPrecise(x)) {
        var x :| x in prices && Reasonable(x) && IsPrecise(x);
        assert x in precise;
      }
    } else {
      assert forall x :: x in prices && Reasonable(x) ==> x in reasonable;
    }
  }

  /** `parsePrice` reads a number taken from the first pattern that gave a
      candidate, and returns null exactly when there is nothing reasonable. */
  lemma ParsePriceFromFirstPattern(text: string)
    requires ParsePriceOf(text).Some?
    ensures exists k :: (0 <= k < |AllPatterns| &&
      ParsePriceOf(text).value in Candidates(Matches(AllPatterns[k], CleanText(text))) &&
      forall j :: 0 <= j < k ==> Candidates(Matches(AllPatterns[j], CleanText(text))) == [])
  {
    FirstCandidatesIsFirst(AllPatterns, CleanText(text));
  }

  /** Converted digits read the same as the original ones:
      `parsePrice` does not care which digit system the text uses. */
  lemma ParsePriceDigitSystem(text: string)
    ensures ParsePriceOf(Westernize(text)) == ParsePriceOf(text)
  {
    WesternizeIdempotent(text);
  }
}
