/** `extractPriceFromText`, the last resort of the extraction cascade: unlike
    `parsePrice` it runs every pattern over the raw text, keeps every match
    that `parsePrice` reads as a number between 0.01 and 1000000, scores
    each with `calculatePriceConfidence` against the whole text, and returns
    the best-scoring one, the earliest collected among equals. */
module TextScan {
  import opened Text
  import opened Models
  import opened PricePatterns
  import opened PriceParsing
  import opened Confidence
  import opened Sorting
  import opened Lists

  datatype Candidate = Candidate(price: real, text: string, confidence: int)

  /** `price !== null && price >= 0.01 && price <= 1000000` */
  predicate Accepted(v: Option<real>) {
    v.Some? && 0.01 <= v.value <= 1000000.0
  }

  /** A candidate of the scan of `text`: what its match reads as, and how it scores. */
  predicate Describes(c: Candidate, text: string) {
    ParsePriceOf(c.text) == Some(c.price) && 0.01 <= c.price <= 100000.0 &&
    c.confidence == PriceConfidence(c.text, text) && 0 <= c.confidence <= 100
  }

  /** The candidate a match makes, if `parsePrice` accepts it. */
  function CandidateOf(m: string, text: string): seq<Candidate> {
    var price := ParsePriceOf(m);
    if Accepted(price) then [Candidate(price.value, m, PriceConfidence(m, text))] else []
  }

  /** The candidates of one pattern's matches, in match order. */
  function MatchCandidates(ms: seq<string>, text: string): seq<Candidate> {
    if ms == [] then [] else MatchCandidates(ms[..|ms| - 1], text) + CandidateOf(ms[|ms| - 1], text)
  }

  /** The candidates of every pattern of `pats`, pattern after pattern. */
  function PatternCandidates(pats: seq<Pattern>, text: string): seq<Candidate> {
    if pats == [] then []
    else PatternCandidates(pats[..|pats| - 1], text) + MatchCandidates(Matches(pats[|pats| - 1], text), text)
  }

  lemma CandidateOfFacts(m: string, text: string)
    ensures forall c :: c in CandidateOf(m, text) ==> c.text == m && Describes(c, text)
  {
  }

  /** Every candidate of a list of matches comes from one of them. */
  lemma {:induction false} MatchCandidatesFacts(ms: seq<string>, text: string)
    ensures |MatchCandidates(ms, text)| <= |ms|
    ensures forall c :: c in MatchCandidates(ms, text) ==> c.text in ms && Describes(c, text)
  {
    if ms != [] {
      MatchCandidatesFacts(ms[..|ms| - 1], text);
      CandidateOfFacts(ms[|ms| - 1], text);
      InitMembers(ms);
    }
  }

  lemma InitMembers<T>(xs: seq<T>)
    requires xs != []
    ensures forall x :: x in xs[..|xs| - 1] ==> x in xs
    ensures xs[|xs| - 1] in xs
  {
  }

  /** Every candidate of the scan comes from a match of one of the patterns. */
  lemma {:induction false} PatternCandidatesFacts(pats: seq<Pattern>, text: string)
    ensures forall c :: c in PatternCandidates(pats, text) ==>
      Describes(c, text) && exists k :: 0 <= k < |pats| && c.text in Matches(pats[k], text)
  {
    if pats != [] {
      var init := pats[..|pats| - 1];
      PatternCandidatesFacts(init, text);
      MatchCandidatesFacts(Matches(pats[|pats| - 1], text), text);
      forall c | c in PatternCandidates(init, text)
        ensures exists k :: 0 <= k < |pats| && c.text in Matches(pats[k], text)
      {
        var k :| 0 <= k < |init| && c.text in Matches(init[k], text);
        assert init[k] == pats[k];
      }
    }
  }

  function TextCandidates(text: string): seq<Candidate> {
    PatternCandidates(AllPatterns, text)
  }

  /** The sort key: `b.confidence - a.confidence` sorts by descending confidence. */
  function ConfidenceKey(c: Candidate): real { -(c.confidence as real) }

  datatype TextPrice = TextPrice(price: Option<real>, extractedText: Option<string>)

  /** What `extractPriceFromText` returns. */
  function ExtractPriceFromTextOf(text: string): TextPrice {
    var prices := TextCandidates(text);
    if prices == [] then TextPrice(None, None)
    else
      SortBySorted(prices, ConfidenceKey);
      var best := SortBy(prices, ConfidenceKey)[0];
      TextPrice(Some(best.price), Some(best.text))
  }

  lemma MatchCandidatesStep(ms: seq<string>, j: nat, text: string)
    requires j < |ms|
    ensures MatchCandidates(ms[..j + 1], text) == MatchCandidates(ms[..j], text) + CandidateOf(ms[j], text)
  {
    assert ms[..j + 1][..j] == ms[..j];
  }

  lemma PatternCandidatesStep(pats: seq<Pattern>, k: nat, text: string)
    requires k < |pats|
    ensures PatternCandidates(pats[..k + 1], text) ==
      PatternCandidates(pats[..k], text) + MatchCandidates(Matches(pats[k], text), text)
  {
    assert pats[..k + 1][..k] == pats[..k];
  }

  lemma CollectStep(matches: seq<string>, j: nat, text: string, prices0: seq<Candidate>, prices: seq<Candidate>, found: seq<Candidate>)
    requires j < |matches|
    requires prices == prices0 + MatchCandidates(matches[..j], text) && found == CandidateOf(matches[j], text)
    ensures prices + found == prices0 + MatchCandidates(matches[..j + 1], text)
  {
    MatchCandidatesStep(matches, j, text);
    AppendAssoc(prices0, MatchCandidates(matches[..j], text), found);
  }

  lemma AppendAssoc<U>(a: seq<U>, b: seq<U>, c: seq<U>)
    ensures (a + b) + c == a + (b + c)
  {
  }

  /** The inner loop of `extractPriceFromText`: the candidates of one
      pattern's matches are appended to `prices`. */
  method CollectMatches(matches: seq<string>, text: string, prices0: seq<Candidate>) returns (prices: seq<Candidate>)
    ensures prices == prices0 + MatchCandidates(matches, text)
  {
    prices := prices0;
    var j := 0;
    while j < |matches|
      invariant 0 <= j <= |matches|
      invariant prices == prices0 + MatchCandidates(matches[..j], text)
    {
      var found := ScanMatch(matches[j], text);
      CollectStep(matches, j, text, prices0, prices, found);
      prices := prices + found;
      j := j + 1;
    }
    assert matches[..j] == matches;
  }

  /** One match: read by `parsePrice`, kept when accepted, and scored. */
  method ScanMatch(m: string, text: string) returns (found: seq<Candidate>)
    ensures found == CandidateOf(m, text)
  {
    var price := ParsePrice(m);
    if price.Some? && price.value >= 0.01 && price.value <= 1000000.0 {
      var confidence := CalculatePriceConfidence(m, text);
      return [Candidate(price.value, m, confidence)];
    }
    return [];
  }

  /** `extractPriceFromText`, with its loops over the patterns and their
      matches and the stable sort by descending confidence. */
  method ExtractPriceFromText(text: string) returns (r: TextPrice)
    ensures r == ExtractPriceFromTextOf(text)
  {
    var prices: seq<Candidate> := [];
    var k := 0;
    while k < |AllPatterns|
      invariant 0 <= k <= |AllPatterns|
      invariant prices == PatternCandidates(AllPatterns[..k], text)
    {
      prices := CollectMatches(Matches(AllPatterns[k], text), text, prices);
      PatternCandidatesStep(AllPatterns, k, text);
      k := k + 1;
    }
    assert AllPatterns[..k] == AllPatterns;
    if |prices| == 0 {
      return TextPrice(None, None);
    }
    SortBySorted(prices, ConfidenceKey);
    var sorted := SortBy(prices, ConfidenceKey);
    return TextPrice(Some(sorted[0].price), Some(sorted[0].text));
  }

  // ---------------------------------------------------------------------
  // Properties

  /** Every accepted match of every pattern is a candidate, so the scan
      does not stop at the first pattern that finds something. */
  lemma EveryPatternScanned(pats: seq<Pattern>, text: string, k: nat, m: string)
    requires k < |pats| && m in Matches(pats[k], text) && Accepted(ParsePriceOf(m))
    ensures Candidate(ParsePriceOf(m).value, m, PriceConfidence(m, text)) in PatternCandidates(pats, text)
  {
    PatternScanned(pats, text, k, m);
    assert CandidateOf(m, text) == [Candidate(ParsePriceOf(m).value, m, PriceConfidence(m, text))];
  }

  lemma {:induction false} PatternScanned(pats: seq<Pattern>, text: string, k: nat, m: string)
    requires k < |pats| && m in Matches(pats[k], text)
    ensures forall c :: c in CandidateOf(m, text) ==> c in PatternCandidates(pats, text)
  {
    var init := PatternCandidates(pats[..|pats| - 1], text);
    var last := MatchCandidates(Matches(pats[|pats| - 1], text), text);
    assert PatternCandidates(pats, text) == init + last;
    if k < |pats| - 1 {
      assert pats[..|pats| - 1][k] == pats[k];
      PatternScanned(pats[..|pats| - 1], text, k, m);
    } else {
      MatchScanned(Matches(pats[k], text), text, m);
    }
  }

  lemma {:induction false} MatchCandidatesFlat(ms: seq<string>, text: string)
    ensures MatchCandidates(ms, text) == FlatMap(ms, (s: string) => CandidateOf(s, text))
  {
    if ms != [] {
      MatchCandidatesFlat(ms[..|ms| - 1], text);
    }
  }

  lemma MatchScanned(ms: seq<string>, text: string, m: string)
    requires m in ms
    ensures forall c :: c in CandidateOf(m, text) ==> c in MatchCandidates(ms, text)
  {
    var f := (s: string) => CandidateOf(s, text);
    MatchCandidatesFlat(ms, text);
    FlatMapMember(ms, f, m);
    assert f(m) == CandidateOf(m, text);
  }

  /** The scan finds nothing exactly when there is no candidate; otherwise
      it returns the price and the text of a candidate whose confidence is
      the highest, and no earlier candidate scores as high. */
  lemma ExtractPriceFromTextBest(text: string)
    ensures var r := ExtractPriceFromTextOf(text);
      var cs := TextCandidates(text);
      (r.price.None? <==> cs == []) &&
      (r.price.Some? ==>
        r.extractedText.Some? &&
        exists k :: 0 <= k < |cs| && r.price.value == cs[k].price && r.extractedText.value == cs[k].text &&
          (forall j :: 0 <= j < |cs| ==> cs[j].confidence <= cs[k].confidence) &&
          (forall j :: 0 <= j < k ==> cs[j].confidence < cs[k].confidence))
  {
    var cs := TextCandidates(text);
    if cs != [] {
      SortByHead(cs, ConfidenceKey);
      var k := FirstMinIndex(cs, ConfidenceKey);
      assert forall j :: 0 <= j < |cs| ==> ConfidenceKey(cs[k]) <= ConfidenceKey(cs[j]);
      assert forall j :: 0 <= j < k ==> ConfidenceKey(cs[j]) > ConfidenceKey(cs[k]);
    }
  }

  /** The price found is one that `parsePrice` reads from a match of one of
      the patterns, and so lies between 0.01 and 100000. */
  lemma ExtractPriceFromTextSound(text: string)
    requires ExtractPriceFromTextOf(text).price.Some?
    ensures var r := ExtractPriceFromTextOf(text);
      r.extractedText.Some? && ParsePriceOf(r.extractedText.value) == r.price &&
      0.01 <= r.price.value <= 100000.0 &&
      exists k :: 0 <= k < |AllPatterns| && r.extractedText.value in Matches(AllPatterns[k], text)
  {
    ExtractPriceFromTextBest(text);
    var cs := TextCandidates(text);
    PatternCandidatesFacts(AllPatterns, text);
    var k :| 0 <= k < |cs| && ExtractPriceFromTextOf(text).price.value == cs[k].price &&
      ExtractPriceFromTextOf(text).extractedText.value == cs[k].text;
    assert cs[k] in cs;
  }
}
