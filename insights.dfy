/** The read-only insights of the price service: the comparison of the
    active websites' current prices, the price history of the last days,
    the statistics of one website's recent prices, and the buying
    recommendation built on those. They change nothing. `Date.now()` is
    the parameter `now`. */
module Insights {
  import opened Models
  import opened Sorting
  import opened Arith
  import opened Lists
  import opened Store

  // ---------------------------------------------------------------------
  // The price comparison

  datatype WebsitePrice = WebsitePrice(websiteId: string, name: string, price: real, currency: string, url: string)

  datatype BestPrice = BestPrice(websiteId: string, price: real, savings: real)

  datatype PriceComparison = PriceComparison(itemId: string, websites: seq<WebsitePrice>, bestPrice: BestPrice)

  /** A website takes part in the comparison: it has a current price and is active. */
  predicate Listed(w: Website) {
    w.currentPrice.Some? && w.isActive
  }

  function Entry(w: Website): WebsitePrice
    requires w.currentPrice.Some?
  {
    WebsitePrice(w.id, w.name, w.currentPrice.value, w.currency, w.url)
  }

  /** The filter and the map: one entry per listed website, in website order. */
  function PricedEntries(ws: seq<Website>): seq<WebsitePrice> {
    if ws == [] then []
    else
      var w := ws[|ws| - 1];
      PricedEntries(ws[..|ws| - 1]) + (if Listed(w) then [Entry(w)] else [])
  }

  function PriceKey(e: WebsitePrice): real {
    e.price
  }

  /** The entries of the comparison are exactly those of the listed websites. */
  lemma {:induction false} PricedEntriesMembers(ws: seq<Website>)
    ensures forall e :: e in PricedEntries(ws) <==> exists j :: 0 <= j < |ws| && Listed(ws[j]) && e == Entry(ws[j])
  {
    if ws != [] {
      var init := ws[..|ws| - 1];
      PricedEntriesMembers(init);
      assert forall j :: 0 <= j < |init| ==> init[j] == ws[j];
    }
  }

  /** `getPriceComparison` once the item is found: the entries sorted by
      price (stably), the cheapest first; the savings are the spread
      between the dearest and the cheapest. No listed website, no
      comparison. */
  function ComparisonOf(itemId: string, ws: seq<Website>): Option<PriceComparison> {
    ComparisonFrom(itemId, SortBy(PricedEntries(ws), PriceKey))
  }

  /** The comparison built on the sorted entries. */
  function ComparisonFrom(itemId: string, sorted: seq<WebsitePrice>): Option<PriceComparison> {
    if sorted == [] then None
    else
      var best := sorted[0];
      var worst := sorted[|sorted| - 1];
      Some(PriceComparison(itemId, sorted, BestPrice(best.websiteId, best.price, worst.price - best.price)))
  }

  /** There is a comparison exactly when some website is listed; it lists
      every listed website once, cheapest first. */
  lemma ComparisonShape(itemId: string, ws: seq<Website>)
    ensures var r := ComparisonOf(itemId, ws);
      (r.None? <==> forall j :: 0 <= j < |ws| ==> !Listed(ws[j])) &&
      (r.Some? ==>
        r.value.itemId == itemId &&
        SortedBy(r.value.websites, PriceKey) &&
        multiset(r.value.websites) == multiset(PricedEntries(ws)) &&
        forall p :: Sorting.WithKey(r.value.websites, PriceKey, p) == Sorting.WithKey(PricedEntries(ws), PriceKey, p))
  {
    var entries := PricedEntries(ws);
    var sorted := SortBy(entries, PriceKey);
    SortBySorted(entries, PriceKey);
    PricedEntriesMembers(ws);
    forall j | 0 <= j < |ws| && Listed(ws[j]) ensures Entry(ws[j]) in entries {
    }
    if sorted != [] {
      assert entries[0] in entries;
      forall p: real ensures Sorting.WithKey(sorted, PriceKey, p) == Sorting.WithKey(entries, PriceKey, p) {
        SortByStable(entries, PriceKey, p);
      }
    }
  }

  /** The ends of a sorted sequence bound every key in it. */
  lemma SortedEnds<T>(s: seq<T>, key: T -> real)
    requires SortedBy(s, key) && |s| > 0
    ensures forall i :: 0 <= i < |s| ==> key(s[0]) <= key(s[i]) <= key(s[|s| - 1])
  {
    forall i | 0 <= i < |s| ensures key(s[0]) <= key(s[i]) <= key(s[|s| - 1]) {
      if 0 < i {
        assert key(s[0]) <= key(s[i]);
      }
      if i < |s| - 1 {
        assert key(s[i]) <= key(s[|s| - 1]);
      }
    }
  }

  /** The best price is the first entry of the comparison and the savings
      are not negative; on ties the first cheapest website in website
      order wins. */
  lemma ComparisonBest(itemId: string, ws: seq<Website>)
    requires ComparisonOf(itemId, ws).Some?
    ensures var c := ComparisonOf(itemId, ws).value; var b := c.bestPrice;
      var entries := PricedEntries(ws);
      |entries| > 0 &&
      b.websiteId == c.websites[0].websiteId && b.price == c.websites[0].price &&
      c.websites[0] == entries[FirstMinIndex(entries, PriceKey)] &&
      b.savings == c.websites[|c.websites| - 1].price - b.price &&
      b.savings >= 0.0
  {
    var entries := PricedEntries(ws);
    SortBySorted(entries, PriceKey);
    SortByHead(entries, PriceKey);
    SortedEnds(SortBy(entries, PriceKey), PriceKey);
  }

  /** Every listed price lies between the best price and the best price
      plus the savings: no listed website is cheaper than the best one. */
  lemma ComparisonBounds(itemId: string, ws: seq<Website>)
    requires ComparisonOf(itemId, ws).Some?
    ensures var b := ComparisonOf(itemId, ws).value.bestPrice;
      forall j :: 0 <= j < |ws| && Listed(ws[j]) ==> b.price <= ws[j].currentPrice.value <= b.price + b.savings
  {
    var entries := PricedEntries(ws);
    var sorted := SortBy(entries, PriceKey);
    SortBySorted(entries, PriceKey);
    SortedEnds(sorted, PriceKey);
    PricedEntriesMembers(ws);
    forall j | 0 <= j < |ws| && Listed(ws[j])
      ensures sorted[0].price <= ws[j].currentPrice.value <= sorted[|sorted| - 1].price
    {
      var e := Entry(ws[j]);
      assert e in entries;
      assert e in multiset(sorted);
      var i :| 0 <= i < |sorted| && sorted[i] == e;
      assert PriceKey(sorted[0]) <= PriceKey(sorted[i]) <= PriceKey(sorted[|sorted| - 1]);
    }
  }

  /** The best price and the best price plus the savings are the prices
      of listed websites, the first of the website the best price names. */
  lemma ComparisonAttained(itemId: string, ws: seq<Website>)
    requires ComparisonOf(itemId, ws).Some?
    ensures var b := ComparisonOf(itemId, ws).value.bestPrice;
      (exists j :: 0 <= j < |ws| && Listed(ws[j]) && ws[j].id == b.websiteId && ws[j].currentPrice == Some(b.price)) &&
      (exists j :: 0 <= j < |ws| && Listed(ws[j]) && ws[j].currentPrice == Some(b.price + b.savings))
  {
    var entries := PricedEntries(ws);
    var sorted := SortBy(entries, PriceKey);
    SortByMembers(entries, PriceKey);
    assert ComparisonOf(itemId, ws) == ComparisonFrom(itemId, sorted);
    assert sorted[0] in sorted && sorted[|sorted| - 1] in sorted;
    AttainedFrom(ws, sorted);
  }

  lemma AttainedFrom(ws: seq<Website>, sorted: seq<WebsitePrice>)
    requires sorted != [] && sorted[0] in PricedEntries(ws) && sorted[|sorted| - 1] in PricedEntries(ws)
    ensures exists j :: 0 <= j < |ws| && Listed(ws[j]) && ws[j].id == sorted[0].websiteId && ws[j].currentPrice == Some(sorted[0].price)
    ensures exists j :: 0 <= j < |ws| && Listed(ws[j]) && ws[j].currentPrice == Some(sorted[|sorted| - 1].price)
  {
    var i := EntryListed(ws, sorted[0]);
    var k := EntryListed(ws, sorted[|sorted| - 1]);
  }

  /** An entry of the comparison names a listed website and its price. */
  lemma EntryListed(ws: seq<Website>, e: WebsitePrice) returns (j: nat)
    requires e in PricedEntries(ws)
    ensures j < |ws| && Listed(ws[j]) && ws[j].id == e.websiteId && ws[j].currentPrice == Some(e.price)
  {
    PricedEntriesMembers(ws);
    j :| 0 <= j < |ws| && Listed(ws[j]) && e == Entry(ws[j]);
  }

  // ---------------------------------------------------------------------
  // The price history

  /** The milliseconds of a day. */
  const DayMs: real := 86400000.0

  /** The `days` argument when none is given. */
  const DefaultDays: real := 30.0

  function Cutoff(now: int, days: real): real {
    now as real - days * DayMs
  }

  /** `!websiteId` (absent or empty) matches every website. */
  predicate InWindow(e: PriceHistory, websiteId: Option<string>, cutoff: real) {
    (websiteId.None? || websiteId.value == "" || e.websiteId == websiteId.value) && e.timestamp as real >= cutoff
  }

  function TimeKey(e: PriceHistory): real {
    e.timestamp as real
  }

  /** `getPriceHistory` once the item is found. */
  function HistoryOf(h: seq<PriceHistory>, websiteId: Option<string>, days: real, now: int): seq<PriceHistory> {
    var cutoff := Cutoff(now, days);
    SortBy(Keep(h, (e: PriceHistory) => InWindow(e, websiteId, cutoff)), TimeKey)
  }

  /** The history holds exactly the entries of the website (or of every
      website) stamped no earlier than `days` before `now`, as often as
      they occur, oldest first; entries with the same stamp keep their
      recorded order. */
  lemma HistoryFacts(h: seq<PriceHistory>, websiteId: Option<string>, days: real, now: int)
    ensures var r := HistoryOf(h, websiteId, days, now); var cutoff := Cutoff(now, days);
      var window := Keep(h, (e: PriceHistory) => InWindow(e, websiteId, cutoff));
      SortedBy(r, TimeKey) &&
      multiset(r) == multiset(window) &&
      (forall e :: e in r <==> e in h && InWindow(e, websiteId, cutoff)) &&
      (forall t :: Sorting.WithKey(r, TimeKey, t) == Sorting.WithKey(window, TimeKey, t))
  {
    var cutoff := Cutoff(now, days);
    var p := (e: PriceHistory) => InWindow(e, websiteId, cutoff);
    var window := Keep(h, p);
    var r := SortBy(window, TimeKey);
    SortBySorted(window, TimeKey);
    KeepMembers(h, p);
    forall e ensures e in r <==> e in window {
      assert e in r <==> e in multiset(r);
    }
    forall t ensures Sorting.WithKey(r, TimeKey, t) == Sorting.WithKey(window, TimeKey, t) {
      SortByStable(window, TimeKey, t);
    }
  }

  // ---------------------------------------------------------------------
  // The price statistics

  datatype Trend = Up | Down | Stable

  datatype PriceStatistics = PriceStatistics(
    current: real,
    average: real,
    lowest: real,
    highest: real,
    trend: Trend,
    changePercent: real)

  function Prices(h: seq<PriceHistory>): seq<real> {
    seq(|h|, i requires 0 <= i < |h| => h[i].price)
  }

  /** The change from the previous to the current price in percent; zero
      when the previous price is not positive. */
  function RawChange(current: real, previous: real): real {
    if previous > 0.0 then (current - previous) / previous * 100.0 else 0.0
  }

  function TrendOf(change: real): Trend {
    if change > 1.0 then Up else if change < -1.0 then Down else Stable
  }

  /** The statistics of a history already narrowed and ordered by
      `getPriceHistory`; none for an empty history. */
  function StatisticsOf(history: seq<PriceHistory>): Option<PriceStatistics> {
    if history == [] then None
    else
      var prices := Prices(history);
      var n := |prices|;
      var current := prices[n - 1];
      var previous := if n > 1 then prices[n - 2] else current;
      var change := RawChange(current, previous);
      Some(PriceStatistics(current, Round2(Sum(prices) / n as real), MinOf(prices), MaxOf(prices),
                           TrendOf(change), Round2(change)))
  }

  /** The current price is the newest entry's; the lowest and the highest
      are prices of the history bounding all of them; the average lies
      within half a cent of the exact mean, which lies between them; the
      change is the rounded relative change of the last step. */
  lemma StatisticsBounds(history: seq<PriceHistory>)
    ensures var r := StatisticsOf(history);
      (r.None? <==> history == []) &&
      (r.Some? ==>
        var s := r.value; var n := |history|;
        var mean := Sum(Prices(history)) / n as real;
        s.current == history[n - 1].price &&
        (exists i :: 0 <= i < n && history[i].price == s.lowest) &&
        (exists i :: 0 <= i < n && history[i].price == s.highest) &&
        (forall i :: 0 <= i < n ==> s.lowest <= history[i].price <= s.highest) &&
        s.lowest <= mean <= s.highest &&
        Abs(s.average - mean) <= 0.005 &&
        var previous := if n > 1 then history[n - 2].price else s.current;
        Abs(s.changePercent - RawChange(s.current, previous)) <= 0.005)
  {
    if history != [] {
      var prices := Prices(history);
      assert forall i :: 0 <= i < |history| ==> prices[i] == history[i].price;
      MinOfIsLeast(prices);
      MaxOfIsGreatest(prices);
      MeanBetween(prices);
    }
  }

  /** For `d > 0`, a ratio in percent compared with `t` is the numerator
      compared with `t` percent of `d`. */
  lemma Scaled(x: real, d: real, t: real)
    requires d > 0.0
    ensures x / d * 100.0 <= t <==> x <= t * d / 100.0
    ensures x / d * 100.0 >= t <==> x >= t * d / 100.0
  {
    var q := x / d;
    assert q * d == x;
    assert q * 100.0 <= t <==> q * d * 100.0 <= t * d;
    assert q * 100.0 >= t <==> q * d * 100.0 >= t * d;
  }

  /** The trend reads the last step: up when the price rose by more than 1%
      of the previous price, down when it fell by more than 1%, stable
      otherwise, and stable with no change when there is no previous
      positive price (a single entry included). */
  lemma StatisticsTrend(history: seq<PriceHistory>)
    requires history != []
    ensures var s := StatisticsOf(history).value; var n := |history|;
      var previous := if n > 1 then history[n - 2].price else s.current;
      (previous > 0.0 ==>
        (s.trend == Up <==> s.current > previous * 1.01) &&
        (s.trend == Down <==> s.current < previous * 0.99) &&
        (s.trend == Stable <==> previous * 0.99 <= s.current <= previous * 1.01)) &&
      (previous <= 0.0 || n == 1 ==> s.trend == Stable && s.changePercent == 0.0)
  {
    var s := StatisticsOf(history).value;
    var n := |history|;
    var previous := if n > 1 then history[n - 2].price else s.current;
    Round2Cents(0);
    if previous > 0.0 {
      var step := s.current - previous;
      Scaled(step, previous, 1.0);
      Scaled(step, previous, -1.0);
      assert RawChange(s.current, previous) == step / previous * 100.0;
    }
  }

  // ---------------------------------------------------------------------
  // The buying recommendation

  /** A number of the source's floating point that a division by zero can
      make: `x / 0` is `Infinity`, `-Infinity` or `NaN` by the sign of `x`. */
  datatype Ext = Finite(v: real) | PlusInfinity | MinusInfinity | NotANumber

  /** `((num) / den) * 100`. */
  function Percent(num: real, den: real): Ext {
    if den != 0.0 then Finite(num / den * 100.0)
    else if num > 0.0 then PlusInfinity
    else if num < 0.0 then MinusInfinity
    else NotANumber
  }

  /** `e <= b`: false for `NaN`. */
  predicate AtMost(e: Ext, b: real) {
    match e
    case Finite(v) => v <= b
    case PlusInfinity => false
    case MinusInfinity => true
    case NotANumber => false
  }

  /** `e >= b`: false for `NaN`. */
  predicate AtLeast(e: Ext, b: real) {
    match e
    case Finite(v) => v >= b
    case PlusInfinity => true
    case MinusInfinity => false
    case NotANumber => false
  }

  datatype Advice = Buy | Wait | Uncertain

  datatype Recommendation = Recommendation(recommendation: Advice, confidence: nat, reason: string, bestWebsite: Option<string>)

  const NotEnoughData := "بيانات غير كافية للتحليل"

  const NearLowest := "السعر قريب من أدنى مستوى تاريخي والاتجاه مستقر"

  const BelowAverage := "السعر أقل من المتوسط والاتجاه هابط"

  const HighOrRising := "السعر مرتفع مقارنة بالمتوسط أو في اتجاه صاعد"

  const AroundAverage := "السعر في المتوسط، قرار الشراء يعتمد على الحاجة"

  /** The name of the first entry of the website: `find(…)?.name`. */
  function NameOf(websites: seq<WebsitePrice>, websiteId: string): (r: Option<string>)
    ensures r.Some? <==> exists i :: 0 <= i < |websites| && websites[i].websiteId == websiteId
    ensures r.Some? ==> exists i :: 0 <= i < |websites| && websites[i].websiteId == websiteId && websites[i].name == r.value &&
                          forall j :: 0 <= j < i ==> websites[j].websiteId != websiteId
  {
    if websites == [] then None
    else if websites[0].websiteId == websiteId then Some(websites[0].name)
    else
      var r := NameOf(websites[1..], websiteId);
      assert forall i :: 1 <= i < |websites| ==> websites[i] == websites[1..][i - 1];
      r
  }

  /** Rule 1: within 5% of the lowest price and not rising. */
  predicate NearLowestRule(s: PriceStatistics) {
    AtMost(Percent(s.current - s.lowest, s.lowest), 5.0) && s.trend != Up
  }

  /** Rule 2: at least 10% under the (rounded) average and falling. */
  predicate BelowAverageRule(s: PriceStatistics) {
    AtMost(Percent(s.current - s.average, s.average), -10.0) && s.trend == Down
  }

  /** Rule 3: at least 15% over the (rounded) average, or rising. */
  predicate HighOrRisingRule(s: PriceStatistics) {
    AtLeast(Percent(s.current - s.average, s.average), 15.0) || s.trend == Up
  }

  /** The decision of `getBuyingRecommendation` for a comparison and the
      statistics of its best website. */
  function RecommendationOf(comparison: PriceComparison, stats: Option<PriceStatistics>): Recommendation {
    if stats.None? then Recommendation(Uncertain, 0, NotEnoughData, None)
    else
      var s := stats.value;
      var bestWebsite := NameOf(comparison.websites, comparison.bestPrice.websiteId);
      if NearLowestRule(s) then Recommendation(Buy, 85, NearLowest, bestWebsite)
      else if BelowAverageRule(s) then Recommendation(Buy, 75, BelowAverage, bestWebsite)
      else if HighOrRisingRule(s) then Recommendation(Wait, 70, HighOrRising, bestWebsite)
      else Recommendation(Uncertain, 50, AroundAverage, bestWebsite)
  }

  /** The rules apply in order, each with its confidence and reason; a buy
      is never advised on a rising trend, and a wait always has a reason
      the first two rules do not give. */
  lemma RecommendationRules(comparison: PriceComparison, stats: Option<PriceStatistics>)
    ensures var r := RecommendationOf(comparison, stats);
      (stats.None? ==> r == Recommendation(Uncertain, 0, NotEnoughData, None)) &&
      (stats.Some? ==>
        var s := stats.value;
        (r.recommendation == Buy <==> NearLowestRule(s) || BelowAverageRule(s)) &&
        (r.recommendation == Wait <==> !NearLowestRule(s) && !BelowAverageRule(s) && HighOrRisingRule(s)) &&
        (r.recommendation == Uncertain <==> !NearLowestRule(s) && !BelowAverageRule(s) && !HighOrRisingRule(s)) &&
        (r.recommendation == Buy ==> s.trend != Up) &&
        (r.confidence == 85 <==> NearLowestRule(s)) &&
        (r.confidence == 75 <==> !NearLowestRule(s) && BelowAverageRule(s)) &&
        (r.confidence == 70 <==> r.recommendation == Wait) &&
        (r.confidence == 50 <==> r.recommendation == Uncertain))
  {
  }

  /** With positive lowest and average prices the rules read as price
      bounds: a buy at no more than 105% of the lowest price unless rising,
      or at no more than 90% of the average while falling; a wait at no
      less than 115% of the average or when rising. */
  lemma RulesInPrices(s: PriceStatistics)
    requires s.lowest > 0.0 && s.average > 0.0
    ensures NearLowestRule(s) <==> s.current <= 1.05 * s.lowest && s.trend != Up
    ensures BelowAverageRule(s) <==> s.current <= 0.9 * s.average && s.trend == Down
    ensures HighOrRisingRule(s) <==> s.current >= 1.15 * s.average || s.trend == Up
  {
    Scaled(s.current - s.lowest, s.lowest, 5.0);
    Scaled(s.current - s.average, s.average, -10.0);
    Scaled(s.current - s.average, s.average, 15.0);
  }

  /** A zero lowest price makes the first rule's ratio `Infinity` or
      `NaN` when the current price is not below it, so the rule does not
      apply; below it the ratio is `-Infinity` and the rule can. */
  lemma ZeroLowest(s: PriceStatistics)
    requires s.lowest == 0.0
    ensures s.current >= 0.0 ==> !NearLowestRule(s)
    ensures s.current < 0.0 ==> (NearLowestRule(s) <==> s.trend != Up)
  {
  }

  /** For statistics that come from a history the current price is never
      below the lowest, so a zero lowest price never triggers the first
      rule. */
  lemma ZeroLowestFromHistory(history: seq<PriceHistory>)
    requires StatisticsOf(history).Some? && StatisticsOf(history).value.lowest == 0.0
    ensures !NearLowestRule(StatisticsOf(history).value)
  {
    StatisticsBounds(history);
    ZeroLowest(StatisticsOf(history).value);
  }

  /** When there are statistics, the website named is the cheapest in the
      comparison (its first entry). */
  lemma RecommendedWebsite(itemId: string, ws: seq<Website>, stats: Option<PriceStatistics>)
    requires ComparisonOf(itemId, ws).Some?
    ensures var c := ComparisonOf(itemId, ws).value;
      RecommendationOf(c, stats).bestWebsite == if stats.None? then None else Some(c.websites[0].name)
  {
  }

  // ---------------------------------------------------------------------
  // The service operations on the store

  /** `getPriceComparison`: none for an unknown item or an item with no
      listed website. */
  function GetPriceComparison(ds: DataService, itemId: string): (r: Option<PriceComparison>)
    reads ds
    ensures r.Some? <==> ds.GetItemById(itemId).Some? &&
                         exists j :: 0 <= j < |ds.GetItemById(itemId).value.websites| && Listed(ds.GetItemById(itemId).value.websites[j])
    ensures r.Some? ==> r.value.itemId == itemId
  {
    var item := ds.GetItemById(itemId);
    if item.None? then None
    else
      ComparisonShape(itemId, item.value.websites);
      ComparisonOf(itemId, item.value.websites)
  }

  /** `getPriceHistory`: empty for an unknown item; otherwise the entries
      of the window, oldest first. */
  function GetPriceHistory(ds: DataService, itemId: string, websiteId: Option<string>, days: real, now: int): (r: seq<PriceHistory>)
    reads ds
    ensures ds.GetItemById(itemId).None? ==> r == []
    ensures ds.GetItemById(itemId).Some? ==>
      SortedBy(r, TimeKey) &&
      forall e :: e in r <==> e in ds.GetItemById(itemId).value.priceHistory && InWindow(e, websiteId, Cutoff(now, days))
  {
    var item := ds.GetItemById(itemId);
    if item.None? then []
    else
      HistoryFacts(item.value.priceHistory, websiteId, days, now);
      HistoryOf(item.value.priceHistory, websiteId, days, now)
  }

  /** `getPriceStatistics`: the statistics of the website's last 30 days;
      none when that history is empty. */
  function GetPriceStatistics(ds: DataService, itemId: string, websiteId: string, now: int): (r: Option<PriceStatistics>)
    reads ds
    ensures r.None? <==> GetPriceHistory(ds, itemId, Some(websiteId), DefaultDays, now) == []
  {
    var history := GetPriceHistory(ds, itemId, Some(websiteId), DefaultDays, now);
    StatisticsBounds(history);
    StatisticsOf(history)
  }

  /** `getBuyingRecommendation`: none without a comparison; otherwise the
      decision on the statistics of the best website, naming the cheapest
      website when there are statistics. */
  function GetBuyingRecommendation(ds: DataService, itemId: string, now: int): (r: Option<Recommendation>)
    reads ds
    ensures r.None? <==> GetPriceComparison(ds, itemId).None?
    ensures r.Some? ==>
      var c := GetPriceComparison(ds, itemId).value;
      var stats := GetPriceStatistics(ds, itemId, c.bestPrice.websiteId, now);
      r.value == RecommendationOf(c, stats) &&
      r.value.bestWebsite == if stats.None? then None else Some(c.websites[0].name)
  {
    var comparison := GetPriceComparison(ds, itemId);
    if comparison.None? then None
    else
      var item := ds.GetItemById(itemId).value;
      var stats := GetPriceStatistics(ds, itemId, comparison.value.bestPrice.websiteId, now);
      RecommendedWebsite(itemId, item.websites, stats);
      Some(RecommendationOf(comparison.value, stats))
  }
}
