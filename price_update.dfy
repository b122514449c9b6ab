/** The commit path of `updateWebsitePrice` and `manualPriceUpdate`. A
    scraped price is committed only when the scrape succeeded with a price
    that differs from the website's current one: the website takes the
    price and a stamp, the price history gains an entry and keeps at most
    the last 100 entries of that website, the alerts of the website are
    checked, and the item is written back to the store. The scrape itself
    (the request, the page checks and the extraction) arrives as its
    result; the new item value is written back with every field the source
    changes in place, since the item, its websites and its alerts are the
    store's own objects there. */
module PriceUpdate {
  import opened Models
  import opened Lists
  import opened Alerts
  import opened Store
  import Extraction

  const ItemNotFound := "العنصر غير موجود"

  const WebsiteNotFound := "الموقع غير موجود"

  /** `slice(-100)`: how many entries per website the history keeps. */
  const HistoryLimit: nat := 100

  datatype PriceUpdateResult = PriceUpdateResult(
    websiteId: string,
    success: bool,
    price: Option<real>,
    error: Option<string>,
    extractedText: Option<string>,
    usedSelector: Option<string>)

  function Failure(websiteId: string, error: string): PriceUpdateResult {
    PriceUpdateResult(websiteId, false, None, Some(error), None, None)
  }

  function OfWebsite(websiteId: string): PriceHistory -> bool {
    (e: PriceHistory) => e.websiteId == websiteId
  }

  function NotOfWebsite(websiteId: string): PriceHistory -> bool {
    (e: PriceHistory) => e.websiteId != websiteId
  }

  /** The trim after the push: the last 100 entries of the website, then
      the entries of every other website. */
  function TrimHistory(h: seq<PriceHistory>, websiteId: string): seq<PriceHistory> {
    Last(Keep(h, OfWebsite(websiteId)), HistoryLimit) + Keep(h, NotOfWebsite(websiteId))
  }

  /** After pushing an entry of a website and trimming: the history holds
      that website's entries first and then the others; the website keeps
      at most 100 entries, which are its most recent ones in their order,
      ending with the new entry; the other websites' entries are all kept,
      in their order. */
  lemma TrimHistoryFacts(h: seq<PriceHistory>, entry: PriceHistory)
    ensures var w := entry.websiteId;
      var mine := Keep(h, OfWebsite(w)) + [entry];
      var r := TrimHistory(h + [entry], w);
      var kept := Keep(r, OfWebsite(w));
      r == kept + Keep(r, NotOfWebsite(w)) &&
      |kept| == (if |mine| <= HistoryLimit then |mine| else HistoryLimit) &&
      kept == mine[|mine| - |kept|..] &&
      kept[|kept| - 1] == entry &&
      Keep(r, NotOfWebsite(w)) == Keep(h, NotOfWebsite(w))
  {
    var w := entry.websiteId;
    var same, other := OfWebsite(w), NotOfWebsite(w);
    PushEntry(h, entry);
    var mine := Keep(h + [entry], same);
    assert mine == Keep(h, same) + [entry];
    var theirs := Keep(h + [entry], other);
    var last := Last(mine, HistoryLimit);
    var r := TrimHistory(h + [entry], w);
    assert r == last + theirs;
    SuffixKept(mine, last, same);
    assert forall i :: 0 <= i < |theirs| ==> other(theirs[i]) && !same(theirs[i]);
    assert forall i :: 0 <= i < |last| ==> same(last[i]) && !other(last[i]);
    KeepSplit(last, theirs, same, other);
    assert Keep(r, same) == last;
    assert Keep(r, other) == theirs;
  }

  /** Pushing an entry of a website adds it to that website's entries only. */
  lemma PushEntry(h: seq<PriceHistory>, entry: PriceHistory)
    ensures Keep(h + [entry], OfWebsite(entry.websiteId)) == Keep(h, OfWebsite(entry.websiteId)) + [entry]
    ensures Keep(h + [entry], NotOfWebsite(entry.websiteId)) == Keep(h, NotOfWebsite(entry.websiteId))
  {
    KeepConcat(h, [entry], OfWebsite(entry.websiteId));
    KeepConcat(h, [entry], NotOfWebsite(entry.websiteId));
    assert Keep([entry], OfWebsite(entry.websiteId)) == [entry];
    assert Keep([entry], NotOfWebsite(entry.websiteId)) == [];
  }

  /** The scrape is committed: it succeeded, it has a price, and the price
      is not the website's current one (an absent current price always
      differs). */
  predicate Commits(scraped: Extraction.HtmlResult, website: Website) {
    scraped.success && scraped.price.Some? && Some(scraped.price.value) != website.currentPrice
  }

  /** The item after committing `price` for its website at `wi`, as
      `updateItem` stores it. */
  function Committed(item: ShoppingItem, wi: nat, price: real, now: int): ShoppingItem
    requires wi < |item.websites|
  {
    var website := item.websites[wi];
    item.(
      websites := item.websites[wi := website.(currentPrice := Some(price), lastUpdated := Some(now))],
      priceHistory := TrimHistory(item.priceHistory + [PriceHistory(now, price, website.id)], website.id),
      alerts := Deactivated(item.alerts, website.id, price),
      dateModified := now)
  }

  /** A commit changes the one website's price and stamp and no other
      website, bounds its history as `TrimHistoryFacts` states, switches off
      exactly the alerts that fire, and leaves every other field alone. */
  lemma CommittedFacts(item: ShoppingItem, wi: nat, price: real, now: int)
    requires wi < |item.websites|
    ensures var r := Committed(item, wi, price, now);
      var w := item.websites[wi];
      |r.websites| == |item.websites| &&
      r.websites[wi].currentPrice == Some(price) && r.websites[wi].lastUpdated == Some(now) &&
      r.websites[wi] == w.(currentPrice := Some(price), lastUpdated := Some(now)) &&
      (forall j :: 0 <= j < |item.websites| && j != wi ==> r.websites[j] == item.websites[j]) &&
      |Keep(r.priceHistory, OfWebsite(w.id))| <= HistoryLimit &&
      Keep(r.priceHistory, NotOfWebsite(w.id)) == Keep(item.priceHistory, NotOfWebsite(w.id)) &&
      (forall i :: 0 <= i < |item.alerts| ==> r.alerts[i] == Checked(item.alerts[i], w.id, price)) &&
      r.(websites := item.websites, priceHistory := item.priceHistory, alerts := item.alerts, dateModified := item.dateModified) == item
  {
    TrimHistoryFacts(item.priceHistory, PriceHistory(now, price, item.websites[wi].id));
  }

  /** The update `updateWebsitePrice` hands to `updateItem`. */
  function CommitUpdate(websites: seq<Website>, history: seq<PriceHistory>, alerts: seq<PriceAlert>): ItemUpdate {
    NoItemChange.(websites := Some(websites), priceHistory := Some(history), alerts := Some(alerts))
  }

  /** `updateWebsitePrice` from the scrape onwards. An unknown item or
      website is reported and changes nothing; a scrape that is not
      committed changes nothing and reports the website's current price. */
  method UpdateWebsitePrice(ds: DataService, itemId: string, websiteId: string, scraped: Extraction.HtmlResult, now: int)
    returns (r: PriceUpdateResult, notified: seq<PriceAlert>)
    modifies ds
    ensures var i := FindItem(old(ds.data.items), itemId);
      if i.None? then r == Failure(websiteId, ItemNotFound) && notified == [] && ds.data == old(ds.data)
      else
        var item := old(ds.data.items)[i.value];
        var w := FindWebsite(item.websites, websiteId);
        if w.None? then r == Failure(websiteId, WebsiteNotFound) && notified == [] && ds.data == old(ds.data)
        else if Commits(scraped, item.websites[w.value]) then
          var price := scraped.price.value;
          ds.data == old(ds.data).(items := old(ds.data.items)[i.value := Committed(item, w.value, price, now)]) &&
          r == PriceUpdateResult(websiteId, true, Some(price), None, scraped.extractedText, scraped.usedSelector) &&
          notified == if old(ds.data.settings.enableNotifications)
                      then Keep(item.alerts, (a: PriceAlert) => Fires(a, websiteId, price)) else []
        else
          ds.data == old(ds.data) && notified == [] &&
          r == PriceUpdateResult(websiteId, scraped.success, item.websites[w.value].currentPrice, scraped.error,
                                 scraped.extractedText, scraped.usedSelector)
  {
    notified := [];
    var found := ds.GetItemById(itemId);
    if found.None? {
      return Failure(websiteId, ItemNotFound), [];
    }
    var item := found.value;
    var wi := FindWebsite(item.websites, websiteId);
    if wi.None? {
      return Failure(websiteId, WebsiteNotFound), [];
    }
    var website := item.websites[wi.value];
    if scraped.success && scraped.price.Some? && Some(scraped.price.value) != website.currentPrice {
      var price := scraped.price.value;
      var websites := item.websites[wi.value := website.(currentPrice := Some(price), lastUpdated := Some(now))];
      var history := item.priceHistory + [PriceHistory(now, price, websiteId)];
      history := TrimHistory(history, websiteId);
      var alerts;
      alerts, notified := CheckPriceAlerts(item.alerts, website.id, price, ds.GetSettings().enableNotifications);
      ds.UpdateItem(itemId, CommitUpdate(websites, history, alerts), now);
      return PriceUpdateResult(websiteId, true, Some(price), None, scraped.extractedText, scraped.usedSelector), notified;
    }
    return PriceUpdateResult(websiteId, scraped.success, website.currentPrice, scraped.error,
                             scraped.extractedText, scraped.usedSelector), [];
  }

  /** `manualPriceUpdate`: the website takes the price and the history gains
      the entry, with no trim; alerts are not checked. */
  method ManualPriceUpdate(ds: DataService, itemId: string, websiteId: string, price: real, now: int)
    modifies ds
    ensures var i := FindItem(old(ds.data.items), itemId);
      if i.None? then ds.data == old(ds.data)
      else
        var item := old(ds.data.items)[i.value];
        var w := FindWebsite(item.websites, websiteId);
        if w.None? then ds.data == old(ds.data)
        else
          ds.data == old(ds.data).(items := old(ds.data.items)[i.value := item.(
            websites := item.websites[w.value := item.websites[w.value].(currentPrice := Some(price), lastUpdated := Some(now))],
            priceHistory := item.priceHistory + [PriceHistory(now, price, websiteId)],
            dateModified := now)])
  {
    var found := ds.GetItemById(itemId);
    if found.None? {
      return;
    }
    var item := found.value;
    var wi := FindWebsite(item.websites, websiteId);
    if wi.None? {
      return;
    }
    var website := item.websites[wi.value];
    var websites := item.websites[wi.value := website.(currentPrice := Some(price), lastUpdated := Some(now))];
    var history := item.priceHistory + [PriceHistory(now, price, websiteId)];
    ds.UpdateItem(itemId, NoItemChange.(websites := Some(websites), priceHistory := Some(history)), now);
  }
}
