/** `extractPriceFromHtml` and the extractors under it. For one element the
    extractors are tried in a fixed order (its price attributes, its own
    text, the price-like elements inside it, its two neighbours), for one
    selector the elements it finds in order, and for a page the user's
    selectors, then the built-in common selectors, then the text scan of
    the whole body. The first price found wins, and the result says which
    stage found it.

    The extractors read numbers with `parsePrice` and look at a fixed list
    of price attributes; here both are held by the parameter `rd`, and the
    cascade takes the list of common selectors as a parameter too.
    `ExtractPriceFromHtmlOf` passes `PriceParsing.ParsePriceOf`, the
    attribute list and the selector list of the source. The properties of
    the cascade hold for any reader and any lists. */
module Extraction {
  import opened Text
  import opened Models
  import opened PriceParsing
  import opened TextScan
  import opened Dom

  /** The attributes that may hold a price, in the order they are read. */
  const PriceAttributes: seq<string> := [
    "data-price", "data-amount", "data-value", "data-cost", "content", "value",
    "title", "aria-label", "data-original-price", "data-sale-price", "data-currency-amount"]

  /** `getCommonPriceSelectors()`, repetitions included. */
  const CommonSelectors: seq<string> := [
    ".price", "#price", "[data-price]", ".amount", ".cost", ".price-now",
    ".current-price", ".sale-price", ".final-price", ".product-price", ".item-price", ".total-price",
    ".a-price .a-offscreen", ".a-price-whole", ".a-price-range",
    "#priceblock_dealprice", "#priceblock_ourprice", ".a-price.a-text-price",
    ".price", ".price-now", ".price-current", ".current-price", ".product-price", ".final-price", ".sale-price",
    "[class*=\"price\"]", "[class*=\"cost\"]", "[class*=\"amount\"]",
    "[id*=\"price\"]", "[id*=\"cost\"]", "[id*=\"amount\"]",
    "span[class*=\"currency\"]", "div[class*=\"money\"]",
    "span", "div", "p", "strong", "b"]

  const CommonPrefix: string := "common: "

  const FallbackLabel: string := "fallback: document scan"

  /** "No price was found by any of the available methods." */
  const NotFoundError: string := "لم يتم العثور على سعر باستخدام أي من الطرق المتاحة"

  /** A price found, with the text it was read from. */
  datatype Hit = Hit(price: real, extractedText: string)

  /** What the extractors read with: a number reader and the attributes
      that may hold a price, in the order they are read. */
  datatype Reader = Reader(parse: string -> Option<real>, attributes: seq<string>)

  /** The reader of the source: `parsePrice` and the price attributes. */
  function SourceReader(): Reader {
    Reader(ParsePriceOf, PriceAttributes)
  }

  // ---------------------------------------------------------------------
  // First success

  /** `f` of the first element of `xs` for which it gives something. */
  function FirstSome<T, U>(xs: seq<T>, f: T -> Option<U>): Option<U>
    decreases |xs|
  {
    if xs == [] then None
    else if f(xs[0]).Some? then f(xs[0])
    else FirstSome(xs[1..], f)
  }

  /** The result is `f` of the first element for which `f` gives
      something, and nothing when there is no such element. */
  lemma {:induction false} FirstSomeFacts<T, U>(xs: seq<T>, f: T -> Option<U>)
    ensures var r := FirstSome(xs, f);
      (r.None? <==> forall k :: 0 <= k < |xs| ==> f(xs[k]).None?) &&
      (r.Some? ==> exists k :: 0 <= k < |xs| && r == f(xs[k]) && forall j :: 0 <= j < k ==> f(xs[j]).None?)
    decreases |xs|
  {
    if xs != [] && f(xs[0]).None? {
      var rest := xs[1..];
      FirstSomeFacts(rest, f);
      assert forall j :: 0 <= j < |rest| ==> rest[j] == xs[j + 1];
      if FirstSome(rest, f).Some? {
        var k :| 0 <= k < |rest| && FirstSome(rest, f) == f(rest[k]) && forall j :: 0 <= j < k ==> f(rest[j]).None?;
        assert forall j :: 0 <= j < k + 1 ==> f(xs[j]).None? by {
          forall j | 0 <= j < k + 1 ensures f(xs[j]).None? {
            if j > 0 {
              assert xs[j] == rest[j - 1];
            }
          }
        }
      }
    }
  }

  /** The loop step: after an element that gives nothing, the rest decides. */
  lemma FirstSomeStep<T, U>(xs: seq<T>, f: T -> Option<U>, k: nat)
    requires k < |xs|
    ensures FirstSome(xs[k..], f) == if f(xs[k]).Some? then f(xs[k]) else FirstSome(xs[k + 1..], f)
  {
    assert xs[k..][0] == xs[k] && xs[k..][1..] == xs[k + 1..];
  }

  /** The positions below `n` that satisfy `p`, in increasing order. */
  function Positions(n: nat, p: nat -> bool): (r: seq<nat>)
    ensures forall i, j :: 0 <= i < j < |r| ==> r[i] < r[j]
    ensures forall j: nat :: j in r <==> j < n && p(j)
  {
    if n == 0 then []
    else
      var init := Positions(n - 1, p);
      assert forall i :: 0 <= i < |init| ==> init[i] in init;
      init + (if p(n - 1) then [n - 1] else [])
  }

  // ---------------------------------------------------------------------
  // One element

  /** How an attribute hit is reported: `[attr="value"]`. */
  function AttributeText(attr: string, value: string): string {
    "[" + attr + "=\"" + value + "\"]"
  }

  /** The attribute is set to a non-empty value that `parse` reads. */
  predicate AttributeParses(rd: Reader, e: Element, attr: string) {
    Attribute(e, attr).Some? && Attribute(e, attr).value != [] && rd.parse(Attribute(e, attr).value).Some?
  }

  /** One attribute of `extractFromAttributes`. */
  function AttributeHit(rd: Reader, e: Element, attr: string): Option<Hit> {
    if AttributeParses(rd, e, attr) then
      var value := Attribute(e, attr).value;
      Some(Hit(rd.parse(value).value, AttributeText(attr, value)))
    else None
  }

  /** `extractFromAttributes`: the first of the price attributes that holds
      a price. */
  function AttributesHit(rd: Reader, e: Element): Option<Hit> {
    FirstSome(rd.attributes, a => AttributeHit(rd, e, a))
  }

  /** The attribute read is the first price attribute set to a value
      `parse` reads, and the hit reports that attribute and its value. */
  lemma AttributesHitFirst(rd: Reader, e: Element)
    ensures var r := AttributesHit(rd, e);
      (r.None? <==> forall j :: 0 <= j < |rd.attributes| ==> !AttributeParses(rd, e, rd.attributes[j])) &&
      (r.Some? ==>
        exists k :: 0 <= k < |rd.attributes| && AttributeParses(rd, e, rd.attributes[k]) &&
          Some(r.value.price) == rd.parse(Attribute(e, rd.attributes[k]).value) &&
          r.value.extractedText == AttributeText(rd.attributes[k], Attribute(e, rd.attributes[k]).value) &&
          forall j :: 0 <= j < k ==> !AttributeParses(rd, e, rd.attributes[j]))
  {
    FirstSomeFacts(rd.attributes, a => AttributeHit(rd, e, a));
  }

  /** `extractFromTextContent`, and the text of a child or a neighbour: the
      price `parse` reads from the text, reported with the text trimmed. */
  function TextHit(rd: Reader, text: string): Option<Hit> {
    var price := rd.parse(text);
    if price.Some? then Some(Hit(price.value, Trim(text))) else None
  }

  /** The class attribute contains `w` as a piece: `[class*="w"]`. */
  predicate ClassContains(e: Element, w: string) {
    "class" in e.attrs && Includes(e.attrs["class"], w)
  }

  /** `[class*="price"], [class*="cost"], [class*="amount"], [data-price],
      .currency, .money, [class*="سعر"]`. */
  predicate PriceLike(e: Element) {
    ClassContains(e, "price") || ClassContains(e, "cost") || ClassContains(e, "amount") ||
    HasAttribute(e, "data-price") || "currency" in Classes(e) || "money" in Classes(e) ||
    ClassContains(e, "سعر")
  }

  /** Element `j` lies inside element `i`: going up through the parents of
      `j` reaches `i`. */
  predicate Inside(es: seq<Element>, j: nat, i: nat)
    decreases j
  {
    j < |es| && es[j].parent.Some? && es[j].parent.value < j &&
    (es[j].parent.value == i || Inside(es, es[j].parent.value, i))
  }

  /** A price-like element inside `i`. */
  predicate PriceChild(es: seq<Element>, i: nat, j: nat) {
    j < |es| && Inside(es, j, i) && PriceLike(es[j])
  }

  /** `element.querySelectorAll(<the price-like selectors>)`: the price-like
      elements inside `i`, in document order. */
  function PriceChildren(es: seq<Element>, i: nat): seq<nat> {
    Positions(|es|, (j: nat) => PriceChild(es, i, j))
  }

  lemma PriceChildrenFacts(es: seq<Element>, i: nat)
    ensures var cs := PriceChildren(es, i);
      (forall a, b :: 0 <= a < b < |cs| ==> cs[a] < cs[b]) &&
      (forall j: nat :: j in cs <==> PriceChild(es, i, j))
  {
  }

  /** One price-like child: its text, then its attributes. */
  function ChildHit(rd: Reader, es: seq<Element>, j: nat): Option<Hit> {
    if j < |es| then
      var fromText := TextHit(rd, es[j].text);
      if fromText.Some? then fromText else AttributesHit(rd, es[j])
    else None
  }

  /** `extractFromChildElements`. */
  function ChildrenHit(rd: Reader, es: seq<Element>, i: nat): Option<Hit> {
    FirstSome(PriceChildren(es, i), (j: nat) => ChildHit(rd, es, j))
  }

  /** A child's hit comes from the first price-like element inside `i`, in
      document order, whose text or attributes hold a price. */
  lemma ChildrenHitFirst(rd: Reader, es: seq<Element>, i: nat)
    ensures var r := ChildrenHit(rd, es, i);
      var cs := PriceChildren(es, i);
      (r.None? <==> forall k :: 0 <= k < |cs| ==> ChildHit(rd, es, cs[k]).None?) &&
      (r.Some? ==>
        exists k :: 0 <= k < |cs| && PriceChild(es, i, cs[k]) && r == ChildHit(rd, es, cs[k]) &&
          forall j :: 0 <= j < k ==> ChildHit(rd, es, cs[j]).None?)
  {
    var cs := PriceChildren(es, i);
    PriceChildrenFacts(es, i);
    assert forall k :: 0 <= k < |cs| ==> cs[k] in cs;
    FirstSomeFacts(cs, (j: nat) => ChildHit(rd, es, j));
  }

  /** Two elements have the same parent. */
  predicate Siblings(es: seq<Element>, i: nat, k: nat)
    requires i < |es| && k < |es|
  {
    es[i].parent.Some? && es[k].parent == es[i].parent
  }

  /** `k` is the nearest sibling of `i` before it. */
  predicate NearestBefore(es: seq<Element>, i: nat, k: nat)
    requires i < |es|
  {
    k < i && Siblings(es, i, k) && forall j :: k < j < i ==> !Siblings(es, i, j)
  }

  /** `k` is the nearest sibling of `i` after it. */
  predicate NearestAfter(es: seq<Element>, i: nat, k: nat)
    requires i < |es|
  {
    i < k < |es| && Siblings(es, i, k) && forall j :: i < j < k ==> !Siblings(es, i, j)
  }

  /** The last sibling of `i` before position `k`. */
  function PreviousFrom(es: seq<Element>, i: nat, k: nat): (r: Option<nat>)
    requires k <= i < |es|
    ensures r.Some? ==>
      r.value < k && Siblings(es, i, r.value) && forall j :: r.value < j < k ==> !Siblings(es, i, j)
    ensures r.None? ==> forall j :: 0 <= j < k ==> !Siblings(es, i, j)
  {
    if k == 0 then None
    else if Siblings(es, i, k - 1) then Some(k - 1)
    else PreviousFrom(es, i, k - 1)
  }

  /** The first sibling of `i` from position `k` on. */
  function NextFrom(es: seq<Element>, i: nat, k: nat): (r: Option<nat>)
    requires i < k <= |es|
    ensures r.Some? ==>
      k <= r.value < |es| && Siblings(es, i, r.value) && forall j :: k <= j < r.value ==> !Siblings(es, i, j)
    ensures r.None? ==> forall j :: k <= j < |es| ==> !Siblings(es, i, j)
    decreases |es| - k
  {
    if k == |es| then None
    else if Siblings(es, i, k) then Some(k)
    else NextFrom(es, i, k + 1)
  }

  /** `previousElementSibling`: in document order, the nearest earlier
      element with the same parent. */
  function PreviousSibling(es: seq<Element>, i: nat): (r: Option<nat>)
    requires i < |es|
    ensures r.Some? ==> NearestBefore(es, i, r.value)
    ensures r.None? ==> forall k :: 0 <= k < i ==> !Siblings(es, i, k)
  {
    PreviousFrom(es, i, i)
  }

  /** `nextElementSibling`: the nearest later element with the same parent. */
  function NextSibling(es: seq<Element>, i: nat): (r: Option<nat>)
    requires i < |es|
    ensures r.Some? ==> NearestAfter(es, i, r.value)
    ensures r.None? ==> forall k :: i < k < |es| ==> !Siblings(es, i, k)
  {
    NextFrom(es, i, i + 1)
  }

  /** There is one nearest sibling before an element. */
  lemma NearestBeforeUnique(es: seq<Element>, i: nat, k: nat, k': nat)
    requires i < |es| && NearestBefore(es, i, k) && NearestBefore(es, i, k')
    ensures k == k'
  {
  }

  function SiblingTextHit(rd: Reader, es: seq<Element>, s: Option<nat>): Option<Hit>
    requires s.Some? ==> s.value < |es|
  {
    if s.Some? then TextHit(rd, es[s.value].text) else None
  }

  /** `extractFromSiblings`: the previous sibling's text, then the next one's. */
  function SiblingsHit(rd: Reader, es: seq<Element>, i: nat): Option<Hit>
    requires i < |es|
  {
    var before := SiblingTextHit(rd, es, PreviousSibling(es, i));
    if before.Some? then before else SiblingTextHit(rd, es, NextSibling(es, i))
  }

  /** A neighbour's hit comes from the text of the nearest sibling before
      `i` or, when there is none or its text holds no price, from the text
      of the nearest sibling after `i`; no other element is read. */
  lemma SiblingsHitFrom(rd: Reader, es: seq<Element>, i: nat)
    requires i < |es|
    ensures var r := SiblingsHit(rd, es, i);
      r.Some? ==>
        (exists k: nat :: NearestBefore(es, i, k) && r == TextHit(rd, es[k].text)) ||
        ((forall k: nat :: NearestBefore(es, i, k) ==> TextHit(rd, es[k].text).None?) &&
          exists k: nat :: NearestAfter(es, i, k) && r == TextHit(rd, es[k].text))
  {
    var prev := PreviousSibling(es, i);
    if prev.Some? {
      forall k: nat | NearestBefore(es, i, k) ensures k == prev.value {
        NearestBeforeUnique(es, i, k, prev.value);
      }
    }
  }

  /** The four extractors for the element `i`, in order. */
  function ElementHit(rd: Reader, es: seq<Element>, i: nat): Option<Hit>
    requires i < |es|
  {
    var fromAttributes := AttributesHit(rd, es[i]);
    var fromText := TextHit(rd, es[i].text);
    var fromChildren := ChildrenHit(rd, es, i);
    if fromAttributes.Some? then fromAttributes
    else if fromText.Some? then fromText
    else if fromChildren.Some? then fromChildren
    else SiblingsHit(rd, es, i)
  }

  /** An element yields nothing exactly when none of the four extractors
      does; otherwise it yields what the first of them that succeeds yields. */
  lemma ElementHitOrder(rd: Reader, es: seq<Element>, i: nat)
    requires i < |es|
    ensures var r := ElementHit(rd, es, i);
      var a := AttributesHit(rd, es[i]);
      var t := TextHit(rd, es[i].text);
      var c := ChildrenHit(rd, es, i);
      var s := SiblingsHit(rd, es, i);
      (r.None? <==> a.None? && t.None? && c.None? && s.None?) &&
      (a.Some? ==> r == a) &&
      (a.None? && t.Some? ==> r == t) &&
      (a.None? && t.None? && c.Some? ==> r == c) &&
      (a.None? && t.None? && c.None? ==> r == s)
  {
  }

  /** What an element yields is read by `parse` from some text. */
  lemma ElementHitRead(rd: Reader, es: seq<Element>, i: nat)
    requires i < |es|
    ensures var r := ElementHit(rd, es, i);
      r.Some? ==> exists s :: rd.parse(s) == Some(r.value.price)
  {
    var a := AttributesHit(rd, es[i]);
    AttributesHitFirst(rd, es[i]);
    if a.None? && TextHit(rd, es[i].text).None? {
      var c := ChildrenHit(rd, es, i);
      ChildrenHitFirst(rd, es, i);
      if c.Some? {
        var cs := PriceChildren(es, i);
        var k :| 0 <= k < |cs| && PriceChild(es, i, cs[k]) && c == ChildHit(rd, es, cs[k]);
        AttributesHitFirst(rd, es[cs[k]]);
      }
    }
  }

  // ---------------------------------------------------------------------
  // One selector

  /** An element position, read by the four extractors; a position outside
      the page names no element (on a valid page there is none). */
  function HitAt(rd: Reader, es: seq<Element>, x: nat): Option<Hit> {
    if x < |es| then ElementHit(rd, es, x) else None
  }

  /** What `tryExtractWithSelector` finds: the first price among the
      elements `findElementsBySelector` returns. */
  function TryExtractOf(rd: Reader, doc: Document, selector: string): Option<Hit> {
    FirstSome(FindElementsOf(doc, selector), (x: nat) => HitAt(rd, doc.elements, x))
  }

  /** A selector's price comes from one of the elements it finds, the
      first of them that yields a price; it finds no price exactly when
      none of them yields one. */
  lemma TryExtractFirst(rd: Reader, doc: Document, selector: string)
    requires ValidDocument(doc)
    ensures var r := TryExtractOf(rd, doc, selector);
      var xs := FindElementsOf(doc, selector);
      (forall k :: 0 <= k < |xs| ==> xs[k] < |doc.elements|) &&
      (r.None? <==> forall k :: 0 <= k < |xs| ==> HitAt(rd, doc.elements, xs[k]).None?) &&
      (r.Some? ==>
        exists k :: 0 <= k < |xs| && r == HitAt(rd, doc.elements, xs[k]) &&
          forall j :: 0 <= j < k ==> HitAt(rd, doc.elements, xs[j]).None?)
  {
    var xs := FindElementsOf(doc, selector);
    FindElementsInRange(doc, selector);
    assert forall k :: 0 <= k < |xs| ==> xs[k] in xs;
    FirstSomeFacts(xs, (x: nat) => HitAt(rd, doc.elements, x));
  }

  /** What a selector yields is read by `parse` from some text. */
  lemma TryExtractRead(rd: Reader, doc: Document, selector: string)
    ensures var r := TryExtractOf(rd, doc, selector);
      r.Some? ==> exists s :: rd.parse(s) == Some(r.value.price)
  {
    var xs := FindElementsOf(doc, selector);
    var f := (x: nat) => HitAt(rd, doc.elements, x);
    FirstSomeFacts(xs, f);
    if TryExtractOf(rd, doc, selector).Some? {
      var k :| 0 <= k < |xs| && TryExtractOf(rd, doc, selector) == f(xs[k]);
      ElementHitRead(rd, doc.elements, xs[k]);
    }
  }

  // ---------------------------------------------------------------------
  // A list of selectors

  datatype SelectorHit = SelectorHit(hit: Hit, selector: string)

  /** One selector, with the hit labelled by it. */
  function SelectorFound(rd: Reader, doc: Document, selector: string): Option<SelectorHit> {
    var h := TryExtractOf(rd, doc, selector);
    if h.Some? then Some(SelectorHit(h.value, selector)) else None
  }

  /** The first selector of `sels` that finds a price. */
  function SelectorsHit(rd: Reader, doc: Document, sels: seq<string>): Option<SelectorHit> {
    FirstSome(sels, s => SelectorFound(rd, doc, s))
  }

  /** The selector reported is the first of the list that finds a price,
      and the price is the one it finds. */
  lemma SelectorsHitFirst(rd: Reader, doc: Document, sels: seq<string>)
    ensures var r := SelectorsHit(rd, doc, sels);
      (r.None? <==> forall k :: 0 <= k < |sels| ==> TryExtractOf(rd, doc, sels[k]).None?) &&
      (r.Some? ==>
        exists k :: 0 <= k < |sels| && sels[k] == r.value.selector &&
          TryExtractOf(rd, doc, sels[k]) == Some(r.value.hit) &&
          forall j :: 0 <= j < k ==> TryExtractOf(rd, doc, sels[j]).None?)
  {
    FirstSomeFacts(sels, s => SelectorFound(rd, doc, s));
  }

  // ---------------------------------------------------------------------
  // The page

  /** What `extractPriceFromHtml` returns; absent fields are `None`. */
  datatype HtmlResult = HtmlResult(
    success: bool,
    price: Option<real>,
    error: Option<string>,
    extractedText: Option<string>,
    usedSelector: Option<string>)

  /** `doc.body ? doc.body.textContent || "" : ""` */
  function BodyText(doc: Document): string {
    if doc.body.Some? then doc.body.value else []
  }

  function Succeeded(h: Hit, stage: string): HtmlResult {
    HtmlResult(true, Some(h.price), None, Some(h.extractedText), Some(stage))
  }

  /** The report when nothing was found: the first 200 characters of the
      body text followed by "...". */
  function NotFound(bodyText: string): HtmlResult {
    HtmlResult(false, None, Some(NotFoundError), Some(Prefix(bodyText, 200) + "..."), None)
  }

  /** The cascade of `extractPriceFromHtml`: the user's `selectors`, the
      `common` selectors, then `scan`, the result of the text scan of the body. */
  function Cascade(rd: Reader, doc: Document, selectors: seq<string>, common: seq<string>, scan: TextPrice): HtmlResult {
    var user := SelectorsHit(rd, doc, selectors);
    var fromCommon := SelectorsHit(rd, doc, common);
    if user.Some? then Succeeded(user.value.hit, user.value.selector)
    else if fromCommon.Some? then Succeeded(fromCommon.value.hit, CommonPrefix + fromCommon.value.selector)
    else if scan.price.Some? then HtmlResult(true, scan.price, None, scan.extractedText, Some(FallbackLabel))
    else NotFound(BodyText(doc))
  }

  /** What `extractPriceFromHtml` returns for a parsed page, once scripts
      and styles have been removed from it. */
  function ExtractPriceFromHtmlOf(doc: Document, selectors: seq<string>): HtmlResult {
    Cascade(SourceReader(), doc, selectors, CommonSelectors, ExtractPriceFromTextOf(BodyText(doc)))
  }

  /** When one of the user's selectors finds a price, the result is the
      price of the first such selector, reported under that selector. */
  lemma UserSelectorFirst(rd: Reader, doc: Document, selectors: seq<string>, common: seq<string>, scan: TextPrice)
    requires exists k :: 0 <= k < |selectors| && TryExtractOf(rd, doc, selectors[k]).Some?
    ensures var r := Cascade(rd, doc, selectors, common, scan);
      r.success && r.price.Some? && r.extractedText.Some? && r.error.None? &&
      exists k :: 0 <= k < |selectors| && r.usedSelector == Some(selectors[k]) &&
        TryExtractOf(rd, doc, selectors[k]) == Some(Hit(r.price.value, r.extractedText.value)) &&
        forall j :: 0 <= j < k ==> TryExtractOf(rd, doc, selectors[j]).None?
  {
    SelectorsHitFirst(rd, doc, selectors);
  }

  /** When none of the user's selectors finds a price and a common one
      does, the result is the price of the first such common selector,
      reported as "common: " followed by the selector. */
  lemma CommonSelectorFirst(rd: Reader, doc: Document, selectors: seq<string>, common: seq<string>, scan: TextPrice)
    requires forall k :: 0 <= k < |selectors| ==> TryExtractOf(rd, doc, selectors[k]).None?
    requires exists k :: 0 <= k < |common| && TryExtractOf(rd, doc, common[k]).Some?
    ensures var r := Cascade(rd, doc, selectors, common, scan);
      r.success && r.price.Some? && r.extractedText.Some? && r.error.None? &&
      exists k :: 0 <= k < |common| && r.usedSelector == Some(CommonPrefix + common[k]) &&
        TryExtractOf(rd, doc, common[k]) == Some(Hit(r.price.value, r.extractedText.value)) &&
        forall j :: 0 <= j < k ==> TryExtractOf(rd, doc, common[j]).None?
  {
    SelectorsHitFirst(rd, doc, selectors);
    SelectorsHitFirst(rd, doc, common);
  }

  /** When no selector finds a price, the text scan of the body decides:
      its price, reported as the document scan, or the failure report with
      at most 200 characters of the body text. */
  lemma FallbackScan(rd: Reader, doc: Document, selectors: seq<string>, common: seq<string>, scan: TextPrice)
    requires forall k :: 0 <= k < |selectors| ==> TryExtractOf(rd, doc, selectors[k]).None?
    requires forall k :: 0 <= k < |common| ==> TryExtractOf(rd, doc, common[k]).None?
    ensures var r := Cascade(rd, doc, selectors, common, scan);
      (scan.price.Some? ==>
        r.success && r.price == scan.price && r.extractedText == scan.extractedText &&
        r.usedSelector == Some(FallbackLabel) && r.error.None?) &&
      (scan.price.None? ==>
        !r.success && r.price.None? && r.error == Some(NotFoundError) && r.usedSelector.None? &&
        r.extractedText.Some? && 3 <= |r.extractedText.value| <= 203 &&
        r.extractedText.value == BodyText(doc)[..|r.extractedText.value| - 3] + "...")
  {
    SelectorsHitFirst(rd, doc, selectors);
    SelectorsHitFirst(rd, doc, common);
  }

  /** The result succeeds exactly when it carries a price, which comes with
      the text it was read from and the stage that found it, and no error;
      a failure carries the error and no stage. */
  lemma CascadeSuccessIffPrice(rd: Reader, doc: Document, selectors: seq<string>, common: seq<string>, scan: TextPrice)
    requires scan.price.Some? ==> scan.extractedText.Some?
    ensures var r := Cascade(rd, doc, selectors, common, scan);
      (r.success <==> r.price.Some?) &&
      (r.success ==> r.extractedText.Some? && r.usedSelector.Some? && r.error.None?) &&
      (!r.success ==> r.error == Some(NotFoundError) && r.usedSelector.None?)
  {
  }

  /** On a page, a price found is one that `parsePrice` reads from some
      text and lies between 0.01 and 100000, whichever stage found it. */
  lemma ExtractPriceFromHtmlRange(doc: Document, selectors: seq<string>)
    ensures var r := ExtractPriceFromHtmlOf(doc, selectors);
      (r.success <==> r.price.Some?) &&
      (r.success ==>
        r.extractedText.Some? && r.usedSelector.Some? &&
        (exists s :: ParsePriceOf(s) == r.price) && 0.01 <= r.price.value <= 100000.0)
  {
    var rd := SourceReader();
    var scan := ExtractPriceFromTextOf(BodyText(doc));
    var user := SelectorsHit(rd, doc, selectors);
    var common := SelectorsHit(rd, doc, CommonSelectors);
    if scan.price.Some? {
      ExtractPriceFromTextSound(BodyText(doc));
    }
    CascadeSuccessIffPrice(rd, doc, selectors, CommonSelectors, scan);
    if user.Some? {
      SelectorHitRead(rd, doc, selectors);
    } else if common.Some? {
      SelectorHitRead(rd, doc, CommonSelectors);
    }
  }

  /** What a list of selectors yields is read by the reader from some text. */
  lemma SelectorHitRead(rd: Reader, doc: Document, sels: seq<string>)
    ensures var r := SelectorsHit(rd, doc, sels);
      r.Some? ==> exists s :: rd.parse(s) == Some(r.value.hit.price)
  {
    var r := SelectorsHit(rd, doc, sels);
    SelectorsHitFirst(rd, doc, sels);
    if r.Some? {
      var k :| 0 <= k < |sels| && TryExtractOf(rd, doc, sels[k]) == Some(r.value.hit);
      TryExtractRead(rd, doc, sels[k]);
    }
  }

  // ---------------------------------------------------------------------
  // The extractors as the source runs them

  /** `extractFromAttributes`, with its loop over the price attributes. */
  method ExtractFromAttributes(rd: Reader, e: Element) returns (r: Option<Hit>)
    ensures r == AttributesHit(rd, e)
  {
    var f := a => AttributeHit(rd, e, a);
    var k := 0;
    while k < |rd.attributes|
      invariant 0 <= k <= |rd.attributes|
      invariant FirstSome(rd.attributes[k..], f) == AttributesHit(rd, e)
    {
      var attr := rd.attributes[k];
      FirstSomeStep(rd.attributes, f, k);
      var value := Attribute(e, attr);
      if value.Some? && value.value != [] {
        var price := rd.parse(value.value);
        if price.Some? {
          return Some(Hit(price.value, AttributeText(attr, value.value)));
        }
      }
      k := k + 1;
    }
    return None;
  }

  /** `extractFromTextContent`, and the reading of a child's or a sibling's
      text. With the source's reader an empty text holds no price, and a
      price found is a reasonable one, reported with the text trimmed. */
  method ExtractFromText(rd: Reader, text: string) returns (r: Option<Hit>)
    ensures r == TextHit(rd, text)
    ensures rd == SourceReader() && text == [] ==> r.None?
    ensures rd == SourceReader() && r.Some? ==> 0.01 <= r.value.price <= 100000.0 && r.value.extractedText == Trim(text)
  {
    var price := rd.parse(text);
    if price.Some? {
      return Some(Hit(price.value, Trim(text)));
    }
    return None;
  }

  /** `extractFromChildElements`, with its loop over the price-like children. */
  method ExtractFromChildElements(rd: Reader, es: seq<Element>, i: nat) returns (r: Option<Hit>)
    ensures r == ChildrenHit(rd, es, i)
  {
    var priceElements := PriceChildren(es, i);
    PriceChildrenFacts(es, i);
    var f := (j: nat) => ChildHit(rd, es, j);
    var k := 0;
    while k < |priceElements|
      invariant 0 <= k <= |priceElements|
      invariant FirstSome(priceElements[k..], f) == ChildrenHit(rd, es, i)
    {
      assert priceElements[k] in priceElements;
      FirstSomeStep(priceElements, f, k);
      var priceEl := es[priceElements[k]];
      var fromText := ExtractFromText(rd, priceEl.text);
      if fromText.Some? {
        return fromText;
      }
      var attrResult := ExtractFromAttributes(rd, priceEl);
      if attrResult.Some? {
        return attrResult;
      }
      k := k + 1;
    }
    return None;
  }

  /** `extractFromSiblings`: the nearest earlier sibling's text is read
      first; the nearest later sibling's only when there is no earlier one or
      its text holds no price. */
  method ExtractFromSiblings(rd: Reader, es: seq<Element>, i: nat) returns (r: Option<Hit>)
    requires i < |es|
    ensures r == SiblingsHit(rd, es, i)
    ensures r.Some? ==>
      (exists k: nat :: NearestBefore(es, i, k) && r == TextHit(rd, es[k].text)) ||
      ((forall k: nat :: NearestBefore(es, i, k) ==> TextHit(rd, es[k].text).None?) &&
        exists k: nat :: NearestAfter(es, i, k) && r == TextHit(rd, es[k].text))
  {
    SiblingsHitFrom(rd, es, i);
    var previous := PreviousSibling(es, i);
    if previous.Some? {
      r := ExtractFromText(rd, es[previous.value].text);
      if r.Some? {
        return r;
      }
    }
    var next := NextSibling(es, i);
    if next.Some? {
      r := ExtractFromText(rd, es[next.value].text);
      return r;
    }
    return None;
  }

  /** The four extractors of `tryExtractWithSelector` for one element. */
  method ExtractFromElement(rd: Reader, es: seq<Element>, i: nat) returns (r: Option<Hit>)
    requires i < |es|
    ensures r == ElementHit(rd, es, i)
  {
    r := ExtractFromAttributes(rd, es[i]);
    if r.Some? {
      return r;
    }
    r := ExtractFromText(rd, es[i].text);
    if r.Some? {
      return r;
    }
    r := ExtractFromChildElements(rd, es, i);
    if r.Some? {
      return r;
    }
    r := ExtractFromSiblings(rd, es, i);
  }

  /** `tryExtractWithSelector`, with its loop over the elements found. */
  method TryExtractWithSelector(rd: Reader, doc: Document, selector: string) returns (r: Option<Hit>)
    requires ValidDocument(doc)
    ensures r == TryExtractOf(rd, doc, selector)
  {
    var elements := FindElementsBySelector(doc, selector);
    FindElementsInRange(doc, selector);
    var f := (x: nat) => HitAt(rd, doc.elements, x);
    assert FirstSome(elements, f) == TryExtractOf(rd, doc, selector);
    var k := 0;
    while k < |elements|
      invariant 0 <= k <= |elements|
      invariant FirstSome(elements[k..], f) == FirstSome(elements, f)
    {
      FirstSomeStep(elements, f, k);
      assert elements[k] in elements;
      var found := ExtractFromElement(rd, doc.elements, elements[k]);
      assert f(elements[k]) == found;
      if found.Some? {
        return found;
      }
      k := k + 1;
    }
    return None;
  }

  /** The loop of `extractPriceFromHtml` over one list of selectors. */
  method TrySelectors(rd: Reader, doc: Document, sels: seq<string>) returns (r: Option<SelectorHit>)
    requires ValidDocument(doc)
    ensures r == SelectorsHit(rd, doc, sels)
  {
    var f := s => SelectorFound(rd, doc, s);
    var k := 0;
    while k < |sels|
      invariant 0 <= k <= |sels|
      invariant FirstSome(sels[k..], f) == SelectorsHit(rd, doc, sels)
    {
      FirstSomeStep(sels, f, k);
      var result := TryExtractWithSelector(rd, doc, sels[k]);
      if result.Some? {
        return Some(SelectorHit(result.value, sels[k]));
      }
      k := k + 1;
    }
    return None;
  }

  /** The body of `extractPriceFromHtml` on a parsed page: the user's
      selectors, the common selectors, the scan of the body text, or the
      failure report. */
  method RunCascade(rd: Reader, doc: Document, selectors: seq<string>, common: seq<string>) returns (r: HtmlResult)
    requires ValidDocument(doc)
    ensures r == Cascade(rd, doc, selectors, common, ExtractPriceFromTextOf(BodyText(doc)))
  {
    var user := TrySelectors(rd, doc, selectors);
    if user.Some? {
      return Succeeded(user.value.hit, user.value.selector);
    }
    var fromCommon := TrySelectors(rd, doc, common);
    if fromCommon.Some? {
      return Succeeded(fromCommon.value.hit, CommonPrefix + fromCommon.value.selector);
    }
    var bodyText := BodyText(doc);
    var fallbackResult := ExtractPriceFromText(bodyText);
    if fallbackResult.price.Some? {
      return HtmlResult(true, fallbackResult.price, None, fallbackResult.extractedText, Some(FallbackLabel));
    }
    return NotFound(bodyText);
  }

  /** `extractPriceFromHtml` on a parsed page, once scripts and styles have
      been removed from it. */
  method ExtractPriceFromHtml(doc: Document, selectors: seq<string>) returns (r: HtmlResult)
    requires ValidDocument(doc)
    ensures r == ExtractPriceFromHtmlOf(doc, selectors)
  {
    r := RunCascade(SourceReader(), doc, selectors, CommonSelectors);
  }
}
