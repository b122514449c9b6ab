/** The read side of the item store: `getLowestPrice`, the filters and the
    sort of `getItems`, and the ordering of `getCategories`. They build new
    lists and change nothing. */
module Queries {
  import opened Text
  import opened Models
  import opened Sorting
  import opened Arith
  import opened Lists

  // ---------------------------------------------------------------------
  // The lowest price

  /** The current prices of the websites that have one, in website order. */
  function CurrentPrices(ws: seq<Website>): seq<real> {
    if ws == [] then []
    else
      var w := ws[|ws| - 1];
      CurrentPrices(ws[..|ws| - 1]) + (if w.currentPrice.Some? then [w.currentPrice.value] else [])
  }

  lemma {:induction false} CurrentPricesMembers(ws: seq<Website>)
    ensures forall p :: p in CurrentPrices(ws) <==> exists j :: 0 <= j < |ws| && ws[j].currentPrice == Some(p)
  {
    if ws != [] {
      var init := ws[..|ws| - 1];
      CurrentPricesMembers(init);
      assert forall j :: 0 <= j < |init| ==> init[j] == ws[j];
    }
  }

  lemma {:induction false} CurrentPriceListed(ws: seq<Website>, j: nat)
    requires j < |ws| && ws[j].currentPrice.Some?
    ensures ws[j].currentPrice.value in CurrentPrices(ws)
  {
    if j < |ws| - 1 {
      CurrentPriceListed(ws[..|ws| - 1], j);
    }
  }

  /** `getLowestPrice`: the least current price over all of the item's
      websites, active or not; `None` for `null`. */
  function LowestPrice(ws: seq<Website>): Option<real> {
    var prices := CurrentPrices(ws);
    if |prices| > 0 then Some(MinOf(prices)) else None
  }

  /** There is no lowest price exactly when no website has a current price;
      otherwise it is one of them and no other is lower. */
  lemma LowestPriceIsMin(ws: seq<Website>)
    ensures var r := LowestPrice(ws);
      (r.None? <==> forall j :: 0 <= j < |ws| ==> ws[j].currentPrice.None?) &&
      (r.Some? ==>
        (exists j :: 0 <= j < |ws| && ws[j].currentPrice == r) &&
        forall j :: 0 <= j < |ws| && ws[j].currentPrice.Some? ==> r.value <= ws[j].currentPrice.value)
  {
    var prices := CurrentPrices(ws);
    CurrentPricesMembers(ws);
    forall j | 0 <= j < |ws| && ws[j].currentPrice.Some?
      ensures ws[j].currentPrice.value in prices
    {
      CurrentPriceListed(ws, j);
    }
    if |prices| > 0 {
      MinOfIsLeast(prices);
    }
  }

  // ---------------------------------------------------------------------
  // The filters

  /** `list?.length`: the list is given and not empty. */
  predicate Given(xs: Option<seq<string>>) {
    xs.Some? && |xs.value| > 0
  }

  /** `!bound` is false: a bound that is absent or 0 is not applied. */
  predicate BoundSet(b: Option<real>) {
    b.Some? && b.value != 0.0
  }

  /** The price-range test: an item without any price always passes. */
  predicate InPriceRange(item: ShoppingItem, range: PriceRange) {
    var lowest := LowestPrice(item.websites);
    lowest.None? ||
    ((!BoundSet(range.min) || lowest.value >= range.min.value) &&
     (!BoundSet(range.max) || lowest.value <= range.max.value))
  }

  /** `tags.some((tag) => item.tags.includes(tag))` */
  predicate SharesTag(tags: seq<string>, item: ShoppingItem) {
    exists t :: t in tags && t in item.tags
  }

  /** The search test for a term already in lower case. */
  predicate Mentions(item: ShoppingItem, term: string) {
    Includes(ToLower(item.name), term) ||
    (item.description.Some? && Includes(ToLower(item.description.value), term)) ||
    (item.notes.Some? && Includes(ToLower(item.notes.value), term))
  }

  /** The six tests, each true when its option is not set. */
  predicate ByCategoryIds(f: ItemFilterOptions, item: ShoppingItem) {
    Given(f.categoryIds) ==> item.categoryId in f.categoryIds.value
  }

  predicate ByStatus(f: ItemFilterOptions, item: ShoppingItem) {
    Given(f.status) ==> StatusName(item.status) in f.status.value
  }

  predicate ByPriority(f: ItemFilterOptions, item: ShoppingItem) {
    Given(f.priority) ==> PriorityName(item.priority) in f.priority.value
  }

  predicate ByPriceRange(f: ItemFilterOptions, item: ShoppingItem) {
    f.priceRange.Some? ==> InPriceRange(item, f.priceRange.value)
  }

  predicate ByTags(f: ItemFilterOptions, item: ShoppingItem) {
    Given(f.tags) ==> SharesTag(f.tags.value, item)
  }

  predicate BySearchTerm(f: ItemFilterOptions, item: ShoppingItem) {
    f.searchTerm.Some? && f.searchTerm.value != [] ==> Mentions(item, ToLower(f.searchTerm.value))
  }

  /** An item passes every filter that is set. */
  predicate Matches(f: ItemFilterOptions, item: ShoppingItem) {
    ByCategoryIds(f, item) && ByStatus(f, item) && ByPriority(f, item) &&
    ByPriceRange(f, item) && ByTags(f, item) && BySearchTerm(f, item)
  }

  function FilterCategoryIds(s: seq<ShoppingItem>, f: ItemFilterOptions): seq<ShoppingItem> {
    if Given(f.categoryIds) then Keep(s, (it: ShoppingItem) => it.categoryId in f.categoryIds.value) else s
  }

  function FilterStatus(s: seq<ShoppingItem>, f: ItemFilterOptions): seq<ShoppingItem> {
    if Given(f.status) then Keep(s, (it: ShoppingItem) => StatusName(it.status) in f.status.value) else s
  }

  function FilterPriority(s: seq<ShoppingItem>, f: ItemFilterOptions): seq<ShoppingItem> {
    if Given(f.priority) then Keep(s, (it: ShoppingItem) => PriorityName(it.priority) in f.priority.value) else s
  }

  function FilterPriceRange(s: seq<ShoppingItem>, f: ItemFilterOptions): seq<ShoppingItem> {
    if f.priceRange.Some? then Keep(s, (it: ShoppingItem) => InPriceRange(it, f.priceRange.value)) else s
  }

  function FilterTags(s: seq<ShoppingItem>, f: ItemFilterOptions): seq<ShoppingItem> {
    if Given(f.tags) then Keep(s, (it: ShoppingItem) => SharesTag(f.tags.value, it)) else s
  }

  /** The term is put in lower case once, as `getItems` does. */
  function FilterSearchTerm(s: seq<ShoppingItem>, f: ItemFilterOptions): seq<ShoppingItem> {
    if f.searchTerm.Some? && f.searchTerm.value != [] then
      var term := ToLower(f.searchTerm.value);
      Keep(s, (it: ShoppingItem) => Mentions(it, term))
    else s
  }

  /** The filters of `getItems`, applied one after the other in its order;
      a filter whose option is not set leaves the list as it is. */
  function ApplyFilters(items: seq<ShoppingItem>, f: ItemFilterOptions): seq<ShoppingItem> {
    FilterSearchTerm(FilterTags(FilterPriceRange(FilterPriority(FilterStatus(FilterCategoryIds(items, f), f), f), f), f), f)
  }

  lemma FilterCategoryIdsKeeps(s: seq<ShoppingItem>, f: ItemFilterOptions)
    ensures FilterCategoryIds(s, f) == Keep(s, (it: ShoppingItem) => ByCategoryIds(f, it))
  {
    if Given(f.categoryIds) {
      KeepSame(s, (it: ShoppingItem) => it.categoryId in f.categoryIds.value, (it: ShoppingItem) => ByCategoryIds(f, it));
    } else {
      KeepAll(s, (it: ShoppingItem) => ByCategoryIds(f, it));
    }
  }

  lemma FilterStatusKeeps(s: seq<ShoppingItem>, f: ItemFilterOptions)
    ensures FilterStatus(s, f) == Keep(s, (it: ShoppingItem) => ByStatus(f, it))
  {
    if Given(f.status) {
      KeepSame(s, (it: ShoppingItem) => StatusName(it.status) in f.status.value, (it: ShoppingItem) => ByStatus(f, it));
    } else {
      KeepAll(s, (it: ShoppingItem) => ByStatus(f, it));
    }
  }

  lemma FilterPriorityKeeps(s: seq<ShoppingItem>, f: ItemFilterOptions)
    ensures FilterPriority(s, f) == Keep(s, (it: ShoppingItem) => ByPriority(f, it))
  {
    if Given(f.priority) {
      KeepSame(s, (it: ShoppingItem) => PriorityName(it.priority) in f.priority.value, (it: ShoppingItem) => ByPriority(f, it));
    } else {
      KeepAll(s, (it: ShoppingItem) => ByPriority(f, it));
    }
  }

  lemma FilterPriceRangeKeeps(s: seq<ShoppingItem>, f: ItemFilterOptions)
    ensures FilterPriceRange(s, f) == Keep(s, (it: ShoppingItem) => ByPriceRange(f, it))
  {
    if f.priceRange.Some? {
      KeepSame(s, (it: ShoppingItem) => InPriceRange(it, f.priceRange.value), (it: ShoppingItem) => ByPriceRange(f, it));
    } else {
      KeepAll(s, (it: ShoppingItem) => ByPriceRange(f, it));
    }
  }

  lemma FilterTagsKeeps(s: seq<ShoppingItem>, f: ItemFilterOptions)
    ensures FilterTags(s, f) == Keep(s, (it: ShoppingItem) => ByTags(f, it))
  {
    if Given(f.tags) {
      KeepSame(s, (it: ShoppingItem) => SharesTag(f.tags.value, it), (it: ShoppingItem) => ByTags(f, it));
    } else {
      KeepAll(s, (it: ShoppingItem) => ByTags(f, it));
    }
  }

  lemma FilterSearchTermKeeps(s: seq<ShoppingItem>, f: ItemFilterOptions)
    ensures FilterSearchTerm(s, f) == Keep(s, (it: ShoppingItem) => BySearchTerm(f, it))
  {
    if f.searchTerm.Some? && f.searchTerm.value != [] {
      var term := ToLower(f.searchTerm.value);
      KeepSame(s, (it: ShoppingItem) => Mentions(it, term), (it: ShoppingItem) => BySearchTerm(f, it));
    } else {
      KeepAll(s, (it: ShoppingItem) => BySearchTerm(f, it));
    }
  }

  /** The chain of filters keeps exactly the items that pass every filter
      that is set, in their stored order. */
  lemma ApplyFiltersExact(items: seq<ShoppingItem>, f: ItemFilterOptions)
    ensures ApplyFilters(items, f) == Keep(items, (it: ShoppingItem) => Matches(f, it))
  {
    var s1 := FilterCategoryIds(items, f);
    FilterCategoryIdsKeeps(items, f);
    var s2 := FilterStatus(s1, f);
    FilterStatusKeeps(s1, f);
    var s3 := FilterPriority(s2, f);
    FilterPriorityKeeps(s2, f);
    var s4 := FilterPriceRange(s3, f);
    FilterPriceRangeKeeps(s3, f);
    var s5 := FilterTags(s4, f);
    FilterTagsKeeps(s4, f);
    FilterSearchTermKeeps(s5, f);
    KeepChain(items, (it: ShoppingItem) => ByCategoryIds(f, it), (it: ShoppingItem) => ByStatus(f, it),
      (it: ShoppingItem) => ByPriority(f, it), (it: ShoppingItem) => ByPriceRange(f, it),
      (it: ShoppingItem) => ByTags(f, it), (it: ShoppingItem) => BySearchTerm(f, it),
      (it: ShoppingItem) => Matches(f, it));
  }

  /** Six filters in a row are one filter by their conjunction. */
  lemma KeepChain<T>(xs: seq<T>, p1: T -> bool, p2: T -> bool, p3: T -> bool, p4: T -> bool, p5: T -> bool,
                     p6: T -> bool, all: T -> bool)
    requires forall x :: all(x) == (p1(x) && p2(x) && p3(x) && p4(x) && p5(x) && p6(x))
    ensures Keep(Keep(Keep(Keep(Keep(Keep(xs, p1), p2), p3), p4), p5), p6) == Keep(xs, all)
  {
    var c2 := (x: T) => p1(x) && p2(x);
    var c3 := (x: T) => c2(x) && p3(x);
    var c4 := (x: T) => c3(x) && p4(x);
    var c5 := (x: T) => c4(x) && p5(x);
    KeepKeep(xs, p1, p2, c2);
    KeepKeep(xs, c2, p3, c3);
    KeepKeep(xs, c3, p4, c4);
    KeepKeep(xs, c4, p5, c5);
    KeepKeep(xs, c5, p6, all);
  }

  // ---------------------------------------------------------------------
  // The sort

  /** `{ high: 3, medium: 2, low: 1 }` */
  function PriorityRank(p: Priority): real {
    match p
    case High => 3.0
    case Medium => 2.0
    case Low => 1.0
  }

  /** `getCategoryById(id)?.name || ""` */
  function CategoryName(cats: seq<Category>, id: string): string {
    var i := FindCategory(cats, id);
    if i.Some? then cats[i.value].name else ""
  }

  /** The ascending key of a field. `collate` ranks strings in the order
      `localeCompare(…, "ar")` puts them; `getLowestPrice(item) || 0`
      sorts an item without a price as 0. */
  function FieldKey(field: SortField, cats: seq<Category>, collate: string -> real, item: ShoppingItem): real {
    match field
    case ByName => collate(item.name)
    case ByPrice =>
      var p := LowestPrice(item.websites);
      if p.Some? then p.value else 0.0
    case ByPriority => PriorityRank(item.priority)
    case ByDateAdded => item.dateAdded as real
    case ByCategory => collate(CategoryName(cats, item.categoryId))
    case ByOrder => item.order as real
  }

  /** `desc` negates every comparison, which is sorting by the negated key. */
  function SortKey(o: ItemSortOptions, cats: seq<Category>, collate: string -> real): ShoppingItem -> real {
    (it: ShoppingItem) => if o.direction == Desc then -FieldKey(o.field, cats, collate, it) else FieldKey(o.field, cats, collate, it)
  }

  /** `getItems`: a copy of the items, filtered when a filter is given and
      then sorted (stably) when a sort is given. */
  function GetItemsOf(items: seq<ShoppingItem>, cats: seq<Category>, filter: Option<ItemFilterOptions>,
                      sort: Option<ItemSortOptions>, collate: string -> real): seq<ShoppingItem> {
    var filtered := if filter.Some? then ApplyFilters(items, filter.value) else items;
    if sort.Some? then SortBy(filtered, SortKey(sort.value, cats, collate)) else filtered
  }

  /** Without filter or sort every item comes back, in stored order. */
  lemma GetItemsAll(items: seq<ShoppingItem>, cats: seq<Category>, collate: string -> real)
    ensures GetItemsOf(items, cats, None, None, collate) == items
  {
  }

  /** With a filter and no sort, exactly the items that pass every filter
      that is set come back, in stored order. */
  lemma GetItemsFiltered(items: seq<ShoppingItem>, cats: seq<Category>, f: ItemFilterOptions, collate: string -> real)
    ensures var r := GetItemsOf(items, cats, Some(f), None, collate);
      r == Keep(items, (it: ShoppingItem) => Matches(f, it)) &&
      forall it :: it in r <==> it in items && Matches(f, it)
  {
    ApplyFiltersExact(items, f);
    KeepMembers(items, (it: ShoppingItem) => Matches(f, it));
  }

  /** With a sort, the result holds the filtered items, each as often as
      before, ordered by the field ascending or, for `desc`, descending;
      items that compare equal keep their filtered order. */
  lemma GetItemsSorted(items: seq<ShoppingItem>, cats: seq<Category>, filter: Option<ItemFilterOptions>,
                       o: ItemSortOptions, collate: string -> real)
    ensures var filtered := GetItemsOf(items, cats, filter, None, collate);
      var r := GetItemsOf(items, cats, filter, Some(o), collate);
      var key := SortKey(o, cats, collate);
      multiset(r) == multiset(filtered) &&
      (forall i, j :: 0 <= i < j < |r| && o.direction == Asc ==>
        FieldKey(o.field, cats, collate, r[i]) <= FieldKey(o.field, cats, collate, r[j])) &&
      (forall i, j :: 0 <= i < j < |r| && o.direction == Desc ==>
        FieldKey(o.field, cats, collate, r[i]) >= FieldKey(o.field, cats, collate, r[j])) &&
      forall k :: WithKey(r, key, k) == WithKey(filtered, key, k)
  {
    var filtered := GetItemsOf(items, cats, filter, None, collate);
    var key := SortKey(o, cats, collate);
    SortBySorted(filtered, key);
    forall k ensures WithKey(SortBy(filtered, key), key, k) == WithKey(filtered, key, k) {
      SortByStable(filtered, key, k);
    }
  }

  // ---------------------------------------------------------------------
  // Categories

  function CategoryOrder(c: Category): real { c.order as real }

  /** `getCategories`: a copy of the categories, stably sorted by `order`. */
  function GetCategoriesOf(cats: seq<Category>): seq<Category> {
    SortBy(cats, CategoryOrder)
  }

  /** The categories come back in ascending `order`, each as often as it is
      stored, with equal orders kept in stored order. */
  lemma GetCategoriesOrdered(cats: seq<Category>)
    ensures var r := GetCategoriesOf(cats);
      multiset(r) == multiset(cats) &&
      (forall i, j :: 0 <= i < j < |r| ==> r[i].order <= r[j].order) &&
      forall k :: WithKey(r, CategoryOrder, k) == WithKey(cats, CategoryOrder, k)
  {
    SortBySorted(cats, CategoryOrder);
    var r := GetCategoriesOf(cats);
    assert forall i, j :: 0 <= i < j < |r| ==> CategoryOrder(r[i]) <= CategoryOrder(r[j]);
    forall k ensures WithKey(r, CategoryOrder, k) == WithKey(cats, CategoryOrder, k) {
      SortByStable(cats, CategoryOrder, k);
    }
  }
}
