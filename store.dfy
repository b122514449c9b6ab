/** `DataService`: the in-memory store of the shopping list. It holds the
    items, the categories, the settings and a version string in one
    record, and its operations replace that record. Saving to and reading
    from the vault are left out: `loadData` and `importData` receive what
    the file or the import text parsed to (`None` when parsing failed),
    and `Date.now()` and the random part of new ids are parameters. */
module Store {
  import opened Text
  import opened Models
  import opened Sorting
  import opened Lists
  import opened Queries

  datatype Theme = Light | Dark | Auto

  datatype Settings = Settings(
    defaultCurrency: string,
    priceUpdateInterval: int,
    enableNotifications: bool,
    theme: Theme)

  /** `Partial<settings>`: `None` is a field that is absent. */
  datatype SettingsUpdate = SettingsUpdate(
    defaultCurrency: Option<string>,
    priceUpdateInterval: Option<int>,
    enableNotifications: Option<bool>,
    theme: Option<Theme>)

  datatype BuyingListData = BuyingListData(
    items: seq<ShoppingItem>,
    categories: seq<Category>,
    settings: Settings,
    version: string)

  /** A parsed data file or import text: any top-level field may be missing. */
  datatype StoredData = StoredData(
    items: Option<seq<ShoppingItem>>,
    categories: Option<seq<Category>>,
    settings: Option<SettingsUpdate>,
    version: Option<string>)

  /** `Partial<ShoppingItem>`: `None` is a field that is absent; for an
      optional field, `Some(None)` sets it to `undefined`. */
  datatype ItemUpdate = ItemUpdate(
    id: Option<string>,
    name: Option<string>,
    description: Option<Option<string>>,
    categoryId: Option<string>,
    websites: Option<seq<Website>>,
    priceHistory: Option<seq<PriceHistory>>,
    alerts: Option<seq<PriceAlert>>,
    priority: Option<Priority>,
    status: Option<Status>,
    tags: Option<seq<string>>,
    notes: Option<Option<string>>,
    dateAdded: Option<int>,
    dateModified: Option<int>,
    order: Option<int>,
    image: Option<Option<string>>,
    targetBudget: Option<Option<real>>,
    quantity: Option<Option<real>>)

  /** `Partial<Category>`, read as `ItemUpdate` is. */
  datatype CategoryUpdate = CategoryUpdate(
    id: Option<string>,
    name: Option<string>,
    description: Option<Option<string>>,
    color: Option<string>,
    icon: Option<Option<string>>,
    parentId: Option<Option<string>>,
    order: Option<int>,
    isDefault: Option<bool>,
    dateCreated: Option<int>,
    dateModified: Option<int>)

  const DefaultSettings := Settings("ر.س", 3600000, true, Auto)

  const DefaultVersion := "1.0.0"

  const InvalidData := "بيانات غير صحيحة"

  const NoSettingsChange := SettingsUpdate(None, None, None, None)

  const NoItemChange := ItemUpdate(None, None, None, None, None, None, None, None, None,
    None, None, None, None, None, None, None, None)

  /** The value of a field after a spread: the update's when present. */
  function Or<T>(u: Option<T>, v: T): T {
    if u.Some? then u.value else v
  }

  // ---------------------------------------------------------------------
  // Merges

  /** `{ ...base, ...u }` on settings. */
  function MergeSettings(base: Settings, u: SettingsUpdate): Settings {
    Settings(
      Or(u.defaultCurrency, base.defaultCurrency),
      Or(u.priceUpdateInterval, base.priceUpdateInterval),
      Or(u.enableNotifications, base.enableNotifications),
      Or(u.theme, base.theme))
  }

  /** The settings update that gives every field of `s`. */
  function Complete(s: Settings): SettingsUpdate {
    SettingsUpdate(Some(s.defaultCurrency), Some(s.priceUpdateInterval), Some(s.enableNotifications), Some(s.theme))
  }

  /** The settings update that applies `u` and then `v`. */
  function Then(u: SettingsUpdate, v: SettingsUpdate): SettingsUpdate {
    SettingsUpdate(
      if v.defaultCurrency.Some? then v.defaultCurrency else u.defaultCurrency,
      if v.priceUpdateInterval.Some? then v.priceUpdateInterval else u.priceUpdateInterval,
      if v.enableNotifications.Some? then v.enableNotifications else u.enableNotifications,
      if v.theme.Some? then v.theme else u.theme)
  }

  /** An update without fields changes nothing, a complete update replaces
      everything, applying the same update twice is applying it once, and
      two updates in a row are one update. */
  lemma MergeSettingsLaws(base: Settings, u: SettingsUpdate, v: SettingsUpdate, s: Settings)
    ensures MergeSettings(base, NoSettingsChange) == base
    ensures MergeSettings(base, Complete(s)) == s
    ensures MergeSettings(MergeSettings(base, u), u) == MergeSettings(base, u)
    ensures MergeSettings(MergeSettings(base, u), v) == MergeSettings(base, Then(u, v))
  {
  }

  /** `{ ...defaults, ...loaded, settings: { ...defaults.settings, ...loaded.settings } }` */
  function MergeData(defaults: BuyingListData, loaded: StoredData): BuyingListData {
    BuyingListData(
      Or(loaded.items, defaults.items),
      Or(loaded.categories, defaults.categories),
      MergeSettings(defaults.settings, Or(loaded.settings, NoSettingsChange)),
      Or(loaded.version, defaults.version))
  }

  /** `{ ...item, ...updates, dateModified: now }` */
  function MergeItem(item: ShoppingItem, u: ItemUpdate, now: int): ShoppingItem {
    ShoppingItem(
      Or(u.id, item.id), Or(u.name, item.name), Or(u.description, item.description),
      Or(u.categoryId, item.categoryId), Or(u.websites, item.websites), Or(u.priceHistory, item.priceHistory),
      Or(u.alerts, item.alerts), Or(u.priority, item.priority), Or(u.status, item.status),
      Or(u.tags, item.tags), Or(u.notes, item.notes), Or(u.dateAdded, item.dateAdded),
      now, Or(u.order, item.order), Or(u.image, item.image),
      Or(u.targetBudget, item.targetBudget), Or(u.quantity, item.quantity))
  }

  /** An update without fields only stamps the item, and applying the same
      update again changes nothing but the stamp. */
  lemma MergeItemLaws(item: ShoppingItem, u: ItemUpdate, now: int, later: int)
    ensures MergeItem(item, NoItemChange, now) == item.(dateModified := now)
    ensures MergeItem(MergeItem(item, u, now), u, later) == MergeItem(item, u, later)
  {
  }

  /** `{ ...category, ...updates, dateModified: now }` */
  function MergeCategory(c: Category, u: CategoryUpdate, now: int): Category {
    Category(
      Or(u.id, c.id), Or(u.name, c.name), Or(u.description, c.description), Or(u.color, c.color),
      Or(u.icon, c.icon), Or(u.parentId, c.parentId), Or(u.order, c.order), Or(u.isDefault, c.isDefault),
      Or(u.dateCreated, c.dateCreated), now)
  }

  lemma MergeCategoryLaws(c: Category, u: CategoryUpdate, now: int, later: int)
    ensures MergeCategory(c, CategoryUpdate(None, None, None, None, None, None, None, None, None, None), now) ==
      c.(dateModified := now)
    ensures MergeCategory(MergeCategory(c, u, now), u, later) == MergeCategory(c, u, later)
  {
  }

  // ---------------------------------------------------------------------
  // Defaults and ids

  /** `` `cat_${now}_${index}` `` */
  function CategoryId(now: nat, index: nat): string {
    "cat_" + NatToString(now) + "_" + NatToString(index)
  }

  /** `` `item_${now}_${suffix}` `` with the random part as a parameter. */
  function ItemId(now: nat, suffix: string): string {
    "item_" + NatToString(now) + "_" + suffix
  }

  /** `` `cat_${now}_${suffix}` `` for a category added later. */
  function NewCategoryId(now: nat, suffix: string): string {
    "cat_" + NatToString(now) + "_" + suffix
  }

  function FromTemplate(t: CategoryTemplate, now: nat, index: nat): Category {
    Category(CategoryId(now, index), t.name, None, t.color, Some(t.icon), None, t.order, t.isDefault, now, now)
  }

  /** `createDefaultCategories`: the built-in categories, stamped `now`. */
  function DefaultCategoriesAt(now: nat): seq<Category> {
    seq(|DefaultCategories|, (i: nat) requires i < |DefaultCategories| => FromTemplate(DefaultCategories[i], now, i))
  }

  /** Two default categories created at the same instant never share an id. */
  lemma CategoryIdsDistinct(now: nat, i: nat, j: nat)
    requires i != j
    ensures CategoryId(now, i) != CategoryId(now, j)
  {
    var p := "cat_" + NatToString(now) + "_";
    assert CategoryId(now, i) == p + NatToString(i);
    assert CategoryId(now, j) == p + NatToString(j);
    if CategoryId(now, i) == CategoryId(now, j) {
      assert (p + NatToString(i))[|p|..] == NatToString(i);
      assert (p + NatToString(j))[|p|..] == NatToString(j);
      NatToStringValue(i);
      NatToStringValue(j);
    }
  }

  /** The default categories: all eight, marked default, in their declared
      order, with pairwise distinct ids. */
  lemma DefaultCategoriesFacts(now: nat)
    ensures var cs := DefaultCategoriesAt(now);
      |cs| == 8 &&
      (forall i :: 0 <= i < |cs| ==>
        cs[i].isDefault && cs[i].name == DefaultCategories[i].name &&
        cs[i].order == DefaultCategories[i].order && cs[i].dateCreated == now) &&
      forall i, j :: 0 <= i < j < |cs| ==> cs[i].id != cs[j].id
  {
    var cs := DefaultCategoriesAt(now);
    forall i, j | 0 <= i < j < |cs| ensures cs[i].id != cs[j].id {
      CategoryIdsDistinct(now, i, j);
    }
  }

  /** `getDefaultData` */
  function DefaultData(now: nat): BuyingListData {
    BuyingListData([], DefaultCategoriesAt(now), DefaultSettings, DefaultVersion)
  }

  /** What `loadData` makes of a parsed file: the merge, and the default
      categories when the result has none. */
  function LoadedData(loaded: StoredData, now: nat): BuyingListData {
    var merged := MergeData(DefaultData(now), loaded);
    if |merged.categories| == 0 then merged.(categories := DefaultCategoriesAt(now)) else merged
  }

  /** A loaded file's fields override the defaults and missing ones take the
      default values; the loaded store always has categories. */
  lemma LoadedDataFacts(loaded: StoredData, now: nat)
    ensures var d := LoadedData(loaded, now);
      d.items == Or(loaded.items, []) &&
      d.version == Or(loaded.version, DefaultVersion) &&
      d.settings == MergeSettings(DefaultSettings, Or(loaded.settings, NoSettingsChange)) &&
      |d.categories| > 0 &&
      (loaded.categories.Some? && |loaded.categories.value| > 0 ==> d.categories == loaded.categories.value) &&
      (loaded.categories.None? || loaded.categories == Some([]) ==> d.categories == DefaultCategoriesAt(now))
  {
  }

  /** Whether some item is filed under the category. */
  predicate HasItems(items: seq<ShoppingItem>, categoryId: string) {
    exists j :: 0 <= j < |items| && items[j].categoryId == categoryId
  }

  // ---------------------------------------------------------------------
  // Reordering

  /** One step of the `forEach` of `reorderItems`: the first item with the
      id, if any, gets the order `k` and the stamp `now`. */
  function SetOrder(items: seq<ShoppingItem>, id: string, k: int, now: int): seq<ShoppingItem> {
    var i := FindItem(items, id);
    if i.Some? then items[i.value := items[i.value].(order := k, dateModified := now)] else items
  }

  /** The `forEach` of `reorderItems` over the listed ids. */
  function Reassign(items: seq<ShoppingItem>, ids: seq<string>, now: int): seq<ShoppingItem> {
    if ids == [] then items
    else SetOrder(Reassign(items, ids[..|ids| - 1], now), ids[|ids| - 1], |ids| - 1, now)
  }

  /** The position of the last occurrence of `id` in `ids`. */
  function LastPosition(ids: seq<string>, id: string): (k: nat)
    requires id in ids
    ensures k < |ids| && ids[k] == id && forall j :: k < j < |ids| ==> ids[j] != id
  {
    if ids[|ids| - 1] == id then |ids| - 1
    else
      assert id in ids[..|ids| - 1];
      LastPosition(ids[..|ids| - 1], id)
  }

  /** The item at `i` is the one `find` returns for its id. */
  predicate FirstWithId(items: seq<ShoppingItem>, i: nat)
    requires i < |items|
  {
    FindItem(items, items[i].id) == Some(i)
  }

  lemma {:induction false} FindItemSameIds(a: seq<ShoppingItem>, b: seq<ShoppingItem>, id: string)
    requires |a| == |b| && forall i :: 0 <= i < |a| ==> a[i].id == b[i].id
    ensures FindItem(a, id) == FindItem(b, id)
  {
    if a != [] && a[0].id != id {
      FindItemSameIds(a[1..], b[1..], id);
    }
  }

  /** One step changes the item `find` reaches through `id`, and only it. */
  lemma SetOrderAt(prev: seq<ShoppingItem>, items: seq<ShoppingItem>, id: string, k: int, now: int, i: nat)
    requires |prev| == |items| && forall j :: 0 <= j < |items| ==> prev[j].id == items[j].id
    requires i < |items|
    ensures |SetOrder(prev, id, k, now)| == |items|
    ensures SetOrder(prev, id, k, now)[i] ==
      if FirstWithId(items, i) && items[i].id == id then prev[i].(order := k, dateModified := now) else prev[i]
  {
    FindItemSameIds(prev, items, id);
  }

  /** After the `forEach`, an item that `find` reaches through a listed id
      has the position of the last occurrence of its id as its order and
      the stamp `now`; every other item is as it was. */
  lemma {:induction false} ReassignSpec(items: seq<ShoppingItem>, ids: seq<string>, now: int)
    ensures var r := Reassign(items, ids, now);
      |r| == |items| &&
      (forall i :: 0 <= i < |items| ==> r[i].id == items[i].id) &&
      forall i :: 0 <= i < |items| ==>
        r[i] == if FirstWithId(items, i) && items[i].id in ids
                then items[i].(order := LastPosition(ids, items[i].id), dateModified := now)
                else items[i]
  {
    if ids != [] {
      var init := ids[..|ids| - 1];
      var id := ids[|ids| - 1];
      var prev := Reassign(items, init, now);
      ReassignSpec(items, init, now);
      var r := Reassign(items, ids, now);
      assert r == SetOrder(prev, id, |ids| - 1, now);
      assert forall x :: x in ids <==> x in init || x == id by {
        assert ids == init + [id];
      }
      forall i | 0 <= i < |items|
        ensures r[i] == if FirstWithId(items, i) && items[i].id in ids
                        then items[i].(order := LastPosition(ids, items[i].id), dateModified := now)
                        else items[i]
      {
        SetOrderAt(prev, items, id, |ids| - 1, now, i);
        if FirstWithId(items, i) && items[i].id != id && items[i].id in init {
          assert LastPosition(ids, items[i].id) == LastPosition(init, items[i].id);
        }
      }
      forall i | 0 <= i < |items| ensures r[i].id == items[i].id {
        SetOrderAt(prev, items, id, |ids| - 1, now, i);
      }
    }
  }

  function ItemOrder(it: ShoppingItem): real { it.order as real }

  /** `reorderItems`: the `forEach`, then the stable sort by order. */
  function Reordered(items: seq<ShoppingItem>, ids: seq<string>, now: int): seq<ShoppingItem> {
    SortBy(Reassign(items, ids, now), ItemOrder)
  }

  /** The reordered list holds the same items, each as often as before, with
      the new orders, and is sorted by order. */
  lemma ReorderedFacts(items: seq<ShoppingItem>, ids: seq<string>, now: int)
    ensures var r := Reordered(items, ids, now);
      multiset(r) == multiset(Reassign(items, ids, now)) &&
      forall i, j :: 0 <= i < j < |r| ==> r[i].order <= r[j].order
  {
    SortBySorted(Reassign(items, ids, now), ItemOrder);
    var r := Reordered(items, ids, now);
    assert forall i, j :: 0 <= i < j < |r| ==> ItemOrder(r[i]) <= ItemOrder(r[j]);
  }

  // ---------------------------------------------------------------------
  // The store

  class DataService {
    var data: BuyingListData

    /** `new DataService(...)` starts from the default data. */
    constructor(now: nat)
      ensures data == DefaultData(now)
    {
      data := DefaultData(now);
    }

    /** `loadData`: `None` stands for a file that could not be read or parsed. */
    method LoadData(loaded: Option<StoredData>, now: nat)
      modifies this
      ensures data == if loaded.Some? then LoadedData(loaded.value, now) else DefaultData(now)
    {
      if loaded.None? {
        data := DefaultData(now);
        return;
      }
      data := MergeData(DefaultData(now), loaded.value);
      if |data.categories| == 0 {
        data := data.(categories := DefaultCategoriesAt(now));
      }
    }

    /** `importData`: text that does not parse leaves the store as it is and
        reports the error the source throws. */
    method ImportData(imported: Option<StoredData>, now: nat) returns (error: Option<string>)
      modifies this
      ensures imported.None? ==> error == Some(InvalidData) && data == old(data)
      ensures imported.Some? ==> error.None? && data == MergeData(DefaultData(now), imported.value)
    {
      if imported.None? {
        return Some(InvalidData);
      }
      data := MergeData(DefaultData(now), imported.value);
      return None;
    }

    /** `addItem`: the new item is appended with fresh id and stamps, and
        its order is the number of items before it. */
    method AddItem(item: ShoppingItem, now: nat, suffix: string) returns (newItem: ShoppingItem)
      modifies this
      ensures newItem == item.(id := ItemId(now, suffix), dateAdded := now, dateModified := now, order := |old(data.items)|)
      ensures data == old(data).(items := old(data.items) + [newItem])
    {
      newItem := item.(id := ItemId(now, suffix), dateAdded := now, dateModified := now, order := |data.items|);
      data := data.(items := data.items + [newItem]);
    }

    /** `updateItem`: only the first item with the id changes; an absent id
        changes nothing. */
    method UpdateItem(itemId: string, updates: ItemUpdate, now: int)
      modifies this
      ensures var i := FindItem(old(data.items), itemId);
        data == if i.None? then old(data)
                else old(data).(items := old(data.items)[i.value := MergeItem(old(data.items)[i.value], updates, now)])
    {
      var itemIndex := FindItem(data.items, itemId);
      if itemIndex.Some? {
        var i := itemIndex.value;
        data := data.(items := data.items[i := MergeItem(data.items[i], updates, now)]);
      }
    }

    /** `deleteItem`: every item with the id goes, the rest stay in order. */
    method DeleteItem(itemId: string)
      modifies this
      ensures data == old(data).(items := Keep(old(data.items), (it: ShoppingItem) => it.id != itemId))
    {
      data := data.(items := Keep(data.items, (it: ShoppingItem) => it.id != itemId));
    }

    /** `reorderItems`, with its `forEach` over the ids and the sort. */
    method ReorderItems(itemIds: seq<string>, now: int)
      modifies this
      ensures data == old(data).(items := Reordered(old(data.items), itemIds, now))
    {
      var k := 0;
      while k < |itemIds|
        invariant 0 <= k <= |itemIds|
        invariant data == old(data).(items := Reassign(old(data.items), itemIds[..k], now))
      {
        assert itemIds[..k + 1][..k] == itemIds[..k];
        var item := FindItem(data.items, itemIds[k]);
        if item.Some? {
          var i := item.value;
          data := data.(items := data.items[i := data.items[i].(order := k, dateModified := now)]);
        }
        k := k + 1;
      }
      assert itemIds[..k] == itemIds;
      data := data.(items := SortBy(data.items, ItemOrder));
    }

    /** `getItems`; `collate` ranks strings as `localeCompare(…, "ar")` orders them. */
    function GetItems(filter: Option<ItemFilterOptions>, sort: Option<ItemSortOptions>, collate: string -> real): seq<ShoppingItem>
      reads this
    {
      GetItemsOf(data.items, data.categories, filter, sort, collate)
    }

    /** `getItemById`: the first item with the id. */
    function GetItemById(itemId: string): Option<ShoppingItem>
      reads this
    {
      var i := FindItem(data.items, itemId);
      if i.Some? then Some(data.items[i.value]) else None
    }

    /** `addCategory`: the new category is appended with fresh id and stamps. */
    method AddCategory(category: Category, now: nat, suffix: string) returns (newCategory: Category)
      modifies this
      ensures newCategory == category.(id := NewCategoryId(now, suffix), dateCreated := now, dateModified := now)
      ensures data == old(data).(categories := old(data.categories) + [newCategory])
    {
      newCategory := category.(id := NewCategoryId(now, suffix), dateCreated := now, dateModified := now);
      data := data.(categories := data.categories + [newCategory]);
    }

    /** `updateCategory`: only the first category with the id changes. */
    method UpdateCategory(categoryId: string, updates: CategoryUpdate, now: int)
      modifies this
      ensures var i := FindCategory(old(data.categories), categoryId);
        data == if i.None? then old(data)
                else old(data).(categories := old(data.categories)[i.value := MergeCategory(old(data.categories)[i.value], updates, now)])
    {
      var categoryIndex := FindCategory(data.categories, categoryId);
      if categoryIndex.Some? {
        var i := categoryIndex.value;
        data := data.(categories := data.categories[i := MergeCategory(data.categories[i], updates, now)]);
      }
    }

    /** `deleteCategory`: a category that is absent, built in, or filed
        under by some item stays; otherwise every category with the id goes. */
    method DeleteCategory(categoryId: string)
      modifies this
      ensures var c := FindCategory(old(data.categories), categoryId);
        data == if c.None? || old(data.categories)[c.value].isDefault || HasItems(old(data.items), categoryId)
                then old(data)
                else old(data).(categories := Keep(old(data.categories), (cat: Category) => cat.id != categoryId))
    {
      var category := GetCategoryById(categoryId);
      if category.None? || category.value.isDefault {
        return;
      }
      var hasItems := exists j :: 0 <= j < |data.items| && data.items[j].categoryId == categoryId;
      if hasItems {
        return;
      }
      data := data.(categories := Keep(data.categories, (cat: Category) => cat.id != categoryId));
    }

    /** `getCategories` */
    function GetCategories(): seq<Category>
      reads this
    {
      GetCategoriesOf(data.categories)
    }

    /** `getCategoryById`: the first category with the id. */
    function GetCategoryById(categoryId: string): Option<Category>
      reads this
    {
      var i := FindCategory(data.categories, categoryId);
      if i.Some? then Some(data.categories[i.value]) else None
    }

    /** `updateSettings` */
    method UpdateSettings(settings: SettingsUpdate)
      modifies this
      ensures data == old(data).(settings := MergeSettings(old(data.settings), settings))
    {
      data := data.(settings := MergeSettings(data.settings, settings));
    }

    function GetSettings(): Settings
      reads this
    {
      data.settings
    }
  }

  /** Deleting a category that may go leaves no category with its id and
      keeps every other category, in order. */
  lemma DeletedCategoryGone(cats: seq<Category>, categoryId: string)
    ensures var r := Keep(cats, (cat: Category) => cat.id != categoryId);
      (forall i :: 0 <= i < |r| ==> r[i].id != categoryId) &&
      forall c :: c in cats && c.id != categoryId ==> c in r
  {
    KeepMembers(cats, (cat: Category) => cat.id != categoryId);
  }
}
