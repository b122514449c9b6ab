/** The record shapes of the shopping list: websites that sell an item, the
    price history and price alerts kept per item, the item itself, its
    category, and the filter and sort options of the item list. */
module Models {

  datatype Option<T> = None | Some(value: T)

  /** A website selling an item, with the CSS selectors that locate its price. */
  datatype Website = Website(
    id: string,
    name: string,
    url: string,
    priceSelector: seq<string>,
    currentPrice: Option<real>,
    currency: string,
    lastUpdated: Option<int>,
    isActive: bool)

  /** One observed price of one website; `timestamp` is in milliseconds. */
  datatype PriceHistory = PriceHistory(timestamp: int, price: real, websiteId: string)

  datatype Condition = Below | Above | Equal

  datatype PriceAlert = PriceAlert(
    id: string,
    websiteId: string,
    targetPrice: real,
    isActive: bool,
    condition: Condition)

  datatype Priority = Low | Medium | High

  datatype Status = Wishlist | Needed | Purchased

  /** The string a priority is stored and filtered as. */
  function PriorityName(p: Priority): string {
    match p
    case Low => "low"
    case Medium => "medium"
    case High => "high"
  }

  /** The string a status is stored and filtered as. */
  function StatusName(s: Status): string {
    match s
    case Wishlist => "wishlist"
    case Needed => "needed"
    case Purchased => "purchased"
  }

  datatype ShoppingItem = ShoppingItem(
    id: string,
    name: string,
    description: Option<string>,
    categoryId: string,
    websites: seq<Website>,
    priceHistory: seq<PriceHistory>,
    alerts: seq<PriceAlert>,
    priority: Priority,
    status: Status,
    tags: seq<string>,
    notes: Option<string>,
    dateAdded: int,
    dateModified: int,
    order: int,
    image: Option<string>,
    targetBudget: Option<real>,
    quantity: Option<real>)

  datatype SortField = ByName | ByPrice | ByPriority | ByDateAdded | ByCategory | ByOrder

  datatype Direction = Asc | Desc

  datatype ItemSortOptions = ItemSortOptions(field: SortField, direction: Direction)

  /** A bound of `None` is absent; a bound of 0 is falsy and so also unset. */
  datatype PriceRange = PriceRange(min: Option<real>, max: Option<real>)

  /** Every option is optional; status and priority are matched as strings. */
  datatype ItemFilterOptions = ItemFilterOptions(
    categoryIds: Option<seq<string>>,
    status: Option<seq<string>>,
    priority: Option<seq<string>>,
    priceRange: Option<PriceRange>,
    tags: Option<seq<string>>,
    searchTerm: Option<string>)

  datatype Category = Category(
    id: string,
    name: string,
    description: Option<string>,
    color: string,
    icon: Option<string>,
    parentId: Option<string>,
    order: int,
    isDefault: bool,
    dateCreated: int,
    dateModified: int)

  /** An entry of the built-in category list (it has no id or dates yet). */
  datatype CategoryTemplate = CategoryTemplate(
    name: string,
    color: string,
    icon: string,
    isDefault: bool,
    order: int)

  /** The eight built-in categories, in their declared order. */
  const DefaultCategories: seq<CategoryTemplate> := [
    CategoryTemplate("إلكترونيات", "#3b82f6", "📱", true, 1),
    CategoryTemplate("ملابس", "#10b981", "👕", true, 2),
    CategoryTemplate("طعام ومشروبات", "#f59e0b", "🍕", true, 3),
    CategoryTemplate("منزل وحديقة", "#8b5cf6", "🏠", true, 4),
    CategoryTemplate("كتب", "#06b6d4", "📚", true, 5),
    CategoryTemplate("رياضة وترفيه", "#ef4444", "⚽", true, 6),
    CategoryTemplate("صحة وجمال", "#ec4899", "💄", true, 7),
    CategoryTemplate("أخرى", "#6b7280", "📦", true, 999)
  ]

  /** `array.find(...)` and `array.findIndex(...)` by id: the position of
      the first element whose key is `id`, and none when no element has it. */
  function FindBy<T>(xs: seq<T>, key: T -> string, id: string): (r: Option<nat>)
    ensures r.Some? ==> r.value < |xs| && key(xs[r.value]) == id
    ensures r.Some? ==> forall j :: 0 <= j < r.value ==> key(xs[j]) != id
    ensures r.None? ==> forall j :: 0 <= j < |xs| ==> key(xs[j]) != id
  {
    if xs == [] then None
    else if key(xs[0]) == id then Some(0)
    else match FindBy(xs[1..], key, id)
      case None => None
      case Some(k) => Some(k + 1)
  }

  /** The website with the given id. */
  function FindWebsite(ws: seq<Website>, id: string): Option<nat> {
    FindBy(ws, (w: Website) => w.id, id)
  }

  /** The item with the given id. */
  function FindItem(items: seq<ShoppingItem>, id: string): Option<nat> {
    FindBy(items, (item: ShoppingItem) => item.id, id)
  }

  /** The category with the given id. */
  function FindCategory(cats: seq<Category>, id: string): Option<nat> {
    FindBy(cats, (c: Category) => c.id, id)
  }
}
