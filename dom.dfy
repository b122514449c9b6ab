/** The parsed page the extractor looks at, reduced to what it reads: the
    elements in document order (an element is named by its position), each
    with its tag name, its attributes, its text content and its parent, the
    text content of the body, and the results of the CSS engine, which is a
    parameter. On top of it: the DOM lookups by id, class, tag and
    attribute, and `findElementsBySelector`, which gathers the elements of
    every lookup that applies to a selector without repeating one. */
module Dom {
  import opened Text
  import opened Models

  /** One element. `tag` and the attribute names are stored in lower case,
      as the HTML parser produces them. */
  datatype Element = Element(tag: string, attrs: map<string, string>, text: string, parent: Option<nat>)

  /** `select(s)` is what `querySelectorAll(s)` returns, or `None` when the
      selector is invalid and the call throws. */
  datatype Document = Document(
    elements: seq<Element>,
    body: Option<string>,
    select: string -> Option<seq<nat>>)

  /** Positions strictly increasing, all below `n`: a list in document order
      without repetitions. */
  predicate Ordered(xs: seq<nat>, n: nat) {
    (forall i, j :: 0 <= i < j < |xs| ==> xs[i] < xs[j]) && (forall i :: 0 <= i < |xs| ==> xs[i] < n)
  }

  predicate NoDuplicates<T(==)>(xs: seq<T>) {
    forall i, j :: 0 <= i < j < |xs| ==> xs[i] != xs[j]
  }

  /** What the browser guarantees: a parent comes before its children, and
      the CSS engine returns elements of the page in document order. */
  ghost predicate ValidDocument(doc: Document) {
    (forall i :: 0 <= i < |doc.elements| && doc.elements[i].parent.Some? ==> doc.elements[i].parent.value < i) &&
    (forall s :: doc.select(s).Some? ==> Ordered(doc.select(s).value, |doc.elements|))
  }

  // ---------------------------------------------------------------------
  // Attribute lookups

  /** `getAttribute(name)`; the name is matched in lower case. */
  function Attribute(e: Element, name: string): Option<string> {
    var key := ToLower(name);
    if key in e.attrs then Some(e.attrs[key]) else None
  }

  /** `hasAttribute(name)`. */
  predicate HasAttribute(e: Element, name: string) {
    ToLower(name) in e.attrs
  }

  /** The element's class list: its class attribute split at ASCII whitespace. */
  function Classes(e: Element): seq<string> {
    if "class" in e.attrs then Tokens(e.attrs["class"]) else []
  }

  // ---------------------------------------------------------------------
  // Document-order queries

  /** The positions below `n` of the elements that satisfy `p`, in order. */
  function WhereBelow(es: seq<Element>, p: Element -> bool, n: nat): (r: seq<nat>)
    requires n <= |es|
    ensures Ordered(r, n)
    ensures forall i :: i in r <==> 0 <= i < n && p(es[i])
  {
    if n == 0 then []
    else WhereBelow(es, p, n - 1) + (if p(es[n - 1]) then [n - 1] else [])
  }

  /** The positions of the elements that satisfy `p`, in document order. */
  function Where(es: seq<Element>, p: Element -> bool): (r: seq<nat>)
    ensures Ordered(r, |es|)
    ensures forall i :: i in r <==> 0 <= i < |es| && p(es[i])
  {
    WhereBelow(es, p, |es|)
  }

  /** The first of an ordered list of positions is the least. */
  lemma OrderedFirst(xs: seq<nat>, n: nat)
    requires Ordered(xs, n) && xs != []
    ensures forall x :: x in xs ==> xs[0] <= x
  {
    forall x | x in xs ensures xs[0] <= x {
      var k :| 0 <= k < |xs| && xs[k] == x;
      if k > 0 {
        assert xs[0] < xs[k];
      }
    }
  }

  /** The first position `Where` finds is the first element satisfying `p`. */
  lemma WhereFirst(es: seq<Element>, p: Element -> bool)
    requires Where(es, p) != []
    ensures var f := Where(es, p)[0]; f < |es| && p(es[f]) && forall j :: 0 <= j < f ==> !p(es[j])
  {
    var found := Where(es, p);
    OrderedFirst(found, |es|);
    assert found[0] in found;
  }

  /** `Where` finds nothing exactly when no element satisfies `p`. */
  lemma WhereNone(es: seq<Element>, p: Element -> bool)
    requires Where(es, p) == []
    ensures forall j :: 0 <= j < |es| ==> !p(es[j])
  {
  }

  /** `getElementById(id)`: the first element whose id is `id`; an empty id
      matches nothing. */
  function ElementById(doc: Document, id: string): (r: Option<nat>)
    ensures r.Some? ==> r.value < |doc.elements| && Attribute(doc.elements[r.value], "id") == Some(id) && id != []
    ensures r.Some? ==> forall j :: 0 <= j < r.value ==> Attribute(doc.elements[j], "id") != Some(id)
    ensures r.None? && id != [] ==> forall j :: 0 <= j < |doc.elements| ==> Attribute(doc.elements[j], "id") != Some(id)
  {
    var p := (e: Element) => Attribute(e, "id") == Some(id);
    var found := Where(doc.elements, p);
    if id == [] then None
    else if found == [] then
      WhereNone(doc.elements, p);
      None
    else
      WhereFirst(doc.elements, p);
      Some(found[0])
  }

  /** `getElementsByClassName(names)`: the elements whose class list holds
      every class named; naming none matches nothing. */
  function ElementsByClassName(doc: Document, names: string): seq<nat> {
    var wanted := Tokens(names);
    if wanted == [] then []
    else Where(doc.elements, (e: Element) => forall w :: w in wanted ==> w in Classes(e))
  }

  /** `getElementsByTagName(name)`: "*" matches every element, any other name
      the elements of that tag, compared in lower case. */
  function ElementsByTagName(doc: Document, name: string): seq<nat> {
    Where(doc.elements, (e: Element) => name == "*" || e.tag == ToLower(name))
  }

  /** The elements that have the attribute `name`. */
  function ElementsWithAttribute(doc: Document, name: string): seq<nat> {
    Where(doc.elements, (e: Element) => HasAttribute(e, name))
  }

  // ---------------------------------------------------------------------
  // The attribute query of a selector

  /** The number of characters other than `]` from `i` on. */
  function NonBracketRun(s: string, i: nat): (n: nat)
    requires i <= |s|
    ensures i + n <= |s|
    ensures forall k :: i <= k < i + n ==> s[k] != ']'
    ensures i + n < |s| ==> s[i + n] == ']'
    decreases |s| - i
  {
    if i < |s| && s[i] != ']' then 1 + NonBracketRun(s, i + 1) else 0
  }

  /** A match of `/\[([^\]]+)\]/` starts at `k`: a `[`, at least one
      character other than `]`, and then a `]`. */
  predicate OpensQuery(s: string, k: nat)
    requires k < |s|
  {
    s[k] == '[' && NonBracketRun(s, k + 1) >= 1 && k + 1 + NonBracketRun(s, k + 1) < |s|
  }

  /** The group of `/\[([^\]]+)\]/` searched from position `i`. */
  function AttrQueryFrom(s: string, i: nat): (r: Option<string>)
    requires i <= |s|
    ensures r.Some? ==> r.value != [] && ']' !in r.value
    decreases |s| - i
  {
    if i >= |s| then None
    else if OpensQuery(s, i) then
      var q := s[i + 1..i + 1 + NonBracketRun(s, i + 1)];
      assert forall k :: 0 <= k < |q| ==> q[k] == s[i + 1 + k];
      Some(q)
    else AttrQueryFrom(s, i + 1)
  }

  function AttrQuery(s: string): Option<string> { AttrQueryFrom(s, 0) }

  /** The query is the inside of the first bracket pair from `i` on, and
      there is none exactly when no bracket pair occurs there. */
  lemma {:induction false} AttrQueryFirst(s: string, i: nat)
    requires i <= |s|
    ensures var r := AttrQueryFrom(s, i);
      (r.None? <==> forall k :: i <= k < |s| ==> !OpensQuery(s, k)) &&
      (r.Some? ==> exists k :: (i <= k < |s| && OpensQuery(s, k) &&
        (forall j :: i <= j < k ==> !OpensQuery(s, j)) && r.value == s[k + 1..k + 1 + NonBracketRun(s, k + 1)]))
    decreases |s| - i
  {
    if i < |s| {
      if OpensQuery(s, i) {
        assert AttrQueryFrom(s, i).value == s[i + 1..i + 1 + NonBracketRun(s, i + 1)];
      } else {
        AttrQueryFirst(s, i + 1);
        var r := AttrQueryFrom(s, i + 1);
        assert AttrQueryFrom(s, i) == r;
        if r.Some? {
          var k :| i + 1 <= k < |s| && OpensQuery(s, k) &&
            (forall j :: i + 1 <= j < k ==> !OpensQuery(s, j)) && r.value == s[k + 1..k + 1 + NonBracketRun(s, k + 1)];
          assert forall j :: i <= j < k ==> !OpensQuery(s, j);
        }
      }
    }
  }

  /** The query is a piece of the selector that a `[` opens and a `]` closes. */
  lemma {:induction false} AttrQueryEnclosed(s: string, i: nat)
    requires i <= |s| && AttrQueryFrom(s, i).Some?
    ensures var q := AttrQueryFrom(s, i).value;
      exists k :: i <= k && k + |q| + 2 <= |s| && s[k] == '[' && s[k + 1..k + 1 + |q|] == q && s[k + 1 + |q|] == ']'
    decreases |s| - i
  {
    if !OpensQuery(s, i) {
      AttrQueryEnclosed(s, i + 1);
    }
  }

  // ---------------------------------------------------------------------
  // Appending without repetition

  /** Appends, in order, each element of `xs` that is not yet present. */
  function AppendNew(acc: seq<nat>, xs: seq<nat>): seq<nat>
    decreases |xs|
  {
    if xs == [] then acc
    else AppendNew(if xs[0] in acc then acc else acc + [xs[0]], xs[1..])
  }

  /** The accumulated list stays in front, nothing is repeated, and exactly
      the elements of both lists are present. */
  lemma {:induction false} AppendNewFacts(acc: seq<nat>, xs: seq<nat>)
    ensures var r := AppendNew(acc, xs);
      |acc| <= |r| && r[..|acc|] == acc &&
      (NoDuplicates(acc) ==> NoDuplicates(r)) &&
      forall x :: x in r <==> x in acc || x in xs
    decreases |xs|
  {
    if xs != [] {
      var next := if xs[0] in acc then acc else acc + [xs[0]];
      AppendNewFacts(next, xs[1..]);
      var r := AppendNew(acc, xs);
      assert r[..|next|] == next;
      assert r[..|acc|] == next[..|acc|];
      assert forall x :: x in xs <==> x == xs[0] || x in xs[1..];
    }
  }

  /** Appending a list whose elements are all present changes nothing. */
  lemma {:induction false} AppendNewPresent(acc: seq<nat>, xs: seq<nat>)
    requires forall x :: x in xs ==> x in acc
    ensures AppendNew(acc, xs) == acc
    decreases |xs|
  {
    if xs != [] {
      AppendNewPresent(acc, xs[1..]);
    }
  }

  lemma AppendNewOne(acc: seq<nat>, x: nat)
    ensures AppendNew(acc, [x]) == if x in acc then acc else acc + [x]
  {
    assert [x][1..] == [];
  }

  /** `if (!elements.includes(el)) elements.push(el)` over a list. */
  method PushNew(elements0: seq<nat>, xs: seq<nat>) returns (elements: seq<nat>)
    ensures elements == AppendNew(elements0, xs)
  {
    elements := elements0;
    var j := 0;
    while j < |xs|
      invariant 0 <= j <= |xs|
      invariant AppendNew(elements, xs[j..]) == AppendNew(elements0, xs)
    {
      assert xs[j..][1..] == xs[j + 1..];
      if !(xs[j] in elements) {
        elements := elements + [xs[j]];
      }
      j := j + 1;
    }
  }

  // ---------------------------------------------------------------------
  // findElementsBySelector

  /** The selector is read as a tag name: it has no `.`, `#` or `[`. */
  predicate TagLike(selector: string) {
    '.' !in selector && '#' !in selector && '[' !in selector
  }

  predicate HasBrackets(selector: string) {
    '[' in selector && ']' in selector
  }

  function CssResults(doc: Document, selector: string): seq<nat> {
    if doc.select(selector).Some? then doc.select(selector).value else []
  }

  function WithId(doc: Document, selector: string, acc: seq<nat>): seq<nat> {
    if StartsWith(selector, '#') then
      var el := ElementById(doc, selector[1..]);
      if el.Some? then AppendNew(acc, [el.value]) else acc
    else acc
  }

  function WithClass(doc: Document, selector: string, acc: seq<nat>): seq<nat> {
    if StartsWith(selector, '.') then AppendNew(acc, ElementsByClassName(doc, selector[1..])) else acc
  }

  function WithTag(doc: Document, selector: string, acc: seq<nat>): seq<nat> {
    if TagLike(selector) then AppendNew(acc, ElementsByTagName(doc, selector)) else acc
  }

  function WithAttr(doc: Document, selector: string, acc: seq<nat>): seq<nat> {
    if HasBrackets(selector) && AttrQuery(selector).Some? then
      AppendNew(acc, ElementsWithAttribute(doc, AttrQuery(selector).value))
    else acc
  }

  /** What `findElementsBySelector` returns: the CSS engine's elements, then
      the id, class, tag and attribute lookups that the selector's shape
      calls for, each element once. */
  function FindElementsOf(doc: Document, selector: string): seq<nat> {
    WithAttr(doc, selector, WithTag(doc, selector, WithClass(doc, selector, WithId(doc, selector, CssResults(doc, selector)))))
  }

  /** The lookups that apply to a selector, by their shape. */
  predicate Found(doc: Document, selector: string, x: nat) {
    x in CssResults(doc, selector) ||
    (StartsWith(selector, '#') && ElementById(doc, selector[1..]) == Some(x)) ||
    (StartsWith(selector, '.') && x in ElementsByClassName(doc, selector[1..])) ||
    (TagLike(selector) && x in ElementsByTagName(doc, selector)) ||
    (HasBrackets(selector) && AttrQuery(selector).Some? && x in ElementsWithAttribute(doc, AttrQuery(selector).value))
  }

  /** `findElementsBySelector` never returns an element twice, starts with
      the CSS engine's results, and returns exactly the elements that one
      of the applicable lookups finds. */
  lemma FindElementsFacts(doc: Document, selector: string)
    requires ValidDocument(doc)
    ensures var r := FindElementsOf(doc, selector);
      var css := CssResults(doc, selector);
      NoDuplicates(r) && |css| <= |r| && r[..|css|] == css &&
      forall x :: x in r <==> Found(doc, selector, x)
  {
    var css := CssResults(doc, selector);
    CssNoDuplicates(doc, selector);
    var rest := if selector == [] then [] else selector[1..];
    var id := ElementById(doc, rest);
    var q := AttrQuery(selector);
    FindElementsStages(doc, selector);
    FoundStages(doc, selector);
    ChainFacts(css, if id.Some? then [id.value] else [], ElementsByClassName(doc, rest), ElementsByTagName(doc, selector),
      if q.Some? then ElementsWithAttribute(doc, q.value) else [],
      StartsWith(selector, '#') && id.Some?, StartsWith(selector, '.'), TagLike(selector), HasBrackets(selector) && q.Some?);
  }

  lemma CssNoDuplicates(doc: Document, selector: string)
    requires ValidDocument(doc)
    ensures NoDuplicates(CssResults(doc, selector))
  {
  }

  /** The lookups of `findElementsBySelector` as four stages. */
  lemma FindElementsStages(doc: Document, selector: string)
    ensures var rest := if selector == [] then [] else selector[1..];
      var id := ElementById(doc, rest);
      var q := AttrQuery(selector);
      FindElementsOf(doc, selector) == Stages(CssResults(doc, selector),
        if id.Some? then [id.value] else [], ElementsByClassName(doc, rest), ElementsByTagName(doc, selector),
        if q.Some? then ElementsWithAttribute(doc, q.value) else [],
        StartsWith(selector, '#') && id.Some?, StartsWith(selector, '.'), TagLike(selector), HasBrackets(selector) && q.Some?)
  {
  }

  /** `Found` spelled in terms of the four stages. */
  lemma FoundStages(doc: Document, selector: string)
    ensures var rest := if selector == [] then [] else selector[1..];
      var id := ElementById(doc, rest);
      var q := AttrQuery(selector);
      forall x :: Found(doc, selector, x) <==> (
        x in CssResults(doc, selector) ||
        (StartsWith(selector, '#') && id.Some? && x in (if id.Some? then [id.value] else [])) ||
        (StartsWith(selector, '.') && x in ElementsByClassName(doc, rest)) ||
        (TagLike(selector) && x in ElementsByTagName(doc, selector)) ||
        (HasBrackets(selector) && q.Some? && x in (if q.Some? then ElementsWithAttribute(doc, q.value) else [])))
  {
  }

  /** A lookup stage: when it applies, its elements are appended. */
  function Stage(acc: seq<nat>, applies: bool, xs: seq<nat>): seq<nat> {
    if applies then AppendNew(acc, xs) else acc
  }

  function Stages(css: seq<nat>, l1: seq<nat>, l2: seq<nat>, l3: seq<nat>, l4: seq<nat>, a1: bool, a2: bool, a3: bool, a4: bool): seq<nat> {
    Stage(Stage(Stage(Stage(css, a1, l1), a2, l2), a3, l3), a4, l4)
  }

  /** The four lookup stages one after another. */
  lemma ChainFacts(css: seq<nat>, l1: seq<nat>, l2: seq<nat>, l3: seq<nat>, l4: seq<nat>, a1: bool, a2: bool, a3: bool, a4: bool)
    requires NoDuplicates(css)
    ensures var r := Stages(css, l1, l2, l3, l4, a1, a2, a3, a4);
      NoDuplicates(r) && |css| <= |r| && r[..|css|] == css &&
      forall x :: x in r <==> x in css || (a1 && x in l1) || (a2 && x in l2) || (a3 && x in l3) || (a4 && x in l4)
  {
    var e1 := Stage(css, a1, l1);
    ExtendFacts(css, l1, e1, a1);
    var e2 := Stage(e1, a2, l2);
    ExtendFacts(e1, l2, e2, a2);
    var e3 := Stage(e2, a3, l3);
    ExtendFacts(e2, l3, e3, a3);
    var e4 := Stage(e3, a4, l4);
    ExtendFacts(e3, l4, e4, a4);
    PrefixChain(css, e1, e2, e3, e4);
  }

  /** One lookup stage: when it applies, its elements are appended. */
  lemma ExtendFacts(acc: seq<nat>, xs: seq<nat>, r: seq<nat>, applies: bool)
    requires r == Stage(acc, applies, xs)
    ensures |acc| <= |r| && r[..|acc|] == acc
    ensures NoDuplicates(acc) ==> NoDuplicates(r)
    ensures forall x :: x in r <==> x in acc || (applies && x in xs)
  {
    if applies {
      AppendNewFacts(acc, xs);
    }
  }

  lemma PrefixChain(a: seq<nat>, b: seq<nat>, c: seq<nat>, d: seq<nat>, e: seq<nat>)
    requires |a| <= |b| && b[..|a|] == a && |b| <= |c| && c[..|b|] == b
    requires |c| <= |d| && d[..|c|] == c && |d| <= |e| && e[..|d|] == d
    ensures |a| <= |e| && e[..|a|] == a
  {
    assert e[..|a|] == d[..|a|] == c[..|a|] == b[..|a|];
  }

  /** Every element found is an element of the page. */
  lemma FindElementsInRange(doc: Document, selector: string)
    requires ValidDocument(doc)
    ensures forall x :: x in FindElementsOf(doc, selector) ==> x < |doc.elements|
  {
    FindElementsFacts(doc, selector);
  }

  /** `findElementsBySelector`, pushing into a list as the source does. */
  method FindElementsBySelector(doc: Document, selector: string) returns (elements: seq<nat>)
    ensures elements == FindElementsOf(doc, selector)
  {
    elements := [];
    var cssResults := doc.select(selector);
    if cssResults.Some? {
      elements := elements + cssResults.value;
      assert elements == cssResults.value;
    }
    elements := AddById(doc, selector, elements);
    elements := AddByClass(doc, selector, elements);
    elements := AddByTag(doc, selector, elements);
    elements := AddByAttribute(doc, selector, elements);
  }

  /** The `#id` step of `findElementsBySelector`. */
  method AddById(doc: Document, selector: string, elements0: seq<nat>) returns (elements: seq<nat>)
    ensures elements == WithId(doc, selector, elements0)
    ensures |elements0| <= |elements| <= |elements0| + 1 && elements[..|elements0|] == elements0
    ensures NoDuplicates(elements0) ==> NoDuplicates(elements)
    ensures forall x :: x in elements <==>
      x in elements0 || (StartsWith(selector, '#') && ElementById(doc, selector[1..]) == Some(x))
  {
    elements := elements0;
    if StartsWith(selector, '#') {
      var element := ElementById(doc, selector[1..]);
      if element.Some? {
        AppendNewOne(elements, element.value);
      }
      if element.Some? && !(element.value in elements) {
        elements := elements + [element.value];
      }
    }
  }

  /** The `.class` step of `findElementsBySelector`. */
  method AddByClass(doc: Document, selector: string, elements0: seq<nat>) returns (elements: seq<nat>)
    ensures elements == WithClass(doc, selector, elements0)
  {
    elements := elements0;
    if StartsWith(selector, '.') {
      var classElements := ElementsByClassName(doc, selector[1..]);
      elements := PushNew(elements, classElements);
    }
  }

  /** The tag-name step of `findElementsBySelector`. */
  method AddByTag(doc: Document, selector: string, elements0: seq<nat>) returns (elements: seq<nat>)
    ensures elements == WithTag(doc, selector, elements0)
  {
    elements := elements0;
    if '.' !in selector && '#' !in selector && '[' !in selector {
      var tagElements := ElementsByTagName(doc, selector);
      elements := PushNew(elements, tagElements);
    }
  }

  /** The `[attribute]` step of `findElementsBySelector`. */
  method AddByAttribute(doc: Document, selector: string, elements0: seq<nat>) returns (elements: seq<nat>)
    ensures elements == WithAttr(doc, selector, elements0)
  {
    elements := elements0;
    if '[' in selector && ']' in selector {
      var attrMatch := AttrQuery(selector);
      if attrMatch.Some? {
        var allElements := ElementsWithAttribute(doc, attrMatch.value);
        elements := PushNew(elements, allElements);
      }
    }
  }
}
