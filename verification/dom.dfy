/**
 The abstract document the height matcher works on. Real DOM semantics
 (selector matching, CSS layout) are replaced by two tables: the state of
 every element, and the element ids each selector resolves to.
 */
module Dom {

  /** Identity of an element in the document. */
  type Id = nat

  /** A CSS selector string, kept opaque: only its resolution table matters. */
  type Selector = string

  /** The inline `height` style of an element: absent, or a pixel value. */
  datatype Style = Unset | Px(h: nat)

  /** One element: the height layout gives it with no inline height, and its
      inline height style. */
  datatype Element = Element(natural: nat, height: Style)

  /** `offsetHeight`: the forced height when one is set, otherwise the
      natural height. */
  function OffsetHeight(e: Element): nat
  {
    match e.height
    case Px(h) => h
    case Unset => e.natural
  }

  /** Element states, and the ids each known selector matches, in document
      order. */
  datatype Document = Document(elements: map<Id, Element>, matches: map<Selector, seq<Id>>)

  /** A query only ever returns elements that exist. */
  ghost predicate Valid(doc: Document)
  {
    forall s, id :: s in doc.matches && id in doc.matches[s] ==> id in doc.elements
  }

  /** `document.querySelectorAll(selector)`: a selector the table does not
      know matches nothing. */
  function QuerySelectorAll(doc: Document, selector: Selector): (ids: seq<Id>)
    ensures selector !in doc.matches ==> ids == []
    ensures Valid(doc) ==> forall id :: id in ids ==> id in doc.elements
  {
    if selector in doc.matches then doc.matches[selector] else []
  }

  /** True when `id` belongs to the group of at least one of `selectors`. */
  ghost predicate IsMatched(doc: Document, selectors: seq<Selector>, id: Id)
  {
    exists k :: 0 <= k < |selectors| && id in QuerySelectorAll(doc, selectors[k])
  }

  /** Group membership depends only on the selector table. */
  lemma IsMatchedSameTable(d1: Document, d2: Document, selectors: seq<Selector>, id: Id)
    requires d1.matches == d2.matches
    ensures IsMatched(d1, selectors, id) <==> IsMatched(d2, selectors, id)
  {
    assert forall s :: QuerySelectorAll(d1, s) == QuerySelectorAll(d2, s);
  }

  /** No element belongs to two of the groups. */
  ghost predicate Disjoint(doc: Document, selectors: seq<Selector>)
  {
    forall a, b, id ::
      0 <= a < b < |selectors| && id in QuerySelectorAll(doc, selectors[a])
      ==> id !in QuerySelectorAll(doc, selectors[b])
  }

  /** Two documents that agree on everything but the inline heights of the
      elements some selector matches. */
  ghost predicate SameUpToMatchedStyles(d1: Document, d2: Document, selectors: seq<Selector>)
  {
    && d1.matches == d2.matches
    && d1.elements.Keys == d2.elements.Keys
    && (forall id :: id in d1.elements ==> d1.elements[id].natural == d2.elements[id].natural)
    && (forall id :: id in d1.elements && !IsMatched(d1, selectors, id) ==> d1.elements[id] == d2.elements[id])
  }
}
