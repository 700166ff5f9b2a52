/**
 The height matcher: clear every group's inline height, check the disable
 rules, then give every element of each group the height of its tallest
 member.
 */
module Matcher {
  import opened Dom
  import opened Rules

  /** `h` is the largest of `hs`, or 0 when `hs` is empty: the value the
      source's fold produces, since it starts from 0 and heights are never
      negative. */
  ghost predicate IsMaxOf(h: nat, hs: seq<nat>)
  {
    && (forall i :: 0 <= i < |hs| ==> hs[i] <= h)
    && (if |hs| == 0 then h == 0 else exists i :: 0 <= i < |hs| && hs[i] == h)
  }

  /** The `offsetHeight` of each element, in order. */
  function OffsetsOf(es: seq<Element>): (hs: seq<nat>)
    ensures |hs| == |es|
    ensures forall i :: 0 <= i < |es| ==> hs[i] == OffsetHeight(es[i])
  {
    seq(|es|, i requires 0 <= i < |es| => OffsetHeight(es[i]))
  }

  /** The elements `ids` name, in order. */
  function Measure(doc: Document, ids: seq<Id>): (es: seq<Element>)
    requires forall id :: id in ids ==> id in doc.elements
    ensures |es| == |ids|
    ensures forall i :: 0 <= i < |ids| ==> es[i] == doc.elements[ids[i]]
  {
    seq(|ids|, i requires 0 <= i < |ids| => doc.elements[ids[i]])
  }

  /** The `offsetHeight` of each element `ids` name. */
  function Offsets(doc: Document, ids: seq<Id>): seq<nat>
    requires forall id :: id in ids ==> id in doc.elements
  {
    OffsetsOf(Measure(doc, ids))
  }

  /** The natural height of each element `ids` name. */
  function Naturals(doc: Document, ids: seq<Id>): (hs: seq<nat>)
    requires forall id :: id in ids ==> id in doc.elements
    ensures |hs| == |ids|
    ensures forall i :: 0 <= i < |ids| ==> hs[i] == doc.elements[ids[i]].natural
  {
    seq(|ids|, i requires 0 <= i < |ids| => doc.elements[ids[i]].natural)
  }

  /** `removeHeight(element)`: drop the inline height, so the element is
      measured at its natural height again. */
  function RemoveHeight(e: Element): (r: Element)
    ensures r.natural == e.natural
    ensures r.height == Unset
    ensures OffsetHeight(r) == e.natural
  {
    e.(height := Unset)
  }

  /** Write the inline height `style` onto every element of `ids`, one after
      the other, as the source's inner `forEach` loops do. */
  function StyleEach(elements: map<Id, Element>, ids: seq<Id>, style: Style): (r: map<Id, Element>)
    requires forall id :: id in ids ==> id in elements
    ensures r.Keys == elements.Keys
    ensures forall id :: id in elements && id in ids ==> r[id] == elements[id].(height := style)
    ensures forall id :: id in elements && id !in ids ==> r[id] == elements[id]
    decreases |ids|
  {
    if |ids| == 0 then elements
    else StyleEach(elements[ids[0] := elements[ids[0]].(height := style)], ids[1..], style)
  }

  /** Membership in some group of `s + rest` is membership in the first
      group or in one of the others. */
  lemma {:induction false} IsMatchedCons(doc: Document, selectors: seq<Selector>, id: Id)
    requires |selectors| > 0
    ensures IsMatched(doc, selectors, id) <==>
      id in QuerySelectorAll(doc, selectors[0]) || IsMatched(doc, selectors[1..], id)
  {
    if IsMatched(doc, selectors[1..], id) {
      var k :| 0 <= k < |selectors[1..]| && id in QuerySelectorAll(doc, selectors[1..][k]);
      assert selectors[k + 1] == selectors[1..][k];
    }
    if IsMatched(doc, selectors, id) && id !in QuerySelectorAll(doc, selectors[0]) {
      var k :| 0 <= k < |selectors| && id in QuerySelectorAll(doc, selectors[k]);
      assert selectors[1..][k - 1] == selectors[k];
    }
    if id in QuerySelectorAll(doc, selectors[0]) {
      assert 0 < |selectors|;
    }
  }

  /** `removeHeights(selectors)`: clear the inline height of every element
      some selector matches; every other element, and every natural height,
      is left as it was. */
  function RemoveHeights(doc: Document, selectors: seq<Selector>): (r: Document)
    requires Valid(doc)
    ensures Valid(r)
    ensures r.matches == doc.matches && r.elements.Keys == doc.elements.Keys
    ensures forall id :: id in doc.elements && IsMatched(doc, selectors, id) ==>
      r.elements[id] == RemoveHeight(doc.elements[id])
    ensures forall id :: id in doc.elements && !IsMatched(doc, selectors, id) ==>
      r.elements[id] == doc.elements[id]
    decreases |selectors|
  {
    if |selectors| == 0 then doc
    else
      var group := QuerySelectorAll(doc, selectors[0]);
      var doc' := doc.(elements := StyleEach(doc.elements, group, Unset));
      var r := RemoveHeights(doc', selectors[1..]);
      assert forall id :: IsMatched(doc, selectors, id) <==>
        id in group || IsMatched(doc', selectors[1..], id) by {
        forall id
          ensures IsMatched(doc, selectors, id) <==> id in group || IsMatched(doc', selectors[1..], id)
        {
          IsMatchedCons(doc, selectors, id);
        }
      }
      r
  }

  /** `getMinHeight(elements)`: despite the name, the largest
      `offsetHeight` of the elements, or 0 for none. */
  function GetMinHeight(es: seq<Element>): (r: nat)
    ensures IsMaxOf(r, OffsetsOf(es))
  {
    var r := MaxFrom(0, es);
    assert |es| > 0 && r == 0 ==> OffsetHeight(es[0]) == r;
    r
  }

  /** The `forEach` loop of `getMinHeight`, from running value `min`: raise
      it to each larger `offsetHeight` in turn. */
  function MaxFrom(min: nat, es: seq<Element>): (r: nat)
    ensures min <= r
    ensures forall i :: 0 <= i < |es| ==> OffsetHeight(es[i]) <= r
    ensures r == min || exists i :: 0 <= i < |es| && OffsetHeight(es[i]) == r
    decreases |es|
  {
    if |es| == 0 then min
    else
      var min' := if OffsetHeight(es[0]) > min then OffsetHeight(es[0]) else min;
      var r := MaxFrom(min', es[1..]);
      assert forall i :: 1 <= i < |es| ==> es[i] == es[1..][i - 1];
      r
  }

  /** `setHeight(selector)`: every element of the group gets, as its inline
      height, the largest `offsetHeight` measured in the group beforehand;
      every other element is left as it was. */
  function SetHeight(doc: Document, selector: Selector): (r: Document)
    requires Valid(doc)
    ensures Valid(r)
    ensures r.matches == doc.matches && r.elements.Keys == doc.elements.Keys
    ensures forall id :: id in QuerySelectorAll(doc, selector) ==>
      && r.elements[id].natural == doc.elements[id].natural
      && r.elements[id].height.Px?
      && IsMaxOf(r.elements[id].height.h, Offsets(doc, QuerySelectorAll(doc, selector)))
    ensures forall id :: id in doc.elements && id !in QuerySelectorAll(doc, selector) ==>
      r.elements[id] == doc.elements[id]
  {
    var group := QuerySelectorAll(doc, selector);
    var height := GetMinHeight(Measure(doc, group));
    doc.(elements := StyleEach(doc.elements, group, Px(height)))
  }

  /** `selectors.forEach(setHeight)`: every matched element ends with an
      inline height, every other element is left as it was. */
  function SetHeights(doc: Document, selectors: seq<Selector>): (r: Document)
    requires Valid(doc)
    ensures Valid(r)
    ensures r.matches == doc.matches && r.elements.Keys == doc.elements.Keys
    ensures forall id :: id in doc.elements ==> r.elements[id].natural == doc.elements[id].natural
    ensures forall id :: id in doc.elements && IsMatched(doc, selectors, id) ==> r.elements[id].height.Px?
    ensures forall id :: id in doc.elements && !IsMatched(doc, selectors, id) ==>
      r.elements[id] == doc.elements[id]
    decreases |selectors|
  {
    if |selectors| == 0 then doc
    else
      var doc' := SetHeight(doc, selectors[0]);
      var r := SetHeights(doc', selectors[1..]);
      assert forall id :: IsMatched(doc, selectors, id) <==>
        id in QuerySelectorAll(doc, selectors[0]) || IsMatched(doc', selectors[1..], id) by {
        forall id
          ensures IsMatched(doc, selectors, id) <==>
            id in QuerySelectorAll(doc, selectors[0]) || IsMatched(doc', selectors[1..], id)
        {
          IsMatchedCons(doc, selectors, id);
        }
      }
      r
  }

  /** Disjointness depends only on the selector table, and survives
      dropping the first group. */
  lemma DisjointTail(doc: Document, doc': Document, selectors: seq<Selector>)
    requires doc'.matches == doc.matches && |selectors| > 0
    requires Disjoint(doc, selectors)
    ensures Disjoint(doc', selectors[1..])
  {
    var rest := selectors[1..];
    forall a, b, x | 0 <= a < b < |rest| && x in QuerySelectorAll(doc', rest[a])
      ensures x !in QuerySelectorAll(doc', rest[b])
    {
      assert rest[a] == selectors[a + 1] && rest[b] == selectors[b + 1];
      assert QuerySelectorAll(doc', rest[a]) == QuerySelectorAll(doc, selectors[a + 1]);
      assert QuerySelectorAll(doc', rest[b]) == QuerySelectorAll(doc, selectors[b + 1]);
    }
  }

  /** With disjoint groups, a member of the first group belongs to none of
      the others. */
  lemma DisjointFirst(doc: Document, doc': Document, selectors: seq<Selector>, id: Id)
    requires doc'.matches == doc.matches && |selectors| > 0
    requires Disjoint(doc, selectors) && id in QuerySelectorAll(doc, selectors[0])
    ensures !IsMatched(doc', selectors[1..], id)
  {
  }

  /** With disjoint groups, `setHeight` on the first group leaves the
      measurements of every later group as they were. */
  lemma DisjointOffsets(doc: Document, selectors: seq<Selector>, k: nat)
    requires Valid(doc) && Disjoint(doc, selectors) && 0 < k < |selectors|
    ensures Offsets(SetHeight(doc, selectors[0]), QuerySelectorAll(doc, selectors[k]))
         == Offsets(doc, QuerySelectorAll(doc, selectors[k]))
  {
    var group := QuerySelectorAll(doc, selectors[k]);
    assert forall x :: x in group ==> x !in QuerySelectorAll(doc, selectors[0]);
  }

  /** With disjoint groups, the first group keeps the height `setHeight`
      gave it through the rest of the run. */
  lemma SetHeightsFirstGroup(doc: Document, selectors: seq<Selector>, id: Id)
    requires Valid(doc) && Disjoint(doc, selectors)
    requires 0 < |selectors| && id in QuerySelectorAll(doc, selectors[0])
    ensures SetHeights(doc, selectors).elements[id].height.Px?
    ensures IsMaxOf(SetHeights(doc, selectors).elements[id].height.h, Offsets(doc, QuerySelectorAll(doc, selectors[0])))
  {
    var doc' := SetHeight(doc, selectors[0]);
    assert SetHeights(doc, selectors) == SetHeights(doc', selectors[1..]);
    DisjointFirst(doc, doc', selectors, id);
  }

  /** One step of `SetHeights` on disjoint groups: after `setHeight` on the
      first group, a later group `k` is group `k - 1` of the rest, still
      disjoint from the others, and still measures as before. */
  lemma SetHeightsStep(doc: Document, selectors: seq<Selector>, k: nat)
    requires Valid(doc) && Disjoint(doc, selectors) && 0 < k < |selectors|
    ensures SetHeights(doc, selectors) == SetHeights(SetHeight(doc, selectors[0]), selectors[1..])
    ensures Disjoint(SetHeight(doc, selectors[0]), selectors[1..])
    ensures QuerySelectorAll(SetHeight(doc, selectors[0]), selectors[1..][k - 1]) == QuerySelectorAll(doc, selectors[k])
    ensures Offsets(SetHeight(doc, selectors[0]), QuerySelectorAll(doc, selectors[k]))
         == Offsets(doc, QuerySelectorAll(doc, selectors[k]))
  {
    var doc' := SetHeight(doc, selectors[0]);
    DisjointTail(doc, doc', selectors);
    DisjointOffsets(doc, selectors, k);
    assert selectors[1..][k - 1] == selectors[k];
  }

  /** When the groups are disjoint, `SetHeights` gives each element the
      largest `offsetHeight` of its own group, as measured before the call:
      a tall element in one group never affects another. */
  lemma {:induction false} SetHeightsGroups(doc: Document, selectors: seq<Selector>, k: nat, id: Id)
    requires Valid(doc) && Disjoint(doc, selectors)
    requires k < |selectors| && id in QuerySelectorAll(doc, selectors[k])
    ensures SetHeights(doc, selectors).elements[id].height.Px?
    ensures IsMaxOf(SetHeights(doc, selectors).elements[id].height.h, Offsets(doc, QuerySelectorAll(doc, selectors[k])))
    decreases |selectors|, 1
  {
    if k == 0 {
      SetHeightsFirstGroup(doc, selectors, id);
    } else {
      SetHeightsLaterGroup(doc, selectors, k, id);
    }
  }

  /** `SetHeightsGroups` for a group other than the first: the first
      `setHeight` leaves it alone, and the rest of the run sizes it. */
  lemma {:induction false} SetHeightsLaterGroup(doc: Document, selectors: seq<Selector>, k: nat, id: Id)
    requires Valid(doc) && Disjoint(doc, selectors)
    requires 0 < k < |selectors| && id in QuerySelectorAll(doc, selectors[k])
    ensures SetHeights(doc, selectors).elements[id].height.Px?
    ensures IsMaxOf(SetHeights(doc, selectors).elements[id].height.h, Offsets(doc, QuerySelectorAll(doc, selectors[k])))
    decreases |selectors|, 0
  {
    SetHeightsStep(doc, selectors, k);
    SetHeightsGroups(SetHeight(doc, selectors[0]), selectors[1..], k - 1, id);
  }

  /** What `matchHeights` returns: `false` when the disable rules suspend it,
      nothing when it runs to the end. */
  datatype Outcome = Suspended | Completed

  /** The returned value together with the document afterwards. */
  datatype Run = Run(outcome: Outcome, after: Document)

  /** `matchHeights(selectors, disabled)` at viewport width `width`. The
      clear phase always runs first, so when the rules suspend the run every
      matched element is left with no inline height; otherwise every matched
      element ends with one. Elements no selector matches, and all natural
      heights, are never touched. */
  function MatchHeights(doc: Document, selectors: seq<Selector>, disabled: seq<Rule>, width: int): (r: Run)
    requires Valid(doc)
    ensures Valid(r.after)
    ensures r.after.matches == doc.matches && r.after.elements.Keys == doc.elements.Keys
    ensures r.outcome == Suspended <==> AnySuspends(disabled, width)
    ensures forall id :: id in doc.elements ==> r.after.elements[id].natural == doc.elements[id].natural
    ensures forall id :: id in doc.elements && !IsMatched(doc, selectors, id) ==>
      r.after.elements[id] == doc.elements[id]
    ensures r.outcome == Suspended ==>
      forall id :: id in doc.elements && IsMatched(doc, selectors, id) ==> r.after.elements[id].height == Unset
    ensures r.outcome == Completed ==>
      forall id :: id in doc.elements && IsMatched(doc, selectors, id) ==> r.after.elements[id].height.Px?
  {
    var cleared := RemoveHeights(doc, selectors);
    if !ShouldRun(disabled, width) then Run(Suspended, cleared)
    else Run(Completed, SetHeights(cleared, selectors))
  }

  /** After the clear phase, every element of a group measures at its
      natural height. */
  lemma ClearedOffsets(doc: Document, selectors: seq<Selector>, k: nat)
    requires Valid(doc) && k < |selectors|
    ensures Offsets(RemoveHeights(doc, selectors), QuerySelectorAll(doc, selectors[k]))
         == Naturals(doc, QuerySelectorAll(doc, selectors[k]))
  {
    var group := QuerySelectorAll(doc, selectors[k]);
    forall i | 0 <= i < |group|
      ensures IsMatched(doc, selectors, group[i])
    {
      assert group[i] in QuerySelectorAll(doc, selectors[k]);
    }
  }

  /** When `matchHeights` is not suspended and the groups are disjoint, every
      element of a group ends with, as its inline height, the largest natural
      height in that group. */
  lemma MatchHeightsGroups(doc: Document, selectors: seq<Selector>, disabled: seq<Rule>, width: int, k: nat, id: Id)
    requires Valid(doc) && Disjoint(doc, selectors)
    requires k < |selectors| && id in QuerySelectorAll(doc, selectors[k])
    requires MatchHeights(doc, selectors, disabled, width).outcome == Completed
    ensures MatchHeights(doc, selectors, disabled, width).after.elements[id].height.Px?
    ensures IsMaxOf(MatchHeights(doc, selectors, disabled, width).after.elements[id].height.h,
                    Naturals(doc, QuerySelectorAll(doc, selectors[k])))
  {
    var cleared := RemoveHeights(doc, selectors);
    assert Disjoint(cleared, selectors);
    SetHeightsGroups(cleared, selectors, k, id);
    ClearedOffsets(doc, selectors, k);
  }
}
