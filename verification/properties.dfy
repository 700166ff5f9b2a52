/**
 Properties that relate several runs of the height matcher, or several
 elements of one run.
 */
module Properties {
  import opened Dom
  import opened Rules
  import opened Matcher

  /** The largest value of a list, or 0 for the empty list, is unique. */
  lemma IsMaxOfUnique(a: nat, b: nat, hs: seq<nat>)
    requires IsMaxOf(a, hs) && IsMaxOf(b, hs)
    ensures a == b
  {
    if |hs| > 0 {
      var i :| 0 <= i < |hs| && hs[i] == a;
      var j :| 0 <= j < |hs| && hs[j] == b;
      assert hs[j] <= a && hs[i] <= b;
    }
  }

  /** `getMinHeight` of no elements is 0; of some, it is the `offsetHeight`
      of one of them and no smaller than any. */
  lemma GetMinHeightBounds(es: seq<Element>)
    ensures |es| == 0 ==> GetMinHeight(es) == 0
    ensures forall i :: 0 <= i < |es| ==> OffsetHeight(es[i]) <= GetMinHeight(es)
    ensures |es| > 0 ==> exists i :: 0 <= i < |es| && OffsetHeight(es[i]) == GetMinHeight(es)
  {
    var hs := OffsetsOf(es);
    if |es| > 0 {
      var i :| 0 <= i < |hs| && hs[i] == GetMinHeight(es);
      assert OffsetHeight(es[i]) == GetMinHeight(es);
    }
  }

  /** Clearing is idempotent: a second `removeHeights` over the same
      selectors changes nothing. */
  lemma RemoveHeightsIdempotent(doc: Document, selectors: seq<Selector>)
    requires Valid(doc)
    ensures RemoveHeights(RemoveHeights(doc, selectors), selectors) == RemoveHeights(doc, selectors)
  {
    var once := RemoveHeights(doc, selectors);
    var twice := RemoveHeights(once, selectors);
    forall id | id in once.elements
      ensures twice.elements[id] == once.elements[id]
    {
      IsMatchedSameTable(once, doc, selectors, id);
    }
    assert twice.elements == once.elements;
  }

  /** A run forgets the inline heights earlier runs left on the matched
      elements: two documents that differ only there give the same result. */
  lemma MatchHeightsForgetsStyles(d1: Document, d2: Document, selectors: seq<Selector>, disabled: seq<Rule>, width: int)
    requires Valid(d1) && SameUpToMatchedStyles(d1, d2, selectors)
    ensures Valid(d2)
    ensures MatchHeights(d1, selectors, disabled, width) == MatchHeights(d2, selectors, disabled, width)
  {
    var c1 := RemoveHeights(d1, selectors);
    var c2 := RemoveHeights(d2, selectors);
    forall id | id in d1.elements
      ensures c1.elements[id] == c2.elements[id]
    {
      IsMatchedSameTable(d1, d2, selectors, id);
    }
    assert c1.elements == c2.elements;
  }

  /** Running `matchHeights` again, with the same selectors, rules and
      width, leaves the document and the result as the first run did. */
  lemma MatchHeightsIdempotent(doc: Document, selectors: seq<Selector>, disabled: seq<Rule>, width: int)
    requires Valid(doc)
    ensures MatchHeights(MatchHeights(doc, selectors, disabled, width).after, selectors, disabled, width)
         == MatchHeights(doc, selectors, disabled, width)
  {
    var first := MatchHeights(doc, selectors, disabled, width);
    forall id | id in first.after.elements
      ensures IsMatched(first.after, selectors, id) <==> IsMatched(doc, selectors, id)
    {
      IsMatchedSameTable(first.after, doc, selectors, id);
    }
    MatchHeightsForgetsStyles(first.after, doc, selectors, disabled, width);
  }

  /** A later run forgets the earlier one entirely: whatever rules and width
      the earlier run used, the later run gives what it would have given on
      the original document. This covers a `resize` trigger, which reruns at
      a new width. */
  lemma MatchHeightsRerun(doc: Document, selectors: seq<Selector>,
                          disabled1: seq<Rule>, width1: int, disabled2: seq<Rule>, width2: int)
    requires Valid(doc)
    ensures MatchHeights(MatchHeights(doc, selectors, disabled1, width1).after, selectors, disabled2, width2)
         == MatchHeights(doc, selectors, disabled2, width2)
  {
    var first := MatchHeights(doc, selectors, disabled1, width1);
    forall id | id in first.after.elements
      ensures IsMatched(first.after, selectors, id) <==> IsMatched(doc, selectors, id)
    {
      IsMatchedSameTable(first.after, doc, selectors, id);
    }
    MatchHeightsForgetsStyles(first.after, doc, selectors, disabled2, width2);
  }

  /** All members of one group end at the same height. */
  lemma MatchHeightsEqualInGroup(doc: Document, selectors: seq<Selector>, disabled: seq<Rule>, width: int,
                                 k: nat, a: Id, b: Id)
    requires Valid(doc) && Disjoint(doc, selectors)
    requires k < |selectors| && a in QuerySelectorAll(doc, selectors[k]) && b in QuerySelectorAll(doc, selectors[k])
    requires MatchHeights(doc, selectors, disabled, width).outcome == Completed
    ensures MatchHeights(doc, selectors, disabled, width).after.elements[a].height
         == MatchHeights(doc, selectors, disabled, width).after.elements[b].height
  {
    var after := MatchHeights(doc, selectors, disabled, width).after;
    var group := QuerySelectorAll(doc, selectors[k]);
    MatchHeightsGroups(doc, selectors, disabled, width, k, a);
    MatchHeightsGroups(doc, selectors, disabled, width, k, b);
    IsMaxOfUnique(after.elements[a].height.h, after.elements[b].height.h, Naturals(doc, group));
  }
}
