/**
 Worked examples of the height matcher on small documents.
 */
module Scenarios {
  import opened Dom
  import opened Rules
  import opened Matcher

  /** Three cards of natural heights 120, 80 and 150 under one selector. */
  function Cards(): (doc: Document)
    ensures Valid(doc)
  {
    Document(map[1 := Element(120, Unset), 2 := Element(80, Unset), 3 := Element(150, Unset)],
             map[".card" := [1, 2, 3]])
  }

  /** The tallest of 120, 80 and 150 is 150. */
  lemma TallestCard(h: nat)
    requires IsMaxOf(h, [120, 80, 150])
    ensures h == 150
  {
    assert [120, 80, 150][2] <= h;
  }

  /** The card group, and the natural heights of its members. */
  lemma CardsGroup()
    ensures QuerySelectorAll(Cards(), [".card"][0]) == [1, 2, 3]
    ensures Naturals(Cards(), [1, 2, 3]) == [120, 80, 150]
  {
    var doc := Cards();
    var naturals := Naturals(doc, [1, 2, 3]);
    assert doc.elements[1].natural == 120 && doc.elements[2].natural == 80 && doc.elements[3].natural == 150;
    assert naturals[0] == 120 && naturals[1] == 80 && naturals[2] == 150;
  }

  /** With no disable rules, a card ends at 150 pixels. */
  lemma CardMatchesTallest(width: int, id: Id)
    requires id in [1, 2, 3]
    ensures MatchHeights(Cards(), [".card"], [], width).outcome == Completed
    ensures MatchHeights(Cards(), [".card"], [], width).after.elements[id].height == Px(150)
  {
    CardsGroup();
    MatchHeightsGroups(Cards(), [".card"], [], width, 0, id);
    TallestCard(MatchHeights(Cards(), [".card"], [], width).after.elements[id].height.h);
  }

  /** The rule `[0, 2000]` suspends the run at width 1024: the result is
      `false` and no card keeps an inline height. */
  lemma CardsSuspended()
    ensures MatchHeights(Cards(), [".card"], [Range(0, 2000)], 1024).outcome == Suspended
    ensures forall id :: id in Cards().elements ==>
      MatchHeights(Cards(), [".card"], [Range(0, 2000)], 1024).after.elements[id].height == Unset
  {
    var doc := Cards();
    forall id | id in doc.elements
      ensures IsMatched(doc, [".card"], id)
    {
      assert id in QuerySelectorAll(doc, [".card"][0]);
    }
  }

  /** The bare rule `768` suspends at width 500 but not at 900. */
  lemma BareBoundScenario()
    ensures !ShouldRun([Bound(768)], 500)
    ensures ShouldRun([Bound(768)], 900)
  {
  }

  /** A selector that matches nothing changes nothing. */
  lemma UnmatchedSelectorIsNoOp(doc: Document, selector: Selector, disabled: seq<Rule>, width: int)
    requires Valid(doc) && QuerySelectorAll(doc, selector) == []
    ensures MatchHeights(doc, [selector], disabled, width).after == doc
  {
    var after := MatchHeights(doc, [selector], disabled, width).after;
    forall id | id in doc.elements
      ensures after.elements[id] == doc.elements[id]
    {
      assert !IsMatched(doc, [selector], id);
    }
    assert after.elements == doc.elements;
  }

  /** Two overlapping groups: `.a` holds elements 1 and 2, `.b` holds 2 and
      3, with natural heights 100, 50 and 10. */
  function Overlapping(): (doc: Document)
    ensures Valid(doc)
  {
    Document(map[1 := Element(100, Unset), 2 := Element(50, Unset), 3 := Element(10, Unset)],
             map[".a" := [1, 2], ".b" := [2, 3]])
  }

  /** The clear phase changes nothing here: no element has an inline
      height yet. */
  lemma OverlapCleared()
    ensures RemoveHeights(Overlapping(), [".a", ".b"]) == Overlapping()
  {
    var doc := Overlapping();
    assert RemoveHeights(doc, [".a", ".b"]).elements == doc.elements;
  }

  /** `.a` is sized first: element 2 is forced to 100 pixels. */
  lemma OverlapFirstGroup()
    ensures SetHeight(Overlapping(), ".a").elements[2].height == Px(100)
    ensures SetHeight(Overlapping(), ".a").elements[3] == Element(10, Unset)
    ensures SetHeight(Overlapping(), ".a").matches == Overlapping().matches
  {
    var doc := Overlapping();
    assert QuerySelectorAll(doc, ".a") == [1, 2];
    var measured := Offsets(doc, [1, 2]);
    assert measured[0] == 100 && measured[1] == 50;
  }

  /** `.b` then measures element 2 at its forced 100 pixels. */
  lemma OverlapSecondGroup(d: Document)
    requires Valid(d) && d.matches == Overlapping().matches && 2 in d.elements && 3 in d.elements
    requires d.elements[2].height == Px(100) && d.elements[3] == Element(10, Unset)
    ensures SetHeight(d, ".b").elements[3].height == Px(100)
  {
    assert QuerySelectorAll(d, ".b") == [2, 3];
    var measured := Offsets(d, [2, 3]);
    assert measured[0] == 100 && measured[1] == 10;
  }

  /** The tallest natural height in group `.b` is 50. */
  lemma OverlapSecondGroupNaturals()
    ensures QuerySelectorAll(Overlapping(), ".b") == [2, 3]
    ensures IsMaxOf(50, Naturals(Overlapping(), [2, 3]))
  {
    var naturals := Naturals(Overlapping(), [2, 3]);
    assert naturals[0] == 50 && naturals[1] == 10;
  }

  /** With no disable rules, the run on the overlapping groups is the clear
      phase followed by `setHeight` on `.a` and then on `.b`. */
  lemma OverlapRun(width: int)
    ensures MatchHeights(Overlapping(), [".a", ".b"], [], width).after
         == SetHeight(SetHeight(Overlapping(), ".a"), ".b")
  {
    var doc := Overlapping();
    OverlapCleared();
    var afterA := SetHeight(doc, ".a");
    assert SetHeights(doc, [".a", ".b"]) == SetHeights(afterA, [".b"]);
    assert SetHeights(afterA, [".b"]) == SetHeights(SetHeight(afterA, ".b"), []);
  }

  /** With overlapping groups the second group measures the height the
      first group forced on the shared element: element 3 ends at 100
      pixels, although the tallest natural height in its group is 50. */
  lemma OverlapCarriesHeight(width: int)
    ensures MatchHeights(Overlapping(), [".a", ".b"], [], width).after.elements[3].height == Px(100)
  {
    OverlapRun(width);
    OverlapFirstGroup();
    OverlapSecondGroup(SetHeight(Overlapping(), ".a"));
  }
}
