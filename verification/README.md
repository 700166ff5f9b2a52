# vue-match-heights: a Dafny model of the height matcher

vue-match-heights is a Vue directive. It gives every element of a group the
same height. A group is the set of elements one CSS selector matches. The
directive can be suspended within configured viewport-width ranges. This
project models the core of `src/index.js`: the pure algorithm behind the
directive.

1. The clear phase (`removeHeights`) drops the inline height of every
   element any selector matches.
2. The suspension check (`shouldRun`) tests the viewport width against the
   disable rules.
3. Unless the run is suspended, the measure-and-apply phase runs for each
   selector in turn. `getMinHeight` takes the largest `offsetHeight` in the
   group, and `setHeight` writes it as the inline height of every member.

The DOM is abstract (`dom.dfy`). A `Document` maps each element id to an
`Element`. Each element has a natural height and an inline `height` style
(`Unset` or `Px(h)`). `offsetHeight` is the inline height when one is set,
and the natural height otherwise. The document also maps each selector to the
sequence of ids `querySelectorAll` returns. A selector missing from that table
matches nothing. `Valid(doc)` states the one assumption the DOM guarantees:
a query only returns elements that exist.

Disable rules (`rules.dfy`) are `Bound(max)`, for the bare number in the
source, or `Range(min, max)`, for the `[min, max]` pair. `shouldRun` is
modelled as the source's `forEach` loop: a left fold whose flag only ever
changes from true to false. `matchHeights` (`matcher.dfy`) returns a `Run`.
A `Run` holds an `Outcome` and the document afterwards. `Suspended` stands
for the source's `return false`. `Completed` stands for falling off the end,
which returns `undefined`. The viewport width `window.innerWidth` is an
integer parameter.

`properties.dfy` relates several runs, or several elements of one run.
`scenarios.dfy` works through small concrete documents.

## Model

| member | source | states |
|---|---|---|
| `Dom.QuerySelectorAll` | src/index.js:17 | a selector that matches nothing yields the empty sequence; every id returned names an element of the document |
| `Rules.RunFold` | src/index.js:65-77 | the loop's flag ends true exactly when it started true and no rule holds the width strictly inside its interval |
| `Rules.ShouldRun` | src/index.js:64-80 | false exactly when some rule has min < width < max; an empty rule list always allows the run |
| `Rules.BoundIsRangeFromZero` | src/index.js:67-72 | replacing a bare number `max` by the pair `[0, max]`, anywhere in a rule list, never changes `shouldRun`'s verdict |
| `Rules.StrictBounds` | src/index.js:74 | `shouldRun` on a single rule allows the run at either end of its interval, and suspends it exactly at the widths strictly between |
| `Rules.RunFoldLatches` | src/index.js:65-77 | once the flag is false, no later rule sets it back to true |
| `Rules.ShouldRunAppend` | src/index.js:66-77 | the verdict on a concatenation of rule lists is the conjunction of the verdicts on the parts |
| `Rules.SuspendedPrefixSuspends` | src/index.js:74-76 | if some prefix of the rules suspends the run, the whole list does |
| `Rules.ShouldRunOrderIndependent` | src/index.js:66-77 | two lists holding the same rules, in any order or multiplicity, give the same verdict |
| `Matcher.RemoveHeight` | src/index.js:6-8 | the inline height is gone; the element keeps its natural height and afterwards measures at it |
| `Matcher.StyleEach` | src/index.js:18-20 | every listed element gets the style, repeats included; every other element and the key set are unchanged |
| `Matcher.RemoveHeights` | src/index.js:15-22 | every element some selector matches has its inline height removed; every other element and the selector table are unchanged |
| `Matcher.MaxFrom` | src/index.js:32-39 | the running value never decreases and ends at least every element's `offsetHeight`, and equal to the start or to one of them |
| `Matcher.GetMinHeight` | src/index.js:31-41 | the result is the largest `offsetHeight` of the elements, or 0 when there are none |
| `Matcher.SetHeight` | src/index.js:48-55 | every member of the group gets an inline height equal to the largest `offsetHeight` in the group before the call; natural heights and non-members are unchanged |
| `Matcher.SetHeights` | src/index.js:96 | every matched element ends with an inline height; unmatched elements and natural heights are unchanged |
| `Matcher.SetHeightsGroups` | src/index.js:96 | with disjoint groups, each element ends at the largest `offsetHeight` of its own group as measured before the loop |
| `Matcher.SetHeightsLaterGroup` | src/index.js:96 | with disjoint groups, a group after the first is sized by the rest of the loop from its original measurements |
| `Matcher.MatchHeights` | src/index.js:88-97 | returns `Suspended` exactly when some rule holds the width strictly inside; when suspended, every matched element is left with no inline height; otherwise every matched element has one; unmatched elements and natural heights never change |
| `Matcher.ClearedOffsets` | src/index.js:90-96 | after the clear phase every member of every group measures at its natural height |
| `Matcher.MatchHeightsGroups` | src/index.js:88-97 | when not suspended and the groups are disjoint, every member ends with the largest natural height of its group |
| `Properties.IsMaxOfUnique` | src/index.js:32-40 | the value `getMinHeight` characterises is unique |
| `Properties.GetMinHeightBounds` | src/index.js:31-41 | `getMinHeight` of no elements is 0; otherwise it is at least every `offsetHeight` and equal to one of them |
| `Properties.RemoveHeightsIdempotent` | src/index.js:15-22 | clearing twice gives the same document as clearing once |
| `Properties.MatchHeightsForgetsStyles` | src/index.js:88-97 | two documents differing only in the inline heights of matched elements give identical runs |
| `Properties.MatchHeightsIdempotent` | src/index.js:88-97 | a second run with the same selectors, rules and width reproduces the first run's result and document |
| `Properties.MatchHeightsRerun` | src/index.js:88-97 | a run on the document an earlier run left, with any rules and width, equals the run on the original document: the earlier run is forgotten |
| `Properties.MatchHeightsEqualInGroup` | src/index.js:50-54 | when not suspended with disjoint groups, all members of one group end at the same height |
| `Scenarios.CardMatchesTallest` | src/index.js:88-97 | cards of natural heights 120, 80 and 150 with no disable rules all end at 150 pixels |
| `Scenarios.CardsSuspended` | src/index.js:90-93 | the rule `[0, 2000]` at width 1024 suspends the run and leaves every card with no inline height |
| `Scenarios.BareBoundScenario` | src/index.js:67-76 | the bare rule 768 suspends at width 500 and not at 900 |
| `Scenarios.UnmatchedSelectorIsNoOp` | src/index.js:88-97 | a run over one selector that matches nothing leaves the document unchanged, whatever the rules and width |
| `Scenarios.OverlapSecondGroupNaturals` | src/index.js:49 | in the overlapping example, the second group holds elements 2 and 3, whose tallest natural height is 50 |
| `Scenarios.OverlapCarriesHeight` | src/index.js:49-54 | in the overlapping example, element 3 ends at 100 pixels, because the second group measures the height the first group forced on the shared element |

## Left out

- The default arguments `selectors = []` and `disabled = []` of `matchHeights` (src/index.js:88): an omitted argument is passed as the empty sequence.
- The `plugin` function and the Vue directive registration (src/index.js:100-139): the `bind`, `inserted` and `unbind` hooks, `Vue.nextTick`, `console.log`, and the module-level default `options.disabled`. These are framework glue. A call site's `disabled || options.disabled || []` amounts to passing a rule list in.
- Event wiring: window `resize`, image `load` and the custom `matchheight` listeners. This is event delivery, not logic. What a repeated trigger does to the document is covered instead. `MatchHeightsRerun` shows that a rerun at a new width, or with new rules, forgets the previous run. `MatchHeightsForgetsStyles` shows that a rerun depends only on natural heights, such as the new ones after an image loads, and never on heights forced earlier.
- Real DOM semantics: selector matching, CSS layout and how `offsetHeight` is computed. These are abstracted as a fixed selector table and a natural height per element. The model assumes the table does not change during a run; the source re-queries it at src/index.js:17 and src/index.js:49. A forced `Px(h)` measures as exactly `h`, which matches the DOM only under `box-sizing: border-box`. Under the default content-box sizing, `offsetHeight` adds padding and border to the forced height, so the 100 pixels of `Scenarios.OverlapCarriesHeight` would grow by them.
- The `${height}px` string formatting. Heights are natural numbers of pixels.
- JavaScript numbers: widths and rule bounds are integers here. Fractional bounds are not modelled.
- Malformed rules: a pair of the wrong length, a string, or `null`, which `typeof` reports as `'object'`. None of these is modelled. Only the number and two-element-pair shapes are.
- Matcher.SetHeightsGroups: states the group maximum only for disjoint groups. With overlapping selectors, a later group measures a height an earlier group forced. The result then depends on the order, and only "every matched element ends with an inline height" is stated, in `Matcher.SetHeights`.
- Matcher.MatchHeightsGroups: the same restriction to disjoint groups. With overlapping selectors, a later group measures the height an earlier group forced on a shared element. One group's tallest element can then change another group's height; `Scenarios.OverlapCarriesHeight` proves such a case.
- Matcher.MatchHeights: the model has no exceptions. In the source, `document.querySelectorAll` throws a SyntaxError on a selector it cannot parse (src/index.js:17). The run then aborts partway through the clear phase: earlier groups are cleared, nothing is sized and nothing is returned. The model instead reads such a selector as matching nothing. A non-array `selectors`, such as a bare string, throws a TypeError at `selectors.forEach` (src/index.js:16); `seq<Selector>` cannot express that input.
- The generated bundles `dist/vue-match-heights.js` and `dist/vue-match-heights.common.js`. They repeat the same functions in UMD and CommonJS wrappers.
