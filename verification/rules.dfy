/**
 Disable rules: viewport-width intervals inside which height matching is
 suspended, and the `shouldRun` check over a list of them.
 */
module Rules {

  /** A disable rule: a bare number `max` (read as the interval from 0), or a
      `[min, max]` pair. */
  datatype Rule = Bound(max: int) | Range(min: int, max: int)

  /** The lower end of a rule's interval: 0 for a bare number. */
  function Lo(rule: Rule): int
  {
    match rule
    case Bound(_) => 0
    case Range(min, _) => min
  }

  /** The upper end of a rule's interval. */
  function Hi(rule: Rule): int
  {
    rule.max
  }

  /** The rule suspends matching at `width` when the width lies strictly
      inside its open interval. */
  predicate Suspends(rule: Rule, width: int)
  {
    Lo(rule) < width && width < Hi(rule)
  }

  /** True when some rule of the list suspends matching at `width`. */
  ghost predicate AnySuspends(rules: seq<Rule>, width: int)
  {
    exists i :: 0 <= i < |rules| && Suspends(rules[i], width)
  }

  /** The `forEach` loop of `shouldRun`: the flag starts as given and is
      lowered by every rule that suspends; nothing ever raises it again. */
  function RunFold(rules: seq<Rule>, width: int, flag: bool): (r: bool)
    ensures r <==> flag && !AnySuspends(rules, width)
    decreases |rules|
  {
    if |rules| == 0 then flag
    else
      var flag' := if Suspends(rules[0], width) then false else flag;
      var r := RunFold(rules[1..], width, flag');
      assert AnySuspends(rules, width) <==>
        Suspends(rules[0], width) || AnySuspends(rules[1..], width) by {
        if AnySuspends(rules[1..], width) {
          var i :| 0 <= i < |rules[1..]| && Suspends(rules[1..][i], width);
          assert rules[i + 1] == rules[1..][i];
        }
        if AnySuspends(rules, width) && !Suspends(rules[0], width) {
          var i :| 0 <= i < |rules| && Suspends(rules[i], width);
          assert rules[1..][i - 1] == rules[i];
        }
      }
      r
  }

  /** `shouldRun(rules)` at viewport width `width`: false exactly when some
      rule holds the width strictly inside its interval. */
  function ShouldRun(rules: seq<Rule>, width: int): (r: bool)
    ensures r <==> !AnySuspends(rules, width)
    ensures |rules| == 0 ==> r
  {
    RunFold(rules, width, true)
  }

  /** A bare number `max` behaves exactly as the pair `[0, max]`, wherever
      it stands in the rule list. */
  lemma BoundIsRangeFromZero(before: seq<Rule>, max: int, after: seq<Rule>, width: int)
    ensures ShouldRun(before + [Bound(max)] + after, width) == ShouldRun(before + [Range(0, max)] + after, width)
  {
    ShouldRunAppend(before + [Bound(max)], after, width);
    ShouldRunAppend(before, [Bound(max)], width);
    ShouldRunAppend(before + [Range(0, max)], after, width);
    ShouldRunAppend(before, [Range(0, max)], width);
  }

  /** A width equal to either end of a rule's interval never suspends the
      run on that rule; a width strictly between the ends always does. */
  lemma StrictBounds(rule: Rule, width: int)
    ensures ShouldRun([rule], Lo(rule)) && ShouldRun([rule], Hi(rule))
    ensures Lo(rule) < width < Hi(rule) <==> !ShouldRun([rule], width)
  {
    assert [rule][0] == rule;
  }

  /** Once a rule has lowered the flag, the remaining rules cannot raise it. */
  lemma {:induction false} RunFoldLatches(rules: seq<Rule>, width: int)
    ensures !RunFold(rules, width, false)
  {
  }

  /** Checking a list in two parts is checking both parts. */
  lemma {:induction false} ShouldRunAppend(a: seq<Rule>, b: seq<Rule>, width: int)
    ensures ShouldRun(a + b, width) <==> ShouldRun(a, width) && ShouldRun(b, width)
  {
    if !ShouldRun(a, width) {
      var i :| 0 <= i < |a| && Suspends(a[i], width);
      assert (a + b)[i] == a[i];
    }
    if !ShouldRun(b, width) {
      var i :| 0 <= i < |b| && Suspends(b[i], width);
      assert (a + b)[|a| + i] == b[i];
    }
  }

  /** Once some prefix of the rules suspends matching, the whole list does. */
  lemma {:induction false} SuspendedPrefixSuspends(rules: seq<Rule>, k: nat, width: int)
    requires k <= |rules|
    requires !ShouldRun(rules[..k], width)
    ensures !ShouldRun(rules, width)
  {
    assert rules == rules[..k] + rules[k..];
    ShouldRunAppend(rules[..k], rules[k..], width);
  }

  /** The rules are ORed, so their order (and multiplicity) does not matter:
      lists with the same rules give the same verdict. */
  lemma {:induction false} ShouldRunOrderIndependent(a: seq<Rule>, b: seq<Rule>, width: int)
    requires forall rule :: rule in a <==> rule in b
    ensures ShouldRun(a, width) == ShouldRun(b, width)
  {
    if !ShouldRun(a, width) {
      var i :| 0 <= i < |a| && Suspends(a[i], width);
      assert a[i] in b;
    }
    if !ShouldRun(b, width) {
      var i :| 0 <= i < |b| && Suspends(b[i], width);
      assert b[i] in a;
    }
  }
}
