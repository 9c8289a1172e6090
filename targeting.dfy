/** URL targeting of the decision engine (`checkTargeting` in
    src/decision/services/DecisionService.py): does an experiment apply to
    a request URL? */
module Targeting {
  import opened Entities

  /** `p` occurs in `s` starting at position `k`. */
  predicate OccursAt(p: string, s: string, k: int)
  {
    0 <= k && k + |p| <= |s| && s[k..k + |p|] == p
  }

  lemma {:induction false} OccursAtShift(p: string, s: string, k: int)
    requires |s| > 0 && 0 <= k
    ensures OccursAt(p, s[1..], k) <==> OccursAt(p, s, k + 1)
  {
    if 0 <= k && k + |p| <= |s| - 1 {
      assert s[1..][k..k + |p|] == s[k + 1..k + 1 + |p|];
    }
  }

  /** Python's `p in s` on strings: `p` is a contiguous piece of `s`
      (the empty string is a piece of every string). */
  function IsSubstring(p: string, s: string): (r: bool)
    ensures r <==> exists k :: OccursAt(p, s, k)
    decreases |s|
  {
    if |p| > |s| then
      false
    else if s[..|p|] == p then
      assert OccursAt(p, s, 0);
      true
    else
      var r := IsSubstring(p, s[1..]);
      assert r ==> exists k :: OccursAt(p, s, k) by {
        if r {
          var k :| OccursAt(p, s[1..], k);
          OccursAtShift(p, s, k);
        }
      }
      assert (exists k :: OccursAt(p, s, k)) ==> r by {
        if k :| OccursAt(p, s, k) {
          assert k != 0;
          OccursAtShift(p, s, k - 1);
        }
      }
      r
  }

  /** The truth value one condition contributes for `url`: a positive
      operator needs some pattern to hit, a negative one needs no pattern
      to hit. */
  predicate ConditionHolds(c: Condition, url: string)
  {
    match c.operator
    case IS => exists i :: 0 <= i < |c.urls| && c.urls[i] == url
    case CONTAIN => exists i :: 0 <= i < |c.urls| && IsSubstring(c.urls[i], url)
    case IS_NOT => forall i :: 0 <= i < |c.urls| ==> c.urls[i] != url
    case NOT_CONTAIN => forall i :: 0 <= i < |c.urls| ==> !IsSubstring(c.urls[i], url)
  }

  /** An experiment applies to `url` when it has no conditions, or when
      all (ALL) or some (any other type) of its conditions hold. */
  predicate Targets(exp: Experiment, url: string)
  {
    var cs := exp.conditions;
    if |cs| == 0 then true
    else if exp.conditionType == ALL then forall i :: 0 <= i < |cs| ==> ConditionHolds(cs[i], url)
    else exists i :: 0 <= i < |cs| && ConditionHolds(cs[i], url)
  }

  /** One condition, evaluated with the source's flag-and-break loops. */
  method EvaluateCondition(cond: Condition, url: string) returns (isMatch: bool)
    ensures isMatch == ConditionHolds(cond, url)
  {
    isMatch := false;
    if cond.operator == IS || cond.operator == CONTAIN {
      var k := 0;
      while k < |cond.urls|
        invariant 0 <= k <= |cond.urls|
        invariant !isMatch
        invariant cond.operator == IS ==> forall j :: 0 <= j < k ==> cond.urls[j] != url
        invariant cond.operator == CONTAIN ==> forall j :: 0 <= j < k ==> !IsSubstring(cond.urls[j], url)
      {
        var condUrl := cond.urls[k];
        if cond.operator == CONTAIN && IsSubstring(condUrl, url) {
          isMatch := true;
          break;
        }
        if cond.operator == IS && condUrl == url {
          isMatch := true;
          break;
        }
        k := k + 1;
      }
    } else if cond.operator == IS_NOT || cond.operator == NOT_CONTAIN {
      isMatch := true;
      var k := 0;
      while k < |cond.urls|
        invariant 0 <= k <= |cond.urls|
        invariant isMatch
        invariant cond.operator == IS_NOT ==> forall j :: 0 <= j < k ==> cond.urls[j] != url
        invariant cond.operator == NOT_CONTAIN ==> forall j :: 0 <= j < k ==> !IsSubstring(cond.urls[j], url)
      {
        var condUrl := cond.urls[k];
        if cond.operator == NOT_CONTAIN && IsSubstring(condUrl, url) {
          isMatch := false;
          break;
        }
        if cond.operator == IS_NOT && condUrl == url {
          isMatch := false;
          break;
        }
        k := k + 1;
      }
    }
  }

  /** `checkTargeting`: collects each condition's value in `matches`,
      then combines them with `all` or `any`. */
  method CheckTargeting(exp: Experiment, url: string) returns (r: bool)
    ensures r == Targets(exp, url)
  {
    if |exp.conditions| == 0 {
      return true;
    }
    var matches: seq<bool> := [];
    var n := 0;
    while n < |exp.conditions|
      invariant 0 <= n <= |exp.conditions|
      invariant |matches| == n
      invariant forall j :: 0 <= j < n ==> matches[j] == ConditionHolds(exp.conditions[j], url)
    {
      var isMatch := EvaluateCondition(exp.conditions[n], url);
      matches := matches + [isMatch];
      n := n + 1;
    }
    if exp.conditionType == ALL {
      r := forall j :: 0 <= j < |matches| ==> matches[j];
    } else {
      r := exists j :: 0 <= j < |matches| && matches[j];
    }
  }

  /** A condition with no patterns: positive operators never hold,
      negative operators always hold. */
  lemma EmptyPatternList(c: Condition, url: string)
    requires c.urls == []
    ensures ConditionHolds(c, url) <==> (c.operator == IS_NOT || c.operator == NOT_CONTAIN)
  {
  }

  /** Targeting examples: CONTAIN ["/pricing"] under
      ANY matches a pricing page; IS_NOT ["/checkout"] rejects exactly
      "/checkout". */
  lemma TargetingExamples(exp: Experiment, c: Condition)
    requires c.operator == CONTAIN && c.urls == ["/pricing"]
    requires exp.conditions == [c] && exp.conditionType == ANY
    ensures Targets(exp, "https://site.com/pricing/enterprise")
    ensures Targets(exp.(conditions := [c.(operator := IS_NOT, urls := ["/checkout"])]), "/cart")
    ensures !Targets(exp.(conditions := [c.(operator := IS_NOT, urls := ["/checkout"])]), "/checkout")
  {
    var url := "https://site.com/pricing/enterprise";
    assert OccursAt("/pricing", url, 16);
    assert IsSubstring(c.urls[0], url);
    assert ConditionHolds(exp.conditions[0], url);
    var c' := c.(operator := IS_NOT, urls := ["/checkout"]);
    var exp' := exp.(conditions := [c']);
    assert exp'.conditions[0] == c' && c'.urls[0] == "/checkout";
    assert ConditionHolds(exp'.conditions[0], "/cart");
    assert !ConditionHolds(c', "/checkout");
  }
}
