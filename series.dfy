/** The two per-item series of the report: selector specificities and rule sizes. */
module Series {
  import opened Wrappers
  import opened FactBase

  /** The specificity of each selector in order, or nothing for an empty selector list. */
  method ParseSpecificity(selectors: seq<Selector>) returns (r: Option<seq<int>>)
    ensures r.None? <==> |selectors| == 0
    ensures r.Some? ==> |r.value| == |selectors|
    ensures r.Some? ==> forall i :: 0 <= i < |selectors| ==> r.value[i] == selectors[i].specificity10
  {
    if |selectors| == 0 {
      return None;
    }
    var values: seq<int> := [];
    for k := 0 to |selectors|
      invariant |values| == k
      invariant forall i :: 0 <= i < k ==> values[i] == selectors[i].specificity10
    {
      values := values + [selectors[k].specificity10];
    }
    r := Some(values);
  }

  /** The declaration count of each rule that has a declaration list, in rule order; a rule
      without one contributes nothing, a rule with an empty list contributes 0. */
  function DeclarationCounts(rules: seq<Rule>): seq<nat> {
    if |rules| == 0 then []
    else
      var init := DeclarationCounts(rules[..|rules| - 1]);
      match rules[|rules| - 1].declarations
      case None => init
      case Some(ds) => init + [|ds|]
  }

  /** The positions of the rules that have a declaration list. */
  function KeptIndices(rules: seq<Rule>): seq<nat> {
    if |rules| == 0 then []
    else
      var init := KeptIndices(rules[..|rules| - 1]);
      if rules[|rules| - 1].declarations.Some? then init + [|rules| - 1] else init
  }

  /** The rule-size series has one entry per rule with a declaration list: the `j`th entry is
      the size of the `j`th such rule, these positions increase, and no such rule is missed. */
  lemma {:induction false} CountsFollowKeptRules(rules: seq<Rule>)
    ensures |KeptIndices(rules)| == |DeclarationCounts(rules)| <= |rules|
    ensures forall j :: 0 <= j < |KeptIndices(rules)| ==>
      && KeptIndices(rules)[j] < |rules|
      && rules[KeptIndices(rules)[j]].declarations.Some?
      && DeclarationCounts(rules)[j] == |rules[KeptIndices(rules)[j]].declarations.value|
    ensures forall j, k :: 0 <= j < k < |KeptIndices(rules)| ==> KeptIndices(rules)[j] < KeptIndices(rules)[k]
    ensures forall i :: 0 <= i < |rules| && rules[i].declarations.Some? ==> i in KeptIndices(rules)
  {
    if |rules| > 0 {
      var init := rules[..|rules| - 1];
      CountsFollowKeptRules(init);
      assert forall i :: 0 <= i < |init| ==> init[i] == rules[i];
    }
  }

  /** The series of a concatenation is the concatenation of the series. */
  lemma {:induction false} CountsOfAppend(a: seq<Rule>, b: seq<Rule>)
    ensures DeclarationCounts(a + b) == DeclarationCounts(a) + DeclarationCounts(b)
  {
    if |b| > 0 {
      var b' := b[..|b| - 1];
      assert (a + b)[..|a + b| - 1] == a + b';
      assert (a + b)[|a + b| - 1] == b[|b| - 1];
      CountsOfAppend(a, b');
    } else {
      assert a + b == a;
    }
  }

  /** The size of every rule with a declaration list, skipping the others. */
  method RulesizeGraph(rules: seq<Rule>) returns (r: seq<nat>)
    ensures r == DeclarationCounts(rules)
  {
    r := [];
    for k := 0 to |rules|
      invariant r == DeclarationCounts(rules[..k])
    {
      assert rules[..k + 1][..k] == rules[..k];
      if rules[k].declarations.Some? {
        r := r + [|rules[k].declarations.value|];
      }
    }
    assert rules[..|rules|] == rules;
  }
}
