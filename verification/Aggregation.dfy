/** `EvaluateRules`: one result per rule that does not err, and the most severe matched action. */
module Aggregation {
  import opened Common
  import opened GoValues
  import opened Evaluator

  datatype CachedRule = CachedRule(id: string, name: string, version: int, expression: Node, action: string,
                                   priority: int)

  datatype RuleAction = UNSPECIFIED | APPROVE | FLAG | REVIEW | BLOCK

  /** The rules engine's answer to one request. */
  datatype Response = Response(results: seq<RuleResult>, aggregate: RuleAction)

  datatype RuleResult = RuleResult(ruleId: string, ruleName: string, matched: bool, action: RuleAction, reason: string)

  /** `actionPriority`, with Go's zero for a missing key. */
  function Severity(action: string): int {
    if action == "approve" then 1 else if action == "flag" then 2
    else if action == "review" then 3 else if action == "block" then 4 else 0
  }

  function ActionToProto(action: string): RuleAction {
    if action == "approve" then APPROVE else if action == "flag" then FLAG
    else if action == "review" then REVIEW else if action == "block" then BLOCK else UNSPECIFIED
  }

  function ActionFromProto(a: RuleAction): string {
    match a
    case UNSPECIFIED => ""
    case APPROVE => "approve"
    case FLAG => "flag"
    case REVIEW => "review"
    case BLOCK => "block"
  }

  /** The action `CreateRule` and `UpdateRule` store for a requested one. */
  function StoredAction(requested: RuleAction): string {
    if ActionFromProto(requested) == "" then "flag" else ActionFromProto(requested)
  }

  predicate KnownAction(action: string) { action in {"approve", "flag", "review", "block"} }

  /** Every action that reaches the table through the handlers maps to a specified proto value and back. */
  lemma StoredActionsAreSpecified(requested: RuleAction)
    ensures ActionToProto(StoredAction(requested)) != UNSPECIFIED
    ensures ActionFromProto(ActionToProto(StoredAction(requested))) == StoredAction(requested)
    ensures requested != UNSPECIFIED ==> ActionToProto(StoredAction(requested)) == requested
  {}

  function ResultOf(r: CachedRule, v: Verdict): RuleResult
    requires v.Done?
  {
    RuleResult(r.id, r.name, v.matched, ActionToProto(r.action), v.reason)
  }

  /** The results of the rules that do not err, in rule order. */
  function Results(lib: Lib, rules: seq<CachedRule>, ctx: PaymentContext): seq<RuleResult> {
    if rules == [] then []
    else
      var n := |rules| - 1;
      var v := Eval(lib, rules[n].expression, ctx);
      Results(lib, rules[..n], ctx) + if v.Done? then [ResultOf(rules[n], v)] else []
  }

  predicate Fires(lib: Lib, r: CachedRule, ctx: PaymentContext) {
    Eval(lib, r.expression, ctx).Matches()
  }

  /** Some rule with this action fires. */
  ghost predicate Fired(action: string, lib: Lib, rules: seq<CachedRule>, ctx: PaymentContext) {
    exists r :: r in rules && r.action == action && Fires(lib, r, ctx)
  }

  /** "block" if any rule that blocks fires, else "review" if any that reviews does, else "flag", else "approve". */
  ghost predicate IsAggregate(a: string, lib: Lib, rules: seq<CachedRule>, ctx: PaymentContext) {
    a == if Fired("block", lib, rules, ctx) then "block"
         else if Fired("review", lib, rules, ctx) then "review"
         else if Fired("flag", lib, rules, ctx) then "flag"
         else "approve"
  }

  /** So it is "approve" joined with the most severe action that fires: it bounds every one and is one of them. */
  lemma AggregateIsJoin(a: string, lib: Lib, rules: seq<CachedRule>, ctx: PaymentContext)
    requires IsAggregate(a, lib, rules, ctx)
    ensures KnownAction(a)
    ensures forall r :: r in rules && Fires(lib, r, ctx) ==> Severity(r.action) <= Severity(a)
    ensures a == "approve" || Fired(a, lib, rules, ctx)
  {
    forall r | r in rules && Fires(lib, r, ctx) ensures Severity(r.action) <= Severity(a) {
      assert Fired(r.action, lib, rules, ctx);
    }
  }

  lemma FiredSnoc(action: string, lib: Lib, rules: seq<CachedRule>, r: CachedRule, ctx: PaymentContext)
    ensures Fired(action, lib, rules + [r], ctx) <==>
            Fired(action, lib, rules, ctx) || (r.action == action && Fires(lib, r, ctx))
  {
    if Fired(action, lib, rules, ctx) {
      var x :| x in rules && x.action == action && Fires(lib, x, ctx);
      assert x in rules + [r];
    }
    assert r in rules + [r];
  }

  /** One turn of the loop: the next rule raises the aggregate if it fires and is more severe. */
  lemma AggregateStep(lib: Lib, rules: seq<CachedRule>, r: CachedRule, ctx: PaymentContext, a: string)
    requires IsAggregate(a, lib, rules, ctx)
    ensures var raised := Fires(lib, r, ctx) && Severity(r.action) > Severity(a);
            IsAggregate(if raised then r.action else a, lib, rules + [r], ctx)
  {
    FiredSnoc("block", lib, rules, r, ctx);
    FiredSnoc("review", lib, rules, r, ctx);
    FiredSnoc("flag", lib, rules, r, ctx);
  }

  /** The aggregation loop of `EvaluateRules`, given the loaded rules. */
  method EvaluateRules(lib: Lib, rules: seq<CachedRule>, ctx: PaymentContext)
    returns (results: seq<RuleResult>, aggregate: string)
    ensures results == Results(lib, rules, ctx)
    ensures IsAggregate(aggregate, lib, rules, ctx)
  {
    results, aggregate := [], "approve";
    assert forall action :: !Fired(action, lib, [], ctx);
    var i := 0;
    while i < |rules|
      invariant 0 <= i <= |rules|
      invariant results == Results(lib, rules[..i], ctx)
      invariant IsAggregate(aggregate, lib, rules[..i], ctx)
    {
      var r := rules[i];
      assert rules[..i + 1] == rules[..i] + [r];
      assert rules[..i + 1][..i] == rules[..i];
      AggregateStep(lib, rules[..i], r, ctx, aggregate);
      var v := EvalNode(lib, r.expression, ctx);
      i := i + 1;
      if v.Error? { continue; }
      results := results + [ResultOf(r, v)];
      if v.matched && Severity(r.action) > Severity(aggregate) {
        aggregate := r.action;
      }
    }
    assert rules[..|rules|] == rules;
  }

  lemma SameRulesFire(action: string, lib: Lib, rules: seq<CachedRule>, rules': seq<CachedRule>, ctx: PaymentContext)
    requires forall r :: Fires(lib, r, ctx) ==> (r in rules ==> r in rules')
    ensures Fired(action, lib, rules, ctx) ==> Fired(action, lib, rules', ctx)
  {
    if Fired(action, lib, rules, ctx) {
      var r :| r in rules && r.action == action && Fires(lib, r, ctx);
      assert r in rules';
    }
  }

  /** An aggregate is determined by the set of rules, whatever their order or multiplicity. */
  lemma AggregateUnique(lib: Lib, rules: seq<CachedRule>, rules': seq<CachedRule>, ctx: PaymentContext,
                        a: string, a': string)
    requires IsAggregate(a, lib, rules, ctx) && IsAggregate(a', lib, rules', ctx)
    requires forall r :: r in rules <==> r in rules'
    ensures a == a'
  {
    SameFiring(lib, rules, rules', ctx, a);
  }

  /** So no priority order can change it: permuted rules have the same aggregate. */
  lemma AggregatePermutation(lib: Lib, rules: seq<CachedRule>, rules': seq<CachedRule>, ctx: PaymentContext,
                             a: string, a': string)
    requires IsAggregate(a, lib, rules, ctx) && IsAggregate(a', lib, rules', ctx)
    requires multiset(rules) == multiset(rules')
    ensures a == a'
  {
    forall r ensures r in rules <==> r in rules' {
      assert r in multiset(rules) <==> r in rules;
      assert r in multiset(rules') <==> r in rules';
    }
    AggregateUnique(lib, rules, rules', ctx, a, a');
  }

  /** Adding rules, anywhere, never makes the aggregate less severe. */
  lemma AggregateMonotone(lib: Lib, rules: seq<CachedRule>, more: seq<CachedRule>, ctx: PaymentContext,
                          a: string, b: string)
    requires IsAggregate(a, lib, rules, ctx) && IsAggregate(b, lib, more, ctx)
    requires forall r :: r in rules ==> r in more
    ensures Severity(a) <= Severity(b)
  {
    SameRulesFire("block", lib, rules, more, ctx);
    SameRulesFire("review", lib, rules, more, ctx);
    SameRulesFire("flag", lib, rules, more, ctx);
  }

  lemma {:induction false} ResultsConcat(lib: Lib, a: seq<CachedRule>, b: seq<CachedRule>, ctx: PaymentContext)
    ensures Results(lib, a + b, ctx) == Results(lib, a, ctx) + Results(lib, b, ctx)
  {
    if b == [] {
      assert a + b == a;
    } else {
      var n := |b| - 1;
      assert (a + b)[..|a + b| - 1] == a + b[..n];
      ResultsConcat(lib, a, b[..n], ctx);
    }
  }

  lemma SameFiring(lib: Lib, rules: seq<CachedRule>, rules': seq<CachedRule>, ctx: PaymentContext, a: string)
    requires forall r :: Fires(lib, r, ctx) ==> (r in rules <==> r in rules')
    ensures IsAggregate(a, lib, rules, ctx) <==> IsAggregate(a, lib, rules', ctx)
  {
    SameRulesFire("block", lib, rules, rules', ctx);
    SameRulesFire("block", lib, rules', rules, ctx);
    SameRulesFire("review", lib, rules, rules', ctx);
    SameRulesFire("review", lib, rules', rules, ctx);
    SameRulesFire("flag", lib, rules, rules', ctx);
    SameRulesFire("flag", lib, rules', rules, ctx);
  }

  lemma ErringResult(lib: Lib, bad: CachedRule, ctx: PaymentContext)
    requires Eval(lib, bad.expression, ctx).Error?
    ensures Results(lib, [bad], ctx) == []
  {
    assert [bad][..0] == [];
  }

  lemma ResultsWithout(lib: Lib, pre: seq<CachedRule>, bad: CachedRule, post: seq<CachedRule>, ctx: PaymentContext)
    requires Results(lib, [bad], ctx) == []
    ensures Results(lib, pre + [bad] + post, ctx) == Results(lib, pre + post, ctx)
  {
    ResultsConcat(lib, pre + [bad], post, ctx);
    ResultsConcat(lib, pre, [bad], ctx);
    ResultsConcat(lib, pre, post, ctx);
  }

  /** A rule that errs changes neither the aggregate nor any other rule's result. */
  lemma ErringRuleIsIgnored(lib: Lib, pre: seq<CachedRule>, bad: CachedRule, post: seq<CachedRule>,
                            ctx: PaymentContext, a: string)
    requires Eval(lib, bad.expression, ctx).Error?
    ensures Results(lib, pre + [bad] + post, ctx) == Results(lib, pre + post, ctx)
    ensures IsAggregate(a, lib, pre + [bad] + post, ctx) <==> IsAggregate(a, lib, pre + post, ctx)
  {
    ErringResult(lib, bad, ctx);
    ResultsWithout(lib, pre, bad, post, ctx);
    SameFiring(lib, pre + [bad] + post, pre + post, ctx, a);
  }

  /** The proto value of each action name, and no other name has one. */
  ghost predicate Names(a: RuleAction, action: string) {
    && (a == APPROVE <==> action == "approve")
    && (a == FLAG <==> action == "flag")
    && (a == REVIEW <==> action == "review")
    && (a == BLOCK <==> action == "block")
  }

  lemma ActionsNamed(action: string, a: RuleAction)
    ensures Names(ActionToProto(action), action)
    ensures a != UNSPECIFIED ==> Names(a, ActionFromProto(a))
    ensures Names(ActionToProto(StoredAction(a)), StoredAction(a))
    ensures StoredAction(a) == if a == UNSPECIFIED then "flag" else ActionFromProto(a)
  {}

  /** The rules that do not err, in rule order. */
  function NotErring(lib: Lib, rules: seq<CachedRule>, ctx: PaymentContext): seq<CachedRule> {
    Filter(rules, (r: CachedRule) => Eval(lib, r.expression, ctx).Done?)
  }

  /** The result shows the rule's own id, name and action, and how its own expression evaluated. */
  ghost predicate Reports(x: RuleResult, r: CachedRule, lib: Lib, ctx: PaymentContext) {
    && x.ruleId == r.id && x.ruleName == r.name && Names(x.action, r.action)
    && Eval(lib, r.expression, ctx) == Done(x.matched, x.reason)
  }

  /** There is one result for each rule that does not err, in rule order, and it reports that rule. */
  lemma {:induction false} ResultsReport(lib: Lib, rules: seq<CachedRule>, ctx: PaymentContext)
    ensures var out, from := Results(lib, rules, ctx), NotErring(lib, rules, ctx);
            |out| == |from| && forall i :: 0 <= i < |out| ==> Reports(out[i], from[i], lib, ctx)
  {
    if rules != [] {
      var n := |rules| - 1;
      ResultsReport(lib, rules[..n], ctx);
      ActionsNamed(rules[n].action, UNSPECIFIED);
    }
  }
}
