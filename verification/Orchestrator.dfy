/** The risk orchestrator: from rule results, or their absence, to a risk.evaluated event and its reason codes. */
module Orchestrator {
  import opened Common
  import opened GoValues
  import opened Evaluator
  import opened Aggregation
  import opened InFlightLock

  datatype RuleResultSummary = RuleResultSummary(ruleId: string, ruleName: string, matched: bool, action: string,
                                                 reason: string)

  /** The risk.evaluated event; `EvaluationResult` has the same fields. */
  datatype RiskEvent = RiskEvent(paymentEventId: string, tenantId: string, aggregateAction: string, failOpen: bool,
                                 ruleResults: seq<RuleResultSummary>, latencyMs: int)

  datatype PaymentEvent = PaymentEvent(paymentEventId: string, tenantId: string)

  /** `actionStr`: an unspecified action reads as "approve". */
  function ActionStr(a: RuleAction): string {
    match a
    case FLAG => "flag"
    case REVIEW => "review"
    case BLOCK => "block"
    case _ => "approve"
  }

  function Summary(r: RuleResult): RuleResultSummary {
    RuleResultSummary(r.ruleId, r.ruleName, r.matched, ActionStr(r.action), r.reason)
  }

  function Summaries(results: seq<RuleResult>): (out: seq<RuleResultSummary>)
    ensures |out| == |results| && forall i :: 0 <= i < |results| ==> out[i] == Summary(results[i])
  {
    if results == [] then [] else [Summary(results[0])] + Summaries(results[1..])
  }

  method ToRuleResultSummaries(results: seq<RuleResult>) returns (out: seq<RuleResultSummary>)
    ensures out == Summaries(results)
  {
    out := [];
    var i := 0;
    while i < |results|
      invariant 0 <= i == |out| <= |results|
      invariant forall k :: 0 <= k < i ==> out[k] == Summary(results[k])
    {
      out := out + [Summary(results[i])];
      i := i + 1;
    }
  }

  /** The event for a payment given the rules engine's answer; no answer within the budget fails open. */
  function Evaluated(p: PaymentEvent, response: Option<Response>, latencyMs: int): RiskEvent {
    if response.None? then RiskEvent(p.paymentEventId, p.tenantId, "approve", true, [], latencyMs)
    else RiskEvent(p.paymentEventId, p.tenantId, ActionStr(response.value.aggregate), false,
                   Summaries(response.value.results), latencyMs)
  }

  /** How the Redis and Kafka calls of one `Process` end; a failed acquire may have set the key all the same. */
  datatype Faults = Faults(acquireFails: bool, acquireTook: bool, releaseFails: bool, publishFails: bool)

  class RiskOrchestrator {
    const cache: InFlightCache
    var published: seq<RiskEvent>

    constructor (cache: InFlightCache)
      ensures this.cache == cache && published == []
    {
      this.cache := cache;
      published := [];
    }

    method Evaluate(p: PaymentEvent, response: Option<Response>, latencyMs: int) returns (result: RiskEvent)
      ensures result == Evaluated(p, response, latencyMs)
    {
      result := RiskEvent(p.paymentEventId, p.tenantId, "", false, [], latencyMs);
      if response.None? {
        result := result.(aggregateAction := "approve", failOpen := true);
      } else {
        var summaries := ToRuleResultSummaries(response.value.results);
        result := result.(aggregateAction := ActionStr(response.value.aggregate), ruleResults := summaries);
      }
    }

    /**
     `Process`: skips an event that is in flight, otherwise evaluates and publishes it (best effort) and
     releases the lock, also when the lock could not be asked for.
     */
    method Process(p: PaymentEvent, now: int, response: Option<Response>, latencyMs: int, faults: Faults)
      modifies this, cache
      ensures var skipped := !faults.acquireFails && Locked(old(cache.expiresAt), p.paymentEventId, now);
        && (skipped ==> published == old(published) && cache.expiresAt == old(cache.expiresAt))
        && (!skipped ==>
              && published == old(published) + (if faults.publishFails then [] else [Evaluated(p, response, latencyMs)])
              && cache.expiresAt ==
                   var held := if faults.acquireFails && !faults.acquireTook then old(cache.expiresAt)
                               else Acquired(old(cache.expiresAt), p.paymentEventId, now);
                   if faults.releaseFails then held else held - {p.paymentEventId})
    {
      if !faults.acquireFails {
        var acquired := cache.TryAcquire(p.paymentEventId, now);
        if !acquired { return; }
      } else if faults.acquireTook {
        var _ := cache.TryAcquire(p.paymentEventId, now);
      }
      var result := Evaluate(p, response, latencyMs);
      if !faults.publishFails {
        published := published + [result];
      }
      if !faults.releaseFails {
        cache.Release(p.paymentEventId);
      }
    }
  }

  // ---------------------------------------------------------------- outcome and reasons

  ghost predicate Matched(action: string, results: seq<RuleResultSummary>) {
    exists r :: r in results && r.matched && r.action == action
  }

  /** "block" if any matched result blocks, else "review" if any reviews, else "flag" if any flags, else "approve". */
  ghost predicate MostSevere(outcome: string, results: seq<RuleResultSummary>) {
    outcome == if Matched("block", results) then "block"
               else if Matched("review", results) then "review"
               else if Matched("flag", results) then "flag"
               else "approve"
  }

  /** `ev` came out of the orchestrator: from an evaluation of some rules, or from a failed call. */
  ghost predicate Orchestrated(ev: RiskEvent) {
    (exists p, ms :: ev == Evaluated(p, None, ms)) || exists lib, rules, ctx, a :: EvaluatedFrom(ev, lib, rules, ctx, a)
  }

  ghost predicate EvaluatedFrom(ev: RiskEvent, lib: Lib, rules: seq<CachedRule>, ctx: PaymentContext, a: string) {
    && IsAggregate(a, lib, rules, ctx)
    && ev == Evaluated(PaymentEvent(ev.paymentEventId, ev.tenantId),
                       Some(Response(Results(lib, rules, ctx), ActionToProto(a))), ev.latencyMs)
  }

  lemma {:induction false} ResultOfFiring(lib: Lib, rules: seq<CachedRule>, ctx: PaymentContext, r: CachedRule)
    requires r in rules && Eval(lib, r.expression, ctx).Done?
    ensures ResultOf(r, Eval(lib, r.expression, ctx)) in Results(lib, rules, ctx)
  {
    var n := |rules| - 1;
    assert rules == rules[..n] + [rules[n]];
    if r in rules[..n] {
      ResultOfFiring(lib, rules[..n], ctx, r);
    }
  }

  lemma {:induction false} FiringOfResult(lib: Lib, rules: seq<CachedRule>, ctx: PaymentContext, x: RuleResult)
    returns (r: CachedRule)
    requires x in Results(lib, rules, ctx)
    ensures r in rules && Eval(lib, r.expression, ctx).Done? && x == ResultOf(r, Eval(lib, r.expression, ctx))
  {
    var n := |rules| - 1;
    assert rules == rules[..n] + [rules[n]];
    if x in Results(lib, rules[..n], ctx) {
      r := FiringOfResult(lib, rules[..n], ctx, x);
    } else {
      r := rules[n];
    }
  }

  /** The action string survives the trip through the proto enum, an unknown one becoming the harmless "approve". */
  lemma ActionTrip(action: string)
    ensures ActionStr(ActionToProto(action)) == if KnownAction(action) then action else "approve"
  {}

  /** A result that matched shows an action exactly if a rule with that action fired. */
  lemma MatchedExactly(action: string, lib: Lib, rules: seq<CachedRule>, ctx: PaymentContext)
    requires action in {"flag", "review", "block"}
    ensures Matched(action, Summaries(Results(lib, rules, ctx))) <==> Fired(action, lib, rules, ctx)
  {
    var results := Results(lib, rules, ctx);
    if Matched(action, Summaries(results)) {
      var i :| 0 <= i < |results| && Summary(results[i]).matched && Summary(results[i]).action == action;
      var r := FiringOfResult(lib, rules, ctx, results[i]);
      ActionTrip(r.action);
      assert Fires(lib, r, ctx);
    }
    if Fired(action, lib, rules, ctx) {
      var r :| r in rules && r.action == action && Fires(lib, r, ctx);
      MatchedOfFiring(lib, rules, ctx, r);
    }
  }

  lemma MatchedOfFiring(lib: Lib, rules: seq<CachedRule>, ctx: PaymentContext, r: CachedRule)
    requires r in rules && Fires(lib, r, ctx) && KnownAction(r.action)
    ensures Matched(r.action, Summaries(Results(lib, rules, ctx)))
  {
    ResultOfFiring(lib, rules, ctx, r);
    var x := ResultOf(r, Eval(lib, r.expression, ctx));
    var results := Results(lib, rules, ctx);
    var i :| 0 <= i < |results| && results[i] == x;
    ActionTrip(r.action);
    assert Summaries(results)[i] == Summary(x);
  }

  /** The event's i-th result is that of the i-th rule that did not err: its id, name, match, reason and action. */
  ghost predicate Shows(s: RuleResultSummary, r: CachedRule, lib: Lib, ctx: PaymentContext) {
    && s.ruleId == r.id && s.ruleName == r.name
    && Eval(lib, r.expression, ctx) == Done(s.matched, s.reason)
    && s.action == if r.action in {"flag", "review", "block"} then r.action else "approve"
  }

  lemma SummariesShowRules(lib: Lib, rules: seq<CachedRule>, ctx: PaymentContext)
    ensures var out, from := Summaries(Results(lib, rules, ctx)), NotErring(lib, rules, ctx);
            |out| == |from| && forall i :: 0 <= i < |out| ==> Shows(out[i], from[i], lib, ctx)
  {
    var results, from := Results(lib, rules, ctx), NotErring(lib, rules, ctx);
    ResultsReport(lib, rules, ctx);
    forall i | 0 <= i < |results| ensures Shows(Summaries(results)[i], from[i], lib, ctx) {
      assert Reports(results[i], from[i], lib, ctx);
    }
  }

  /** Across the rules engine and the orchestrator, the event's action is the most severe matched one it carries. */
  lemma EventIsMostSevere(ev: RiskEvent)
    requires Orchestrated(ev)
    ensures ev.failOpen ==> ev.aggregateAction == "approve" && ev.ruleResults == []
    ensures !ev.failOpen ==> MostSevere(ev.aggregateAction, ev.ruleResults)
  {
    if !ev.failOpen {
      var lib, rules, ctx, a :| EvaluatedFrom(ev, lib, rules, ctx, a);
      ActionTrip(a);
      AggregateIsJoin(a, lib, rules, ctx);
      assert ev.aggregateAction == a && ev.ruleResults == Summaries(Results(lib, rules, ctx));
      MatchedExactly("block", lib, rules, ctx);
      MatchedExactly("review", lib, rules, ctx);
      MatchedExactly("flag", lib, rules, ctx);
    }
  }

  function Code(r: RuleResultSummary): string { r.action + "_rule:" + r.ruleId }

  /** The codes of the matched results, in order. */
  function MatchedCodes(results: seq<RuleResultSummary>): seq<string> {
    if results == [] then []
    else
      var n := |results| - 1;
      MatchedCodes(results[..n]) + if results[n].matched then [Code(results[n])] else []
  }

  function ReasonCodes(ev: RiskEvent): seq<string> {
    if ev.failOpen then ["fail_open_applied"]
    else if MatchedCodes(ev.ruleResults) == [] then ["no_rules_matched"]
    else MatchedCodes(ev.ruleResults)
  }

  method BuildReasonCodes(ev: RiskEvent) returns (codes: seq<string>)
    ensures codes == ReasonCodes(ev)
  {
    if ev.failOpen { return ["fail_open_applied"]; }
    codes := [];
    var i := 0;
    while i < |ev.ruleResults|
      invariant 0 <= i <= |ev.ruleResults|
      invariant codes == MatchedCodes(ev.ruleResults[..i])
    {
      assert ev.ruleResults[..i + 1][..i] == ev.ruleResults[..i];
      if ev.ruleResults[i].matched { codes := codes + [Code(ev.ruleResults[i])]; }
      i := i + 1;
    }
    assert ev.ruleResults[..i] == ev.ruleResults;
    if codes == [] { codes := ["no_rules_matched"]; }
  }

  lemma {:induction false} MatchedCodesComplete(results: seq<RuleResultSummary>)
    ensures forall r :: r in results && r.matched ==> Code(r) in MatchedCodes(results)
    ensures forall c :: c in MatchedCodes(results) ==> exists r :: r in results && r.matched && Code(r) == c
    ensures MatchedCodes(results) == [] <==> forall r :: r in results ==> !r.matched
  {
    if results != [] {
      var n := |results| - 1;
      MatchedCodesComplete(results[..n]);
      assert results == results[..n] + [results[n]];
    }
  }

  /**
   Reasons agree with the action: never empty; exactly ["fail_open_applied"] for a fail-open approval;
   otherwise the action is the most severe matched one and, unless it is "approve", a reason names a
   matched rule of that action.
   */
  ghost predicate Agrees(ev: RiskEvent) {
    && ReasonCodes(ev) != []
    && (ev.failOpen ==> ev.aggregateAction == "approve" && ReasonCodes(ev) == ["fail_open_applied"])
    && (!ev.failOpen ==>
          && MostSevere(ev.aggregateAction, ev.ruleResults)
          && (ev.aggregateAction != "approve" ==>
                exists r :: r in ev.ruleResults && r.matched && r.action == ev.aggregateAction &&
                            ev.aggregateAction + "_rule:" + r.ruleId in ReasonCodes(ev))
          && ((forall r :: r in ev.ruleResults ==> !r.matched) ==> ReasonCodes(ev) == ["no_rules_matched"]))
  }

  lemma ReasonsMatchAction(ev: RiskEvent)
    requires Orchestrated(ev)
    ensures Agrees(ev)
  {
    EventIsMostSevere(ev);
    MatchedCodesComplete(ev.ruleResults);
    if !ev.failOpen && ev.aggregateAction != "approve" {
      var r :| r in ev.ruleResults && r.matched && r.action == ev.aggregateAction;
      assert Code(r) in MatchedCodes(ev.ruleResults);
    }
  }

  /** The results that matched, in order. */
  function MatchedResults(results: seq<RuleResultSummary>): seq<RuleResultSummary> {
    Filter(results, (r: RuleResultSummary) => r.matched)
  }

  lemma {:induction false} CodesOfMatched(results: seq<RuleResultSummary>)
    ensures var m := MatchedResults(results);
      && |MatchedCodes(results)| == |m|
      && forall i :: 0 <= i < |m| ==> MatchedCodes(results)[i] == m[i].action + "_rule:" + m[i].ruleId
  {
    if results != [] {
      CodesOfMatched(results[..|results| - 1]);
    }
  }

  /** Of an event that did not fail open, the codes are those of its matched results, in order, or say there is none. */
  lemma ReasonCodesExactly(ev: RiskEvent)
    ensures var codes, m := ReasonCodes(ev), MatchedResults(ev.ruleResults);
      if ev.failOpen then codes == ["fail_open_applied"]
      else if m == [] then codes == ["no_rules_matched"]
      else |codes| == |m| && forall i :: 0 <= i < |m| ==> codes[i] == m[i].action + "_rule:" + m[i].ruleId
  {
    CodesOfMatched(ev.ruleResults);
  }
}
