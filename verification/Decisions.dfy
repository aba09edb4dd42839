/** The decision service: insert-if-absent decisions, row-locked overrides, and the decision.made topic. */
module Decisions {
  import opened Common
  import opened Aggregation
  import opened Orchestrator
  import opened Ordering

  datatype Decision = Decision(id: string, paymentEventId: string, tenantId: string, outcome: string,
                               reasonCodes: seq<string>, ruleResults: seq<RuleResultSummary>, latencyMs: int,
                               overridden: bool)

  /** `createdAt` is when the overriding transaction began, which need not be the order in which they commit. */
  datatype Override = Override(decisionId: string, analystId: string, previousOutcome: string, newOutcome: string,
                               reason: string, createdAt: int)

  // ---------------------------------------------------------------- the store

  predicate HasKey(d: Decision, paymentEventId: string, tenantId: string) {
    d.paymentEventId == paymentEventId && d.tenantId == tenantId
  }

  /** The row of a payment event, if there is one. */
  function Find(ds: seq<Decision>, paymentEventId: string, tenantId: string): (d: Option<Decision>)
    ensures d.Some? ==> d.value in ds && HasKey(d.value, paymentEventId, tenantId)
    ensures d.None? ==> forall x :: x in ds ==> !HasKey(x, paymentEventId, tenantId)
  {
    if ds == [] then None
    else if HasKey(ds[0], paymentEventId, tenantId) then Some(ds[0])
    else
      assert ds == [ds[0]] + ds[1..];
      Find(ds[1..], paymentEventId, tenantId)
  }

  function FindById(ds: seq<Decision>, id: string): (d: Option<Decision>)
    ensures d.Some? ==> d.value in ds && d.value.id == id
    ensures d.None? ==> forall x :: x in ds ==> x.id != id
  {
    if ds == [] then None
    else if ds[0].id == id then Some(ds[0])
    else
      assert ds == [ds[0]] + ds[1..];
      FindById(ds[1..], id)
  }

  function NewDecision(id: string, ev: RiskEvent): Decision {
    Decision(id, ev.paymentEventId, ev.tenantId, ev.aggregateAction, ReasonCodes(ev), ev.ruleResults, ev.latencyMs,
             false)
  }

  /** `INSERT ... ON CONFLICT DO NOTHING`, under the CHECK on outcomes. */
  function Recorded(ds: seq<Decision>, id: string, ev: RiskEvent): seq<Decision> {
    if KnownAction(ev.aggregateAction) && Find(ds, ev.paymentEventId, ev.tenantId).None?
    then ds + [NewDecision(id, ev)] else ds
  }

  /** The row with this id given a new outcome. */
  function Overridden(ds: seq<Decision>, id: string, newOutcome: string): (r: seq<Decision>)
    ensures |r| == |ds|
    ensures forall i :: 0 <= i < |ds| ==>
              r[i] == if ds[i].id == id then ds[i].(outcome := newOutcome, overridden := true) else ds[i]
  {
    if ds == [] then []
    else
      [if ds[0].id == id then ds[0].(outcome := newOutcome, overridden := true) else ds[0]] +
      Overridden(ds[1..], id, newOutcome)
  }

  lemma FindAppended(ds: seq<Decision>, d: Decision)
    requires Find(ds, d.paymentEventId, d.tenantId).None?
    ensures Find(ds + [d], d.paymentEventId, d.tenantId) == Some(d)
  {
    assert (ds + [d])[|ds|] == d;
  }

  /** The payment event has a row for the tenant. */
  predicate Decided(ds: seq<Decision>, paymentEventId: string, tenantId: string) {
    exists d :: d in ds && d.paymentEventId == paymentEventId && d.tenantId == tenantId
  }

  class DecisionStore {
    var decisions: seq<Decision>
    var overrides: seq<Override>

    constructor ()
      ensures decisions == [] && overrides == []
    {
      decisions, overrides := [], [];
    }

    method GetDecision(paymentEventId: string, tenantId: string) returns (result: Result<Decision>)
      ensures var d := Find(decisions, paymentEventId, tenantId);
              result == if d.Some? then Ok(d.value) else Err(NotFound)
      ensures result.Ok? ==> result.value in decisions
      ensures result.Ok? ==> result.value.paymentEventId == paymentEventId && result.value.tenantId == tenantId
      ensures result.Err? ==> !Decided(decisions, paymentEventId, tenantId)
    {
      var d := Find(decisions, paymentEventId, tenantId);
      result := if d.Some? then Ok(d.value) else Err(NotFound);
    }

    /** Records the event's decision unless its payment already has one; returns the one in the table. */
    method RecordDecision(id: string, ev: RiskEvent) returns (result: Result<Decision>)
      modifies this`decisions
      ensures decisions == Recorded(old(decisions), id, ev)
      ensures !KnownAction(ev.aggregateAction) ==> result == Err(ConstraintViolation)
      ensures KnownAction(ev.aggregateAction) ==>
                result.Ok? && HasKey(result.value, ev.paymentEventId, ev.tenantId) &&
                Find(decisions, ev.paymentEventId, ev.tenantId) == Some(result.value)
      ensures ev.aggregateAction !in {"approve", "flag", "review", "block"} ==>
                result == Err(ConstraintViolation) && decisions == old(decisions)
      ensures ev.aggregateAction in {"approve", "flag", "review", "block"} ==>
                result.Ok? && result.value.paymentEventId == ev.paymentEventId && result.value.tenantId == ev.tenantId
      ensures result.Ok? && Decided(old(decisions), ev.paymentEventId, ev.tenantId) ==>
                decisions == old(decisions) && result.value in old(decisions)
      ensures result.Ok? && !Decided(old(decisions), ev.paymentEventId, ev.tenantId) ==>
                && decisions == old(decisions) + [result.value]
                && result.value == Decision(id, ev.paymentEventId, ev.tenantId, ev.aggregateAction, ReasonCodes(ev),
                                            ev.ruleResults, ev.latencyMs, false)
    {
      if !KnownAction(ev.aggregateAction) { return Err(ConstraintViolation); }
      var codes := BuildReasonCodes(ev);
      var existing := Find(decisions, ev.paymentEventId, ev.tenantId);
      if existing.Some? {
        result := GetDecision(ev.paymentEventId, ev.tenantId);
      } else {
        var d := Decision(id, ev.paymentEventId, ev.tenantId, ev.aggregateAction, codes, ev.ruleResults, ev.latencyMs,
                          false);
        FindAppended(decisions, d);
        decisions := decisions + [d];
        result := Ok(d);
      }
    }

    /** Reads the outcome under a row lock, replaces it and logs the change, all or nothing. */
    method OverrideDecision(decisionId: string, analystId: string, newOutcome: string, reason: string, startedAt: int)
      returns (result: Result<Override>)
      modifies this
      ensures var d := FindById(old(decisions), decisionId);
        if d.None? || !KnownAction(newOutcome) then
          && result == Err(if d.None? then NotFound else ConstraintViolation)
          && decisions == old(decisions) && overrides == old(overrides)
        else
          && result == Ok(Override(decisionId, analystId, d.value.outcome, newOutcome, reason, startedAt))
          && decisions == Overridden(old(decisions), decisionId, newOutcome)
          && overrides == old(overrides) + [result.value]
      ensures result.Ok? <==> newOutcome in {"approve", "flag", "review", "block"} &&
                              exists d :: d in old(decisions) && d.id == decisionId
      ensures result.Ok? ==>
        && (exists d :: d in old(decisions) && d.id == decisionId && d.outcome == result.value.previousOutcome)
        && result.value.newOutcome == newOutcome && result.value.decisionId == decisionId
        && |decisions| == |old(decisions)|
        && forall i :: 0 <= i < |decisions| ==>
             decisions[i] == if old(decisions)[i].id == decisionId
                             then old(decisions)[i].(outcome := newOutcome, overridden := true)
                             else old(decisions)[i]
    {
      var d := FindById(decisions, decisionId);
      if d.None? { return Err(NotFound); }
      if !KnownAction(newOutcome) { return Err(ConstraintViolation); }
      var prevOutcome := d.value.outcome;
      decisions := Overridden(decisions, decisionId, newOutcome);
      var o := Override(decisionId, analystId, prevOutcome, newOutcome, reason, startedAt);
      overrides := overrides + [o];
      result := Ok(o);
    }
  }

  class DecisionConsumer {
    const store: DecisionStore
    var made: seq<Decision>

    constructor (store: DecisionStore)
      ensures this.store == store && made == []
    {
      this.store := store;
      made := [];
    }

    /** One risk.evaluated message: records its decision and publishes whichever the table then holds, best effort. */
    method HandleRiskEvaluated(ev: RiskEvent, id: string, publishFails: bool)
      modifies this, store`decisions
      ensures store.decisions == Recorded(old(store.decisions), id, ev)
      ensures var d := Find(store.decisions, ev.paymentEventId, ev.tenantId);
              && (KnownAction(ev.aggregateAction) ==> d.Some?)
              && made == old(made) +
                 if KnownAction(ev.aggregateAction) && !publishFails && d.Some? then [d.value] else []
    {
      var recorded := store.RecordDecision(id, ev);
      if recorded.Err? { return; }
      if !publishFails { made := made + [recorded.value]; }
    }
  }

  // ---------------------------------------------------------------- runs

  /**
   The store and the topics around it. `origin` is a history variable: the event each decision was
   recorded from. `inHand` holds the decisions consumers have read but not (or not yet) published.
   */
  datatype World = World(decisions: seq<Decision>, overrides: seq<Override>, risk: seq<RiskEvent>,
                         inHand: seq<Decision>, made: seq<Decision>, origin: map<string, RiskEvent>)

  datatype Action =
    | PublishRisk(ev: RiskEvent)
    | Consume(offset: nat, id: string)  // any risk.evaluated message, any number of times, or never
    | PublishMade(index: nat)
    | OverrideBy(decisionId: string, analystId: string, newOutcome: string, reason: string, startedAt: int)

  const START: World := World([], [], [], [], [], map[])

  ghost predicate Enabled(w: World, a: Action) {
    match a
    case PublishRisk(ev) => Orchestrated(ev)
    case Consume(offset, id) => offset < |w.risk| && id !in w.origin && forall d :: d in w.decisions ==> d.id != id
    case PublishMade(index) => index < |w.inHand|
    case OverrideBy(_, _, _, _, _) => true
  }

  function Step(w: World, a: Action): World {
    match a
    case PublishRisk(ev) => w.(risk := w.risk + [ev])
    case Consume(offset, id) =>
      if offset >= |w.risk| then w
      else
        var ev := w.risk[offset];
        var ds := Recorded(w.decisions, id, ev);
        var d := Find(ds, ev.paymentEventId, ev.tenantId);
        w.(decisions := ds,
           inHand := if d.Some? then w.inHand + [d.value] else w.inHand,
           origin := if |ds| > |w.decisions| then w.origin[id := ev] else w.origin)
    case PublishMade(index) => if index < |w.inHand| then w.(made := w.made + [w.inHand[index]]) else w
    case OverrideBy(id, analyst, outcome, reason, startedAt) =>
      var d := FindById(w.decisions, id);
      if d.None? || !KnownAction(outcome) then w
      else w.(decisions := Overridden(w.decisions, id, outcome),
              overrides := w.overrides + [Override(id, analyst, d.value.outcome, outcome, reason, startedAt)])
  }

  /** A step does to the table what the store and the consumer do. */
  lemma StepsFollowTheStore(w: World, a: Action)
    requires Enabled(w, a) && forall i :: 0 <= i < |w.risk| ==> KnownAction(w.risk[i].aggregateAction)
    ensures var w' := Step(w, a);
      match a
      case PublishRisk(ev) => w' == w.(risk := w.risk + [ev])
      case Consume(offset, id) =>
        var ev := w.risk[offset];
        exists d ::
          && d in w'.decisions && d.paymentEventId == ev.paymentEventId && d.tenantId == ev.tenantId
          && if Decided(w.decisions, ev.paymentEventId, ev.tenantId) then w' == w.(inHand := w.inHand + [d])
             else
               && d == Decision(id, ev.paymentEventId, ev.tenantId, ev.aggregateAction, ReasonCodes(ev), ev.ruleResults,
                                ev.latencyMs, false)
               && w' == w.(decisions := w.decisions + [d], inHand := w.inHand + [d], origin := w.origin[id := ev])
      case PublishMade(index) => w' == w.(made := w.made + [w.inHand[index]])
      case OverrideBy(id, analystId, newOutcome, reason, startedAt) =>
        if newOutcome !in {"approve", "flag", "review", "block"} || forall d :: d in w.decisions ==> d.id != id
        then w' == w
        else
          && w' == w.(decisions := w'.decisions, overrides := w'.overrides)
          && |w'.decisions| == |w.decisions|
          && (forall i :: 0 <= i < |w.decisions| ==>
                w'.decisions[i] == if w.decisions[i].id == id
                                   then w.decisions[i].(outcome := newOutcome, overridden := true)
                                   else w.decisions[i])
          && exists d :: d in w.decisions && d.id == id &&
               w'.overrides == w.overrides + [Override(id, analystId, d.outcome, newOutcome, reason, startedAt)]
  {
    match a
    case Consume(offset, id) =>
      var ev := w.risk[offset];
      var found := Find(w.decisions, ev.paymentEventId, ev.tenantId);
      if found.None? { FindAppended(w.decisions, NewDecision(id, ev)); }
      var d := Find(Step(w, a).decisions, ev.paymentEventId, ev.tenantId).value;
      assert d in Step(w, a).decisions;
    case OverrideBy(id, _, _, _, _) =>
      var d := FindById(w.decisions, id);
      if d.Some? { assert d.value in w.decisions && d.value.id == id; }
    case _ =>
  }

  function Run(acts: seq<Action>): World {
    if acts == [] then START else Step(Run(acts[..|acts| - 1]), acts[|acts| - 1])
  }

  ghost predicate IsRun(acts: seq<Action>) {
    forall i :: 0 <= i < |acts| ==> Enabled(Run(acts[..i]), acts[i])
  }

  /** The overrides of one decision, in the order they committed. */
  function OverridesOf(os: seq<Override>, id: string): seq<Override> {
    Filter(os, (o: Override) => o.decisionId == id)
  }

  /** Each override replaces the outcome the one before it left, starting from `first` and ending at `last`. */
  ghost predicate Chained(first: string, os: seq<Override>, last: string) {
    if os == [] then first == last
    else os[|os| - 1].newOutcome == last && Chained(first, os[..|os| - 1], os[|os| - 1].previousOutcome)
  }

  /** The outcomes a decision has had: the one recorded, then each override's. */
  ghost predicate Held(w: World, id: string, outcome: string) {
    || (id in w.origin && w.origin[id].aggregateAction == outcome)
    || exists o :: o in w.overrides && o.decisionId == id && o.newOutcome == outcome
  }

  /** A row, or a copy of one read earlier: what its event fixed is unchanged and its outcome was once held. */
  ghost predicate CopyTrue(w: World, d: Decision) {
    && d.id in w.origin
    && d.(outcome := w.origin[d.id].aggregateAction, overridden := false) == NewDecision(d.id, w.origin[d.id])
    && KnownAction(d.outcome)
    && Held(w, d.id, d.outcome)
  }

  ghost predicate RowTrue(w: World, d: Decision) {
    && CopyTrue(w, d)
    && Chained(w.origin[d.id].aggregateAction, OverridesOf(w.overrides, d.id), d.outcome)
    && (d.overridden <==> OverridesOf(w.overrides, d.id) != [])
  }

  ghost predicate Unique(ds: seq<Decision>) {
    forall i, j :: 0 <= i < j < |ds| ==>
      ds[i].id != ds[j].id && !HasKey(ds[i], ds[j].paymentEventId, ds[j].tenantId)
  }

  ghost predicate Copies(w: World, ds: seq<Decision>) {
    forall i :: 0 <= i < |ds| ==> CopyTrue(w, ds[i])
  }

  ghost predicate Rows(w: World, ds: seq<Decision>) {
    forall i :: 0 <= i < |ds| ==> RowTrue(w, ds[i])
  }

  ghost predicate Inv(w: World) {
    && Unique(w.decisions)
    && Rows(w, w.decisions)
    && Copies(w, w.inHand)
    && Copies(w, w.made)
    && OverridesKnown(w)
  }

  ghost predicate OverridesKnown(w: World) {
    forall i :: 0 <= i < |w.overrides| ==> w.overrides[i].decisionId in w.origin
  }

  lemma OverridesAppend(os: seq<Override>, o: Override, id: string)
    ensures OverridesOf(os + [o], id) == OverridesOf(os, id) + if o.decisionId == id then [o] else []
  {
    var p := (x: Override) => x.decisionId == id;
    FilterAppend(os, [o], p);
    FilterOne(o, p);
  }

  /** Nothing is taken back: origins stay and overrides accumulate. */
  ghost predicate Extends(w: World, w': World) {
    && w.overrides <= w'.overrides
    && forall id :: id in w.origin ==> id in w'.origin && w'.origin[id] == w.origin[id]
  }

  lemma StepExtends(w: World, a: Action)
    requires Enabled(w, a)
    ensures Extends(w, Step(w, a))
  {}

  lemma CopiesPersist(w: World, w': World, ds: seq<Decision>)
    requires Extends(w, w') && Copies(w, ds)
    ensures Copies(w', ds)
  {
    forall i | 0 <= i < |ds| ensures CopyTrue(w', ds[i]) {
      assert CopyTrue(w, ds[i]);
      HeldPersists(w, w', ds[i].id, ds[i].outcome);
    }
  }

  lemma HeldPersists(w: World, w': World, id: string, outcome: string)
    requires Extends(w, w') && Held(w, id, outcome)
    ensures Held(w', id, outcome)
  {
    if o :| o in w.overrides && o.decisionId == id && o.newOutcome == outcome {
      assert o in w'.overrides;
    }
  }

  lemma RowsAreCopies(w: World, ds: seq<Decision>)
    requires Rows(w, ds)
    ensures Copies(w, ds)
  {
    forall i | 0 <= i < |ds| ensures CopyTrue(w, ds[i]) {
      assert RowTrue(w, ds[i]);
    }
  }

  lemma RowsPersist(w: World, w': World, ds: seq<Decision>)
    requires Extends(w, w') && w'.overrides == w.overrides && Rows(w, ds)
    ensures Rows(w', ds)
  {
    RowsAreCopies(w, ds);
    CopiesPersist(w, w', ds);
    forall i | 0 <= i < |ds| ensures RowTrue(w', ds[i]) {
      assert RowTrue(w, ds[i]) && CopyTrue(w', ds[i]);
    }
  }

  lemma NewRowTrue(w: World, id: string, ev: RiskEvent)
    requires id in w.origin && w.origin[id] == ev && KnownAction(ev.aggregateAction)
    requires OverridesOf(w.overrides, id) == []
    ensures RowTrue(w, NewDecision(id, ev))
  {}

  lemma RecordedUnique(ds: seq<Decision>, id: string, ev: RiskEvent)
    requires Unique(ds) && forall d :: d in ds ==> d.id != id
    ensures Unique(Recorded(ds, id, ev))
  {
    var r := Recorded(ds, id, ev);
    forall i, j | 0 <= i < j < |r| ensures r[i].id != r[j].id && !HasKey(r[i], r[j].paymentEventId, r[j].tenantId) {
      assert r[i] in ds;
    }
  }

  lemma ConsumeKeepsInv(w: World, a: Action)
    requires Inv(w) && Enabled(w, a) && a.Consume?
    ensures Inv(Step(w, a))
  {
    var w' := Step(w, a);
    var ev := w.risk[a.offset];
    StepExtends(w, a);
    RowsPersist(w, w', w.decisions);
    CopiesPersist(w, w', w.inHand);
    CopiesPersist(w, w', w.made);
    RecordedUnique(w.decisions, a.id, ev);
    if |w'.decisions| > |w.decisions| {
      NoOverridesYet(w, a.id);
      NewRowTrue(w', a.id, ev);
    }
    assert Rows(w', w'.decisions);
    RowsAreCopies(w', w'.decisions);
  }

  lemma NoOverridesYet(w: World, id: string)
    requires Inv(w) && id !in w.origin
    ensures OverridesOf(w.overrides, id) == []
  {
    forall i | 0 <= i < |w.overrides| ensures w.overrides[i].decisionId != id {}
    FilterNone(w.overrides, (o: Override) => o.decisionId == id);
  }

  /** Row i before and after the override `o` of row k. */
  lemma OverrideKeepsRow(w: World, w': World, o: Override, k: nat, i: nat)
    requires k < |w.decisions| && i < |w.decisions| && Unique(w.decisions)
    requires o.decisionId == w.decisions[k].id && o.previousOutcome == w.decisions[k].outcome
    requires KnownAction(o.newOutcome)
    requires w' == w.(decisions := Overridden(w.decisions, o.decisionId, o.newOutcome), overrides := w.overrides + [o])
    requires RowTrue(w, w.decisions[i]) && CopyTrue(w', w.decisions[i])
    ensures RowTrue(w', w'.decisions[i])
  {
    OverridesAppend(w.overrides, o, w.decisions[i].id);
    assert o in w'.overrides;
    if i == k {
      var os := OverridesOf(w'.overrides, o.decisionId);
      assert os[..|os| - 1] == OverridesOf(w.overrides, o.decisionId);
      assert Held(w', o.decisionId, o.newOutcome);
    } else {
      assert w.decisions[i].id != w.decisions[k].id;
    }
  }

  lemma OverriddenUnique(ds: seq<Decision>, id: string, outcome: string)
    requires Unique(ds)
    ensures Unique(Overridden(ds, id, outcome))
  {
    var r := Overridden(ds, id, outcome);
    forall i, j | 0 <= i < j < |r| ensures r[i].id != r[j].id && !HasKey(r[i], r[j].paymentEventId, r[j].tenantId) {
      assert ds[i].id != ds[j].id && !HasKey(ds[i], ds[j].paymentEventId, ds[j].tenantId);
    }
  }

  lemma OverrideKeepsRows(w: World, w': World, o: Override, k: nat)
    requires k < |w.decisions| && Unique(w.decisions) && Rows(w, w.decisions)
    requires o.decisionId == w.decisions[k].id && o.previousOutcome == w.decisions[k].outcome
    requires KnownAction(o.newOutcome)
    requires w' == w.(decisions := Overridden(w.decisions, o.decisionId, o.newOutcome), overrides := w.overrides + [o])
    ensures Rows(w', w'.decisions)
  {
    RowsAreCopies(w, w.decisions);
    CopiesPersist(w, w', w.decisions);
    forall i | 0 <= i < |w'.decisions| ensures RowTrue(w', w'.decisions[i]) {
      OverrideKeepsRow(w, w', o, k, i);
    }
  }

  lemma OverrideKeepsInv(w: World, a: Action)
    requires Inv(w) && a.OverrideBy?
    ensures Inv(Step(w, a))
  {
    var d := FindById(w.decisions, a.decisionId);
    if d.Some? && KnownAction(a.newOutcome) {
      var o := Override(a.decisionId, a.analystId, d.value.outcome, a.newOutcome, a.reason, a.startedAt);
      var k :| 0 <= k < |w.decisions| && w.decisions[k] == d.value;
      OverrideOfRow(w, Step(w, a), o, k);
    }
  }

  lemma OverrideOfRow(w: World, w': World, o: Override, k: nat)
    requires Inv(w) && k < |w.decisions|
    requires o.decisionId == w.decisions[k].id && o.previousOutcome == w.decisions[k].outcome
    requires KnownAction(o.newOutcome)
    requires w' == w.(decisions := Overridden(w.decisions, o.decisionId, o.newOutcome), overrides := w.overrides + [o])
    ensures Inv(w')
  {
    KnownAppend(w, w', o, k);
    OverriddenUnique(w.decisions, o.decisionId, o.newOutcome);
    OverrideKeepsRows(w, w', o, k);
    CopiesPersist(w, w', w.inHand);
    CopiesPersist(w, w', w.made);
  }

  lemma KnownAppend(w: World, w': World, o: Override, k: nat)
    requires OverridesKnown(w) && k < |w.decisions| && Rows(w, w.decisions) && o.decisionId == w.decisions[k].id
    requires w'.origin == w.origin && w'.overrides == w.overrides + [o]
    ensures OverridesKnown(w')
  {
    assert RowTrue(w, w.decisions[k]);
  }

  lemma StepKeepsInv(w: World, a: Action)
    requires Inv(w) && Enabled(w, a)
    ensures Inv(Step(w, a))
  {
    if a.Consume? {
      ConsumeKeepsInv(w, a);
    } else if a.OverrideBy? {
      OverrideKeepsInv(w, a);
    } else {
      var w' := Step(w, a);
      RowsPersist(w, w', w.decisions);
      CopiesPersist(w, w', w.inHand);
      CopiesPersist(w, w', w.made);
    }
  }

  lemma {:induction false} RunKeepsInv(acts: seq<Action>)
    requires IsRun(acts)
    ensures Inv(Run(acts))
  {
    if acts != [] {
      var n := |acts| - 1;
      PrefixIsRun(acts, n);
      RunKeepsInv(acts[..n]);
      StepKeepsInv(Run(acts[..n]), acts[n]);
    }
  }

  lemma PrefixIsRun(acts: seq<Action>, n: nat)
    requires n <= |acts| && IsRun(acts)
    ensures IsRun(acts[..n])
  {
    forall i | 0 <= i < n ensures acts[..n][..i] == acts[..i] {}
  }

  /** In every run, with messages lost, repeated and reordered, a payment event has at most one decision per tenant. */
  lemma AtMostOneDecision(acts: seq<Action>, d: Decision, e: Decision)
    requires IsRun(acts) && d in Run(acts).decisions && e in Run(acts).decisions
    requires d.paymentEventId == e.paymentEventId && d.tenantId == e.tenantId
    ensures d == e
  {
    RunKeepsInv(acts);
    UniqueRow(Run(acts).decisions, d, e);
  }

  lemma UniqueRow(ds: seq<Decision>, d: Decision, e: Decision)
    requires Unique(ds) && d in ds && e in ds && HasKey(d, e.paymentEventId, e.tenantId)
    ensures d == e
  {
    var i :| 0 <= i < |ds| && ds[i] == d;
    var j :| 0 <= j < |ds| && ds[j] == e;
  }

  /** Its overrides link up from the outcome first recorded to the current one; it is marked exactly if it has any. */
  lemma OverridesAreLinked(acts: seq<Action>, d: Decision)
    requires IsRun(acts) && d in Run(acts).decisions
    ensures var w := Run(acts);
      && d.id in w.origin && w.origin[d.id] in w.risk
      && Chained(w.origin[d.id].aggregateAction, OverridesOf(w.overrides, d.id), d.outcome)
      && (d.overridden <==> OverridesOf(w.overrides, d.id) != [])
  {
    RunKeepsInv(acts);
    OriginsWerePublished(acts);
    var i :| 0 <= i < |Run(acts).decisions| && Run(acts).decisions[i] == d;
    assert RowTrue(Run(acts), Run(acts).decisions[i]);
  }

  function CreatedAt(o: Override): int { o.createdAt }

  /** Read by `created_at`, overrides come with rising start times; they increase if each began after all before it. */
  lemma ByStartTime(s: seq<Override>, os: seq<Override>)
    ensures Arranges(s, os, CreatedAt) <==>
            multiset(s) == multiset(os) && forall i, j :: 0 <= i < j < |s| ==> s[i].createdAt <= s[j].createdAt
    ensures Increasing(os, CreatedAt) <==>
            forall i, j :: 0 <= i < j < |os| && os[i] != os[j] ==> os[i].createdAt < os[j].createdAt
  {
    if Arranges(s, os, CreatedAt) {
      forall i, j | 0 <= i < j < |s| ensures s[i].createdAt <= s[j].createdAt {
        assert CreatedAt(s[i]) <= CreatedAt(s[j]);
      }
    }
    if Increasing(os, CreatedAt) {
      forall i, j | 0 <= i < j < |os| && os[i] != os[j] ensures os[i].createdAt < os[j].createdAt {
        assert CreatedAt(os[i]) < CreatedAt(os[j]);
      }
    }
  }

  /**
   The table records an override's start, not its commit. Reading a decision's overrides by `created_at` gives
   them in commit order, whatever happens to ties, exactly if later commits also started later; then they link up.
   */
  lemma StoredOrderExactly(acts: seq<Action>, d: Decision)
    requires IsRun(acts) && d in Run(acts).decisions
    ensures var w := Run(acts);
            var os := OverridesOf(w.overrides, d.id);
      && ((forall s :: Arranges(s, os, CreatedAt) ==> s == os) <==> Increasing(os, CreatedAt))
      && d.id in w.origin
      && (forall s :: Increasing(os, CreatedAt) && Arranges(s, os, CreatedAt) ==>
            Chained(w.origin[d.id].aggregateAction, s, d.outcome))
  {
    OverridesAreLinked(acts, d);
    OnlyOrderExactly(OverridesOf(Run(acts).overrides, d.id), CreatedAt);
  }

  function NewOutcome(o: Override): string { o.newOutcome }

  lemma SameLast(s: seq<Override>, os: seq<Override>)
    requires multiset(s) == multiset(os) && DistinctBy(os, NewOutcome) && s != [] && os != []
    requires s[|s| - 1].newOutcome == os[|os| - 1].newOutcome
    ensures s[|s| - 1] == os[|os| - 1]
  {
    var x := s[|s| - 1];
    assert x in multiset(s);
    SameId(os, NewOutcome, x, os[|os| - 1]);
  }

  lemma InitDistinct(os: seq<Override>)
    requires DistinctBy(os, NewOutcome) && os != []
    ensures DistinctBy(os[..|os| - 1], NewOutcome)
  {
    var init := os[..|os| - 1];
    forall i, j | 0 <= i < j < |init| ensures NewOutcome(init[i]) != NewOutcome(init[j]) {
      assert NewOutcome(os[i]) != NewOutcome(os[j]);
    }
  }

  /** If no outcome is set twice, only one order of the overrides links up. */
  lemma {:induction false} OnlyOneLinks(first: string, s: seq<Override>, os: seq<Override>, last: string)
    requires multiset(s) == multiset(os) && DistinctBy(os, NewOutcome)
    requires Chained(first, s, last) && Chained(first, os, last)
    ensures s == os
  {
    SameEmpty(s, os);
    if os != [] {
      var m, n := |s| - 1, |os| - 1;
      SameLast(s, os);
      InitDistinct(os);
      SameInit(s, os);
      OnlyOneLinks(first, s[..m], os[..n], os[n].previousOutcome);
      assert s == s[..m] + [s[m]];
      assert os == os[..n] + [os[n]];
    }
  }

  /** So if the overrides' outcomes differ, they link up in stored order exactly if that is their commit order. */
  lemma StoredLinksExactly(acts: seq<Action>, d: Decision)
    requires IsRun(acts) && d in Run(acts).decisions
    requires DistinctBy(OverridesOf(Run(acts).overrides, d.id), NewOutcome)
    ensures var w := Run(acts);
            var os := OverridesOf(w.overrides, d.id);
      && d.id in w.origin
      && ((forall s :: Arranges(s, os, CreatedAt) ==> Chained(w.origin[d.id].aggregateAction, s, d.outcome)) <==>
          Increasing(os, CreatedAt))
  {
    StoredOrderExactly(acts, d);
    OverridesAreLinked(acts, d);
    LinksExactly(Run(acts).origin[d.id].aggregateAction, OverridesOf(Run(acts).overrides, d.id), d.outcome);
  }

  lemma LinksExactly(first: string, os: seq<Override>, last: string)
    requires Chained(first, os, last) && DistinctBy(os, NewOutcome)
    ensures (forall s :: Arranges(s, os, CreatedAt) ==> Chained(first, s, last)) <==> Increasing(os, CreatedAt)
  {
    OnlyOrderExactly(os, CreatedAt);
    forall s | Arranges(s, os, CreatedAt) && Chained(first, s, last) ensures s == os {
      OnlyOneLinks(first, s, os, last);
    }
  }

  /**
   Where outcomes recur the order is only sufficient. In any run with one decision not yet overridden,
   three overrides to an outcome, back and to it again, begun in the reverse of the order they commit in,
   link up by `created_at` all the same.
   */
  lemma ReversedCanLink(w: World, a: Action, b: Action, c: Action)
    requires |w.decisions| == 1 && w.overrides == []
    requires IsOverride(a, w.decisions[0].id) && IsOverride(b, w.decisions[0].id) && IsOverride(c, w.decisions[0].id)
    requires c.newOutcome == a.newOutcome && b.newOutcome == w.decisions[0].outcome
    requires c.startedAt < b.startedAt < a.startedAt
    ensures var w' := Step(Step(Step(w, a), b), c);
      && |w'.decisions| == 1 && w'.decisions[0].outcome == c.newOutcome
      && w'.overrides == [LogRow(b.newOutcome, a), LogRow(a.newOutcome, b), LogRow(b.newOutcome, c)]
      && !Increasing(w'.overrides, CreatedAt)
      && forall s :: Arranges(s, w'.overrides, CreatedAt) ==> Chained(b.newOutcome, s, c.newOutcome)
  {
    OverrideOfOne(w, a);
    OverrideOfOne(Step(w, a), b);
    OverrideOfOne(Step(Step(w, a), b), c);
    ReversedLinks(LogRow(b.newOutcome, a), LogRow(a.newOutcome, b), LogRow(b.newOutcome, c));
  }

  lemma ReversedLinks(a: Override, b: Override, c: Override)
    requires a.newOutcome == b.previousOutcome == c.newOutcome && a.previousOutcome == b.newOutcome == c.previousOutcome
    requires c.createdAt < b.createdAt < a.createdAt
    ensures !Increasing([a, b, c], CreatedAt)
    ensures forall s :: Arranges(s, [a, b, c], CreatedAt) ==> Chained(a.previousOutcome, s, a.newOutcome)
  {
    var os: seq<Override>, stored: seq<Override> := [a, b, c], [c, b, a];
    assert multiset(os) == multiset(stored);
    assert CreatedAt(os[0]) > CreatedAt(os[1]) && os[0] != os[1];
    assert stored[..2] == [c, b] && [c, b][..1] == [c] && [c][..0] == [];
    assert Chained(a.previousOutcome, [c], c.newOutcome) && Chained(a.previousOutcome, [c, b], b.newOutcome);
    forall s | Arranges(s, os, CreatedAt) ensures Chained(a.previousOutcome, s, a.newOutcome) {
      IncreasingIsOnlyOrder(s, stored, CreatedAt);
    }
  }

  /** A run with one decision, recorded from `ev`. */
  function RecordOne(ev: RiskEvent, id: string): seq<Action> {
    [PublishRisk(ev)] + [Consume(0, id)]
  }

  /**
   Where one decision is not yet overridden, override `b` began before override `a` and commits after it.
   By `created_at` it comes first, and the history no longer ends at the outcome.
   */
  lemma LateStarterBreaksLinks(w: World, a: Action, b: Action)
    requires |w.decisions| == 1 && w.overrides == []
    requires IsOverride(a, w.decisions[0].id) && IsOverride(b, w.decisions[0].id)
    requires a.newOutcome != b.newOutcome && b.startedAt < a.startedAt
    ensures var first, w' := w.decisions[0].outcome, Step(Step(w, a), b);
            var o1, o2 := LogRow(first, a), LogRow(a.newOutcome, b);
      && |w'.decisions| == 1 && w'.decisions[0].outcome == b.newOutcome && w'.overrides == [o1, o2]
      && Arranges([o2, o1], [o1, o2], CreatedAt)
      && !Chained(first, [o2, o1], b.newOutcome)
  {
    OverrideOfOne(w, a);
    OverrideOfOne(Step(w, a), b);
    SwappedOverrides(LogRow(w.decisions[0].outcome, a), LogRow(a.newOutcome, b));
  }

  /** Both overrides are steps of a run, after any published event has been recorded. */
  lemma OverridesAreRun(ev: RiskEvent, id: string, a: Action, b: Action)
    requires Orchestrated(ev) && KnownAction(ev.aggregateAction) && IsOverride(a, id) && IsOverride(b, id)
    ensures var acts := RecordOne(ev, id);
      && IsRun(acts) && Run(acts).decisions == [NewDecision(id, ev)] && Run(acts).overrides == []
      && IsRun(acts + [a] + [b]) && Run(acts + [a] + [b]) == Step(Step(Run(acts), a), b)
  {
    RecordedOnce(ev, id);
    RunExtends(RecordOne(ev, id), a);
    RunExtends(RecordOne(ev, id) + [a], b);
  }

  /** So in every such run the overrides do not link up by `created_at`. */
  lemma StoredOrderCanBreakLinks(ev: RiskEvent, id: string, a: Action, b: Action)
    requires Orchestrated(ev) && KnownAction(ev.aggregateAction) && IsOverride(a, id) && IsOverride(b, id)
    requires a.newOutcome != b.newOutcome && b.startedAt < a.startedAt
    ensures var w := Run(RecordOne(ev, id) + [a] + [b]);
            var o1, o2 := LogRow(ev.aggregateAction, a), LogRow(a.newOutcome, b);
      && IsRun(RecordOne(ev, id) + [a] + [b])
      && |w.decisions| == 1 && w.decisions[0].outcome == b.newOutcome && w.overrides == [o1, o2]
      && Arranges([o2, o1], [o1, o2], CreatedAt)
      && !Chained(ev.aggregateAction, [o2, o1], b.newOutcome)
  {
    OverridesAreRun(ev, id, a, b);
    LateStarterBreaksLinks(Run(RecordOne(ev, id)), a, b);
  }

  lemma RecordedOnce(ev: RiskEvent, id: string)
    requires Orchestrated(ev) && KnownAction(ev.aggregateAction)
    ensures var acts := RecordOne(ev, id);
            IsRun(acts) && Run(acts).decisions == [NewDecision(id, ev)] && Run(acts).overrides == []
  {
    var first := [PublishRisk(ev)];
    assert [] + first == first;
    RunExtends([], PublishRisk(ev));
    RecordStep(ev, id);
    RunExtends(first, Consume(0, id));
  }

  lemma RecordStep(ev: RiskEvent, id: string)
    requires KnownAction(ev.aggregateAction)
    ensures var w := Step(START, PublishRisk(ev));
            var w' := Step(w, Consume(0, id));
            Enabled(w, Consume(0, id)) && w'.decisions == [NewDecision(id, ev)] && w'.overrides == []
  {
    assert Step(START, PublishRisk(ev)).risk == [ev];
  }

  function LogRow(previous: string, a: Action): Override
    requires a.OverrideBy?
  {
    Override(a.decisionId, a.analystId, previous, a.newOutcome, a.reason, a.startedAt)
  }

  /** An override of decision `id` with an outcome the store accepts. */
  predicate IsOverride(a: Action, id: string) {
    a.OverrideBy? && a.decisionId == id && KnownAction(a.newOutcome)
  }

  lemma OverrideOfOne(w: World, a: Action)
    requires |w.decisions| == 1 && IsOverride(a, w.decisions[0].id)
    ensures Step(w, a).decisions == [w.decisions[0].(outcome := a.newOutcome, overridden := true)]
    ensures Step(w, a).overrides == w.overrides + [LogRow(w.decisions[0].outcome, a)]
  {}

  lemma SwappedOverrides(o1: Override, o2: Override)
    requires o1.newOutcome == o2.previousOutcome != o2.newOutcome && o2.createdAt < o1.createdAt
    ensures Arranges([o2, o1], [o1, o2], CreatedAt) && !Chained(o1.previousOutcome, [o2, o1], o2.newOutcome)
  {
    var stored: seq<Override>, log: seq<Override> := [o2, o1], [o1, o2];
    assert multiset(stored) == multiset(log);
  }

  lemma RunExtends(acts: seq<Action>, a: Action)
    requires IsRun(acts) && Enabled(Run(acts), a)
    ensures IsRun(acts + [a]) && Run(acts + [a]) == Step(Run(acts), a)
  {
    var longer := acts + [a];
    assert longer[..|acts|] == acts;
    forall i | 0 <= i < |longer| ensures Enabled(Run(longer[..i]), longer[i]) {
      if i < |acts| { assert longer[..i] == acts[..i]; }
    }
  }

  /** Decisions come from published events, and those from the orchestrator. */
  ghost predicate OriginsPublished(w: World) {
    && (forall id :: id in w.origin ==> w.origin[id] in w.risk)
    && (forall i :: 0 <= i < |w.risk| ==> Agrees(w.risk[i]))
  }

  lemma StepKeepsOrigins(w: World, a: Action)
    requires OriginsPublished(w) && Enabled(w, a)
    ensures OriginsPublished(Step(w, a))
  {
    if a.PublishRisk? {
      ReasonsMatchAction(a.ev);
    }
  }

  lemma LastStep(acts: seq<Action>) returns (w: World, a: Action)
    requires acts != [] && IsRun(acts)
    ensures w == Run(acts[..|acts| - 1]) && a == acts[|acts| - 1] && IsRun(acts[..|acts| - 1])
    ensures Enabled(w, a) && Run(acts) == Step(w, a)
  {
    var n := |acts| - 1;
    PrefixIsRun(acts, n);
    assert Enabled(Run(acts[..n]), acts[n]);
    w, a := Run(acts[..n]), acts[n];
  }

  lemma {:induction false} OriginsWerePublished(acts: seq<Action>)
    requires IsRun(acts)
    ensures OriginsPublished(Run(acts))
  {
    if acts != [] {
      var w, a := LastStep(acts);
      OriginsWerePublished(acts[..|acts| - 1]);
      StepKeepsOrigins(w, a);
    }
  }

  /** Row i of `w` is still row i of `w'`, and differs at most in outcome and mark, and only if overridden since. */
  ghost predicate RowContinues(w: World, w': World, i: nat) {
    && i < |w.decisions| <= |w'.decisions|
    && w.overrides <= w'.overrides
    && var d, d' := w.decisions[i], w'.decisions[i];
       && d' == d.(outcome := d'.outcome, overridden := d'.overridden)
       && (d' != d ==> exists k :: OverriddenSince(w, w', d.id, k))
  }

  ghost predicate OverriddenSince(w: World, w': World, id: string, k: int) {
    |w.overrides| <= k < |w'.overrides| && w'.overrides[k].decisionId == id
  }

  lemma StepContinues(w: World, a: Action, i: nat)
    requires i < |w.decisions|
    ensures RowContinues(w, Step(w, a), i)
  {
    var w' := Step(w, a);
    if a.OverrideBy? && w'.decisions[i] != w.decisions[i] {
      assert OverriddenSince(w, w', w.decisions[i].id, |w.overrides|);
    }
  }

  lemma ContinuesTransitive(u: World, v: World, w: World, i: nat)
    requires RowContinues(u, v, i) && RowContinues(v, w, i)
    ensures RowContinues(u, w, i)
  {
    var id := u.decisions[i].id;
    if v.decisions[i] != u.decisions[i] {
      var k :| OverriddenSince(u, v, id, k);
      assert OverriddenSince(u, w, id, k);
    } else if w.decisions[i] != v.decisions[i] {
      var k :| OverriddenSince(v, w, id, k);
      assert OverriddenSince(u, w, id, k);
    }
  }

  lemma RunContinues(acts: seq<Action>, i: nat)
    requires acts != [] && i < |Run(acts[..|acts| - 1]).decisions|
    ensures RowContinues(Run(acts[..|acts| - 1]), Run(acts), i)
  {
    StepContinues(Run(acts[..|acts| - 1]), acts[|acts| - 1], i);
  }

  /** At two points of any run: no redelivery changes a decision, only an override in between does. */
  lemma {:induction false} OnlyOverridesChange(acts: seq<Action>, n: nat, i: nat)
    requires n <= |acts| && i < |Run(acts[..n]).decisions|
    ensures RowContinues(Run(acts[..n]), Run(acts), i)
  {
    if n == |acts| {
      assert acts[..n] == acts;
    } else {
      var m := |acts| - 1;
      assert acts[..m][..n] == acts[..n];
      OnlyOverridesChange(acts[..m], n, i);
      RunContinues(acts, i);
      ContinuesTransitive(Run(acts[..n]), Run(acts[..m]), Run(acts), i);
    }
  }

  /**
   Across the rules engine, orchestrator and decision service: while not overridden, a decision's outcome
   is the most severe action among the matched results it was recorded from, and its reasons agree.
   */
  lemma DecisionAgreesWithResults(acts: seq<Action>, d: Decision)
    requires IsRun(acts) && d in Run(acts).decisions
    ensures d.reasonCodes != [] && d.id in Run(acts).origin
    ensures var ev := Run(acts).origin[d.id];
      && (!ev.failOpen && !d.overridden ==>
            && MostSevere(d.outcome, d.ruleResults)
            && (d.outcome != "approve" ==>
                  exists r :: r in d.ruleResults && r.matched && d.outcome + "_rule:" + r.ruleId in d.reasonCodes))
      && (ev.failOpen ==> d.reasonCodes == ["fail_open_applied"] && (!d.overridden ==> d.outcome == "approve"))
  {
    RunKeepsInv(acts);
    var w := Run(acts);
    var i :| 0 <= i < |w.decisions| && w.decisions[i] == d;
    assert RowTrue(w, w.decisions[i]);
    OriginsWerePublished(acts);
    RowAgrees(w, d);
  }

  lemma RowAgrees(w: World, d: Decision)
    requires RowTrue(w, d) && Agrees(w.origin[d.id])
    ensures d.reasonCodes != []
    ensures var ev := w.origin[d.id];
      && (!ev.failOpen && !d.overridden ==>
            && MostSevere(d.outcome, d.ruleResults)
            && (d.outcome != "approve" ==>
                  exists r :: r in d.ruleResults && r.matched && d.outcome + "_rule:" + r.ruleId in d.reasonCodes))
      && (ev.failOpen ==> d.reasonCodes == ["fail_open_applied"] && (!d.overridden ==> d.outcome == "approve"))
  {
    assert Chained(w.origin[d.id].aggregateAction, OverridesOf(w.overrides, d.id), d.outcome);
  }
}
