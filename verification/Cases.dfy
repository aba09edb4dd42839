/** Case management: cases opened from decision.made messages, and the log of what was done to them. */
module Cases {
  import opened Common
  import opened Ordering
  import Decisions

  datatype Case = Case(id: string, decisionId: string, tenantId: string, assigneeId: string, status: string,
                       priority: string, paymentEventId: string, outcome: string, slaDeadline: int)

  /** `createdAt` is when the logging transaction began, which need not be the order in which they commit. */
  datatype CaseAction = CaseAction(caseId: string, actorId: string, action: string, notes: string, createdAt: int)

  datatype CaseStatus = UNSPECIFIED | OPEN | IN_REVIEW | RESOLVED | ESCALATED

  predicate KnownStatus(s: string) { s == "open" || s == "in_review" || s == "resolved" || s == "escalated" }
  predicate KnownPriority(p: string) { p == "low" || p == "medium" || p == "high" || p == "critical" }

  function StatusStr(s: CaseStatus): string {
    match s
    case OPEN => "open"
    case IN_REVIEW => "in_review"
    case RESOLVED => "resolved"
    case ESCALATED => "escalated"
    case UNSPECIFIED => ""
  }

  function OutcomeToPriority(outcome: string): string {
    if outcome == "block" then "critical" else if outcome == "review" then "high" else "medium"
  }

  // in milliseconds
  const HOUR: int := 3_600_000

  function SLADeadline(priority: string, now: int): int {
    now + HOUR * (if priority == "critical" then 4 else if priority == "high" then 24
                  else if priority == "medium" then 48 else 72)
  }

  predicate OpensCase(outcome: string) { outcome == "review" || outcome == "block" }

  predicate HasKey(c: Case, decisionId: string, tenantId: string) {
    c.decisionId == decisionId && c.tenantId == tenantId
  }

  function Find(cs: seq<Case>, decisionId: string, tenantId: string): (c: Option<Case>)
    ensures c.Some? ==> c.value in cs && HasKey(c.value, decisionId, tenantId)
    ensures c.None? ==> forall i :: 0 <= i < |cs| ==> !HasKey(cs[i], decisionId, tenantId)
  {
    if cs == [] then None
    else if HasKey(cs[0], decisionId, tenantId) then Some(cs[0])
    else Find(cs[1..], decisionId, tenantId)
  }

  function FindById(cs: seq<Case>, id: string): (k: Option<nat>)
    ensures k.Some? ==> k.value < |cs| && cs[k.value].id == id
    ensures k.None? ==> forall i :: 0 <= i < |cs| ==> cs[i].id != id
  {
    if cs == [] then None
    else if cs[0].id == id then Some(0)
    else
      var k := FindById(cs[1..], id);
      if k.Some? then Some(k.value + 1) else None
  }

  function NewCase(id: string, decisionId: string, tenantId: string, paymentEventId: string, outcome: string,
                   priority: string, deadline: int): Case {
    Case(id, decisionId, tenantId, "", "open", priority, paymentEventId, outcome, deadline)
  }

  /** `INSERT ... ON CONFLICT DO NOTHING`, under the CHECK on priorities. */
  function Created(cs: seq<Case>, c: Case): seq<Case> {
    if KnownPriority(c.priority) && Find(cs, c.decisionId, c.tenantId).None? then cs + [c] else cs
  }

  /** What an action does to the case it is logged for. */
  function StatusAfter(action: string): string {
    if action == "assign" then "in_review" else action
  }

  /** The status a case's log of actions leads to from "open"; each action sets it whatever it was. */
  function Replay(log: seq<CaseAction>): string {
    if log == [] then "open" else StatusAfter(log[|log| - 1].action)
  }

  function ActionsOf(log: seq<CaseAction>, caseId: string): seq<CaseAction> {
    Filter(log, (a: CaseAction) => a.caseId == caseId)
  }

  /** One logged action on a case: its status follows from the action, its assignee may be replaced. */
  function ActedOn(cs: seq<Case>, entry: CaseAction, assignee: Option<string>): seq<Case> {
    var k := FindById(cs, entry.caseId);
    if k.None? then cs
    else
      var c := cs[k.value];
      var assigneeId := if assignee.Some? then assignee.value else c.assigneeId;
      cs[k.value := c.(status := StatusAfter(entry.action), assigneeId := assigneeId)]
  }

  /** The decision has a case of the tenant. */
  predicate HasCase(cs: seq<Case>, decisionId: string, tenantId: string) {
    exists c :: c in cs && c.decisionId == decisionId && c.tenantId == tenantId
  }

  predicate HasId(cs: seq<Case>, id: string) {
    exists c :: c in cs && c.id == id
  }

  class CaseStore {
    var cases: seq<Case>
    var actions: seq<CaseAction>

    constructor ()
      ensures cases == [] && actions == []
    {
      cases, actions := [], [];
    }

    /** Opens a case unless the decision already has one; returns the one in the table. */
    method CreateCase(id: string, decisionId: string, tenantId: string, paymentEventId: string,
                      outcome: string, priority: string, deadline: int)
      returns (result: Result<Case>)
      modifies this`cases
      ensures cases ==
              Created(old(cases), NewCase(id, decisionId, tenantId, paymentEventId, outcome, priority, deadline))
      ensures !KnownPriority(priority) ==> result == Err(ConstraintViolation)
      ensures KnownPriority(priority) ==>
                result.Ok? && result.value in cases && HasKey(result.value, decisionId, tenantId)
      ensures result.Ok? <==> priority in {"low", "medium", "high", "critical"}
      ensures result.Ok? ==> result.value.decisionId == decisionId && result.value.tenantId == tenantId
      ensures result.Err? || HasCase(old(cases), decisionId, tenantId) ==> cases == old(cases)
      ensures result.Ok? && !HasCase(old(cases), decisionId, tenantId) ==>
                && cases == old(cases) + [result.value]
                && result.value
                   == Case(id, decisionId, tenantId, "", "open", priority, paymentEventId, outcome, deadline)
    {
      if !KnownPriority(priority) { return Err(ConstraintViolation); }
      var existing := Find(cases, decisionId, tenantId);
      if existing.Some? { return Ok(existing.value); }
      var c := NewCase(id, decisionId, tenantId, paymentEventId, outcome, priority, deadline);
      cases := cases + [c];
      result := Ok(c);
    }

    method AssignCase(caseId: string, assigneeId: string, actorId: string, notes: string, at: int)
      returns (result: Result<Case>)
      modifies this
      ensures var k := FindById(old(cases), caseId);
        if k.None? then result == Err(NotFound) && cases == old(cases) && actions == old(actions)
        else
          && result == Ok(old(cases)[k.value].(assigneeId := assigneeId, status := "in_review"))
          && cases == old(cases)[k.value := result.value]
          && actions == old(actions) + [CaseAction(caseId, actorId, "assign", notes, at)]
      ensures cases == ActedOn(old(cases), CaseAction(caseId, actorId, "assign", notes, at), Some(assigneeId))
      ensures result.Ok? <==> HasId(old(cases), caseId)
      ensures result.Ok? ==>
        result.value.id == caseId && result.value.status == "in_review" && result.value.assigneeId == assigneeId
    {
      var k := FindById(cases, caseId);
      if k.None? { return Err(NotFound); }
      cases := cases[k.value := cases[k.value].(assigneeId := assigneeId, status := "in_review")];
      actions := actions + [CaseAction(caseId, actorId, "assign", notes, at)];
      result := Ok(cases[k.value]);
    }

    /** Changes the status and logs it under the same name; an unknown status rolls back. */
    method UpdateCaseStatus(caseId: string, newStatus: string, actorId: string, notes: string, at: int)
      returns (result: Result<Case>)
      modifies this
      ensures var k := FindById(old(cases), caseId);
        if k.None? || !KnownStatus(newStatus) then
          && result == Err(if k.None? then NotFound else ConstraintViolation)
          && cases == old(cases) && actions == old(actions)
        else
          && result == Ok(old(cases)[k.value].(status := newStatus))
          && cases == old(cases)[k.value := result.value]
          && actions == old(actions) + [CaseAction(caseId, actorId, newStatus, notes, at)]
      ensures result.Ok? <==>
                HasId(old(cases), caseId) && newStatus in {"open", "in_review", "resolved", "escalated"}
      ensures result.Ok? ==> result.value.id == caseId && result.value.status == newStatus
      ensures KnownStatus(newStatus) ==>
                cases == ActedOn(old(cases), CaseAction(caseId, actorId, newStatus, notes, at), None)
    {
      var k := FindById(cases, caseId);
      if k.None? { return Err(NotFound); }
      if !KnownStatus(newStatus) { return Err(ConstraintViolation); }
      cases := cases[k.value := cases[k.value].(status := newStatus)];
      actions := actions + [CaseAction(caseId, actorId, newStatus, notes, at)];
      result := Ok(cases[k.value]);
    }

    method EscalateCase(caseId: string, actorId: string, reason: string, at: int)
      returns (result: Result<Case>)
      modifies this
      ensures var k := FindById(old(cases), caseId);
        if k.None? then result == Err(NotFound) && cases == old(cases) && actions == old(actions)
        else
          && result == Ok(old(cases)[k.value].(status := "escalated"))
          && cases == old(cases)[k.value := result.value]
          && actions == old(actions) + [CaseAction(caseId, actorId, "escalated", reason, at)]
      ensures cases == ActedOn(old(cases), CaseAction(caseId, actorId, "escalated", reason, at), None)
    {
      result := UpdateCaseStatus(caseId, "escalated", actorId, reason, at);
    }
  }

  class CaseService {
    const store: CaseStore

    constructor (store: CaseStore)
      ensures this.store == store
    {
      this.store := store;
    }

    method AssignCase(caseId: string, assigneeId: string, actorId: string, at: int)
      returns (result: Result<Case>)
      modifies store
      ensures result == Err(InvalidArgument) <==> caseId == "" || assigneeId == ""
      ensures result.Err? ==> store.cases == old(store.cases) && store.actions == old(store.actions)
      ensures result.Ok? ==>
        && result.value in store.cases && result.value.id == caseId
        && result.value.assigneeId == assigneeId && result.value.status == "in_review"
        && store.cases == ActedOn(old(store.cases), CaseAction(caseId, actorId, "assign", "", at), Some(assigneeId))
        && store.actions == old(store.actions) + [CaseAction(caseId, actorId, "assign", "", at)]
    {
      if caseId == "" { return Err(InvalidArgument); }
      if assigneeId == "" { return Err(InvalidArgument); }
      result := store.AssignCase(caseId, assigneeId, actorId, "", at);
      assert result.Ok? ==> store.cases[FindById(old(store.cases), caseId).value] == result.value;
    }

    method EscalateCase(caseId: string, actorId: string, reason: string, at: int)
      returns (result: Result<Case>)
      modifies store
      ensures result == Err(InvalidArgument) <==> caseId == ""
      ensures result.Err? ==> store.cases == old(store.cases) && store.actions == old(store.actions)
      ensures result.Ok? ==>
        && result.value in store.cases && result.value.id == caseId && result.value.status == "escalated"
        && store.cases == ActedOn(old(store.cases), CaseAction(caseId, actorId, "escalated", reason, at), None)
        && store.actions == old(store.actions) + [CaseAction(caseId, actorId, "escalated", reason, at)]
    {
      if caseId == "" { return Err(InvalidArgument); }
      result := store.EscalateCase(caseId, actorId, reason, at);
      assert result.Ok? ==> store.cases[FindById(old(store.cases), caseId).value] == result.value;
    }

    /** The handler lets only named statuses through, so the store's CHECK never fires. */
    method UpdateCaseStatus(caseId: string, status: CaseStatus, actorId: string, notes: string, at: int)
      returns (result: Result<Case>)
      modifies store
      ensures result.Err? ==> result.error != ConstraintViolation
      ensures result.Err? ==> store.cases == old(store.cases) && store.actions == old(store.actions)
      ensures result == Err(InvalidArgument) <==> caseId == "" || status.UNSPECIFIED?
      ensures result.Ok? ==>
        var k := FindById(old(store.cases), caseId);
        var s := match status
                 case OPEN => "open"
                 case IN_REVIEW => "in_review"
                 case RESOLVED => "resolved"
                 case ESCALATED => "escalated"
                 case UNSPECIFIED => "";
        && k.Some? && result.value == old(store.cases)[k.value].(status := s)
        && store.cases == old(store.cases)[k.value := result.value]
        && store.actions == old(store.actions) + [CaseAction(caseId, actorId, s, notes, at)]
    {
      if caseId == "" || status.UNSPECIFIED? { return Err(InvalidArgument); }
      result := store.UpdateCaseStatus(caseId, StatusStr(status), actorId, notes, at);
    }

    /** One message of the consumer: only review and block outcomes open a case. */
    method HandleDecisionMade(d: Decisions.Decision, id: string, now: int)
      modifies store`cases
      ensures store.cases ==
              if OpensCase(d.outcome) then Created(old(store.cases), CaseFor(d, id, now)) else old(store.cases)
      ensures d.outcome !in {"review", "block"} || HasCase(old(store.cases), d.id, d.tenantId) ==>
                store.cases == old(store.cases)
      ensures d.outcome in {"review", "block"} && !HasCase(old(store.cases), d.id, d.tenantId) ==>
                store.cases == old(store.cases) +
                  [Case(id, d.id, d.tenantId, "", "open", if d.outcome == "block" then "critical" else "high",
                        d.paymentEventId, d.outcome, now + (if d.outcome == "block" then 4 else 24) * 60 * 60 * 1000)]
    {
      if d.outcome != "review" && d.outcome != "block" { return; }
      var priority := OutcomeToPriority(d.outcome);
      var deadline := SLADeadline(priority, now);
      var _ := store.CreateCase(id, d.id, d.tenantId, d.paymentEventId, d.outcome, priority, deadline);
    }
  }

  function CaseFor(d: Decisions.Decision, id: string, now: int): Case {
    var priority := OutcomeToPriority(d.outcome);
    NewCase(id, d.id, d.tenantId, d.paymentEventId, d.outcome, priority, SLADeadline(priority, now))
  }

  // ---------------------------------------------------------------- runs

  /**
   Case management beside the decision pipeline. `openedBy` is a history variable: the message each
   case created by the consumer was created from, and when.
   */
  datatype World = World(up: Decisions.World, cases: seq<Case>, actions: seq<CaseAction>,
                         openedBy: map<string, Opening>)

  datatype Opening = Opening(message: Decisions.Decision, at: int)

  datatype Action =
    | Upstream(a: Decisions.Action)
    | Consume(offset: nat, id: string, now: int)  // any decision.made message, any number of times, or never
    | Create(c: Case)                             // through the API
    | Assign(caseId: string, assigneeId: string, actorId: string, at: int)
    | SetStatus(caseId: string, status: CaseStatus, actorId: string, notes: string, at: int)  // escalation included

  const START: World := World(Decisions.START, [], [], map[])

  ghost predicate Fresh(w: World, id: string) {
    && (forall i :: 0 <= i < |w.cases| ==> w.cases[i].id != id)
    && (forall i :: 0 <= i < |w.actions| ==> w.actions[i].caseId != id)
    && id !in w.openedBy
  }

  ghost predicate Enabled(w: World, a: Action) {
    match a
    case Upstream(u) => Decisions.Enabled(w.up, u)
    case Consume(offset, id, _) => offset < |w.up.made| && Fresh(w, id)
    case Create(c) => Fresh(w, c.id) && c.status == "open" && c.assigneeId == ""
    case Assign(_, assigneeId, _, _) => assigneeId != ""
    case SetStatus(_, status, _, _, _) => !status.UNSPECIFIED?
  }

  function Insert(w: World, c: Case, opening: Option<Opening>): World {
    var cs := Created(w.cases, c);
    w.(cases := cs,
       openedBy := if opening.Some? && |cs| > |w.cases| then w.openedBy[c.id := opening.value] else w.openedBy)
  }

  /** An action on a case that exists is logged. */
  function Act(w: World, entry: CaseAction, assignee: Option<string>): World {
    w.(cases := ActedOn(w.cases, entry, assignee),
       actions := if FindById(w.cases, entry.caseId).None? then w.actions else w.actions + [entry])
  }

  function Step(w: World, a: Action): World {
    match a
    case Upstream(u) => w.(up := Decisions.Step(w.up, u))
    case Consume(offset, id, now) =>
      if offset < |w.up.made| && OpensCase(w.up.made[offset].outcome)
      then Insert(w, CaseFor(w.up.made[offset], id, now), Some(Opening(w.up.made[offset], now)))
      else w
    case Create(c) => Insert(w, c, None)
    case Assign(id, assignee, actor, at) => Act(w, CaseAction(id, actor, "assign", "", at), Some(assignee))
    case SetStatus(id, status, actor, notes, at) => Act(w, CaseAction(id, actor, StatusStr(status), notes, at), None)
  }

  /** A step does to the table what the store and the consumer do. */
  lemma StepsFollowTheStore(w: World, a: Action)
    requires Enabled(w, a)
    ensures var w' := Step(w, a);
      match a
      case Upstream(u) => w' == w.(up := Decisions.Step(w.up, u))
      case Consume(offset, id, now) =>
        var d := w.up.made[offset];
        if d.outcome !in {"review", "block"} || HasCase(w.cases, d.id, d.tenantId) then w' == w
        else
          var c := Case(id, d.id, d.tenantId, "", "open", if d.outcome == "block" then "critical" else "high",
                        d.paymentEventId, d.outcome, now + (if d.outcome == "block" then 4 else 24) * 3_600_000);
          w' == w.(cases := w.cases + [c], openedBy := w.openedBy[id := Opening(d, now)])
      case Create(c) =>
        w' == if c.priority !in {"low", "medium", "high", "critical"} || HasCase(w.cases, c.decisionId, c.tenantId)
              then w else w.(cases := w.cases + [c])
      case Assign(id, assigneeId, actorId, at) =>
        if !HasId(w.cases, id) then w' == w
        else
          && w' == w.(cases := w'.cases, actions := w.actions + [CaseAction(id, actorId, "assign", "", at)])
          && exists k :: 0 <= k < |w.cases| && w.cases[k].id == id &&
               w'.cases == w.cases[k := w.cases[k].(status := "in_review", assigneeId := assigneeId)]
      case SetStatus(id, status, actorId, notes, at) =>
        if !HasId(w.cases, id) then w' == w
        else
          && w' == w.(cases := w'.cases, actions := w.actions + [CaseAction(id, actorId, StatusStr(status), notes, at)])
          && exists k :: 0 <= k < |w.cases| && w.cases[k].id == id &&
               w'.cases == w.cases[k := w.cases[k].(status := StatusStr(status))]
  {
    match a
    case Assign(id, assigneeId, _, _) =>
      var k := FindById(w.cases, id);
      if k.Some? { assert w.cases[k.value] in w.cases && w.cases[k.value].id == id; }
    case SetStatus(id, status, _, _, _) =>
      var k := FindById(w.cases, id);
      if k.Some? { assert w.cases[k.value] in w.cases && w.cases[k.value].id == id; }
    case _ =>
  }

  /** Deadlines follow the priority; only review and block have one of their own. */
  lemma DeadlinesExactly(outcome: string, priority: string, status: CaseStatus, now: int)
    ensures SLADeadline("critical", now) == now + 4 * 60 * 60 * 1000
    ensures SLADeadline("high", now) == now + 24 * 60 * 60 * 1000
    ensures SLADeadline("medium", now) == now + 48 * 60 * 60 * 1000
    ensures priority !in {"critical", "high", "medium"} ==> SLADeadline(priority, now) == now + 72 * 60 * 60 * 1000
    ensures OutcomeToPriority(outcome) == "medium" <==> outcome !in {"review", "block"}
    ensures KnownStatus(StatusStr(status)) <==> status != UNSPECIFIED
  {}

  function Run(acts: seq<Action>): World {
    if acts == [] then START else Step(Run(acts[..|acts| - 1]), acts[|acts| - 1])
  }

  ghost predicate IsRun(acts: seq<Action>) {
    forall i :: 0 <= i < |acts| ==> Enabled(Run(acts[..i]), acts[i])
  }

  ghost predicate Unique(cs: seq<Case>) {
    forall i, j :: 0 <= i < j < |cs| ==> cs[i].id != cs[j].id && !HasKey(cs[i], cs[j].decisionId, cs[j].tenantId)
  }

  /** The log explains the status. */
  ghost predicate LogTrue(w: World, c: Case) {
    Replay(ActionsOf(w.actions, c.id)) == c.status
  }

  /** A case the consumer opened shows what its message said, and is due as its priority asks. */
  ghost predicate OpenedTrue(w: World, c: Case) {
    c.id in w.openedBy ==>
      var d := w.openedBy[c.id].message;
      && OpensCase(d.outcome)
      && c.decisionId == d.id && c.tenantId == d.tenantId && c.paymentEventId == d.paymentEventId
      && c.outcome == d.outcome && c.priority == OutcomeToPriority(d.outcome)
      && c.slaDeadline == SLADeadline(c.priority, w.openedBy[c.id].at)
  }

  ghost predicate Inv(w: World) {
    && Unique(w.cases)
    && (forall i :: 0 <= i < |w.cases| ==> LogTrue(w, w.cases[i]))
    && (forall i :: 0 <= i < |w.cases| ==> OpenedTrue(w, w.cases[i]))
    && (forall id :: id in w.openedBy ==> w.openedBy[id].message in w.up.made)
  }

  lemma ActionsAppend(log: seq<CaseAction>, a: CaseAction, caseId: string)
    ensures ActionsOf(log + [a], caseId) == ActionsOf(log, caseId) + if a.caseId == caseId then [a] else []
  {
    var p := (x: CaseAction) => x.caseId == caseId;
    FilterAppend(log, [a], p);
    FilterOne(a, p);
  }

  lemma InsertKeepsInv(w: World, c: Case, opening: Option<Opening>)
    requires Inv(w) && Fresh(w, c.id) && c.status == "open"
    requires opening.Some? ==>
               opening.value.message in w.up.made && OpenedTrue(w.(openedBy := w.openedBy[c.id := opening.value]), c)
    ensures Inv(Insert(w, c, opening))
  {
    var w' := Insert(w, c, opening);
    FilterNone(w.actions, (a: CaseAction) => a.caseId == c.id);
    forall i | 0 <= i < |w'.cases| ensures LogTrue(w', w'.cases[i]) && OpenedTrue(w', w'.cases[i]) {
      if i < |w.cases| {
        assert LogTrue(w, w.cases[i]) && OpenedTrue(w, w.cases[i]) && w.cases[i].id != c.id;
      }
    }
  }

  lemma ActKeepsInv(w: World, entry: CaseAction, assignee: Option<string>)
    requires Inv(w)
    ensures Inv(Act(w, entry, assignee))
  {
    var w' := Act(w, entry, assignee);
    var k := FindById(w.cases, entry.caseId);
    if k.Some? {
      forall i | 0 <= i < |w'.cases| ensures LogTrue(w', w'.cases[i]) && OpenedTrue(w', w'.cases[i]) {
        assert LogTrue(w, w.cases[i]) && OpenedTrue(w, w.cases[i]);
        ActionsAppend(w.actions, entry, w.cases[i].id);
      }
      ActKeepsUnique(w.cases, k.value, w'.cases[k.value]);
    }
  }

  lemma ActKeepsUnique(cs: seq<Case>, k: nat, c: Case)
    requires Unique(cs) && k < |cs| && c == cs[k].(assigneeId := c.assigneeId, status := c.status)
    ensures Unique(cs[k := c])
  {}

  lemma UpstreamKeepsInv(w: World, u: Decisions.Action)
    requires Inv(w)
    ensures Inv(w.(up := Decisions.Step(w.up, u)))
  {
    var w' := w.(up := Decisions.Step(w.up, u));
    forall i | 0 <= i < |w'.cases| ensures LogTrue(w', w'.cases[i]) && OpenedTrue(w', w'.cases[i]) {
      assert LogTrue(w, w.cases[i]) && OpenedTrue(w, w.cases[i]);
    }
    MadeGrows(w.up, u);
  }

  lemma MadeGrows(w: Decisions.World, u: Decisions.Action)
    ensures w.made <= Decisions.Step(w, u).made
    ensures forall d :: d in w.made ==> d in Decisions.Step(w, u).made
  {}

  lemma StepKeepsInv(w: World, a: Action)
    requires Inv(w) && Enabled(w, a)
    ensures Inv(Step(w, a))
  {
    match a
    case Upstream(u) => UpstreamKeepsInv(w, u);
    case Consume(offset, id, now) =>
      var d := w.up.made[offset];
      if OpensCase(d.outcome) { InsertKeepsInv(w, CaseFor(d, id, now), Some(Opening(d, now))); }
    case Create(c) => InsertKeepsInv(w, c, None);
    case Assign(id, assignee, actor, at) => ActKeepsInv(w, CaseAction(id, actor, "assign", "", at), Some(assignee));
    case SetStatus(id, status, actor, notes, at) =>
      ActKeepsInv(w, CaseAction(id, actor, StatusStr(status), notes, at), None);
  }

  lemma {:induction false} RunKeepsInv(acts: seq<Action>)
    requires IsRun(acts)
    ensures Inv(Run(acts)) && Decisions.Inv(Run(acts).up)
  {
    if acts != [] {
      var n := |acts| - 1;
      forall i | 0 <= i < n ensures acts[..n][..i] == acts[..i] {}
      RunKeepsInv(acts[..n]);
      StepKeepsInv(Run(acts[..n]), acts[n]);
      if acts[n].Upstream? {
        Decisions.StepKeepsInv(Run(acts[..n]).up, acts[n].a);
      }
    }
  }

  /** However decision.made messages are repeated, a decision has at most one case per tenant. */
  lemma AtMostOneCase(acts: seq<Action>, c: Case, e: Case)
    requires IsRun(acts) && c in Run(acts).cases && e in Run(acts).cases
    requires c.decisionId == e.decisionId && c.tenantId == e.tenantId
    ensures c == e
  {
    RunKeepsInv(acts);
    UniqueRow(Run(acts).cases, c, e);
  }

  lemma UniqueRow(cs: seq<Case>, c: Case, e: Case)
    requires Unique(cs) && c in cs && e in cs && HasKey(c, e.decisionId, e.tenantId)
    ensures c == e
  {
    var i :| 0 <= i < |cs| && cs[i] == c;
    var j :| 0 <= j < |cs| && cs[j] == e;
  }

  /**
   A case the consumer opened has an outcome its decision held at some moment, review or block, with the
   matching priority and a deadline 24 or 4 hours after it was opened, whatever overrides and redeliveries
   happened before and since.
   */
  lemma OpenedCaseMatchesDecision(acts: seq<Action>, c: Case)
    requires IsRun(acts) && c in Run(acts).cases && c.id in Run(acts).openedBy
    ensures Decisions.Held(Run(acts).up, c.decisionId, c.outcome)
    ensures var at := Run(acts).openedBy[c.id].at;
      || (c.outcome == "review" && c.priority == "high" && c.slaDeadline == at + 24 * 60 * 60 * 1000)
      || (c.outcome == "block" && c.priority == "critical" && c.slaDeadline == at + 4 * 60 * 60 * 1000)
  {
    RunKeepsInv(acts);
    var w := Run(acts);
    var i :| 0 <= i < |w.cases| && w.cases[i] == c;
    assert OpenedTrue(w, w.cases[i]);
    var k :| 0 <= k < |w.up.made| && w.up.made[k] == w.openedBy[c.id].message;
    assert Decisions.CopyTrue(w.up, w.up.made[k]);
  }

  /** Replaying a case's log from the initial status always gives its current status. */
  lemma LogExplainsStatus(acts: seq<Action>, c: Case)
    requires IsRun(acts) && c in Run(acts).cases
    ensures Replay(ActionsOf(Run(acts).actions, c.id)) == c.status
  {
    RunKeepsInv(acts);
    var w := Run(acts);
    var i :| 0 <= i < |w.cases| && w.cases[i] == c;
    assert LogTrue(w, w.cases[i]);
  }

  function CreatedAt(a: CaseAction): int { a.createdAt }

  /** Read by `created_at`, a log comes with rising start times, and the action that started last may come last. */
  lemma ByStartTime(s: seq<CaseAction>, log: seq<CaseAction>, a: CaseAction)
    ensures Arranges(s, log, CreatedAt) <==>
            multiset(s) == multiset(log) && forall i, j :: 0 <= i < j < |s| ==> s[i].createdAt <= s[j].createdAt
    ensures Latest(a, log, CreatedAt) <==> a in log && forall b :: b in log ==> b.createdAt <= a.createdAt
  {
    if Arranges(s, log, CreatedAt) {
      forall i, j | 0 <= i < j < |s| ensures s[i].createdAt <= s[j].createdAt {
        assert CreatedAt(s[i]) <= CreatedAt(s[j]);
      }
    }
    if Latest(a, log, CreatedAt) {
      forall b | b in log ensures b.createdAt <= a.createdAt {
        assert CreatedAt(b) <= CreatedAt(a);
      }
    }
  }

  /** Reading a log by start time instead gives `status` exactly if each action that started last leads to it. */
  lemma ReplayOfStored(log: seq<CaseAction>, status: string)
    requires log != []
    ensures (forall s :: Arranges(s, log, CreatedAt) ==> Replay(s) == status) <==>
            (forall a :: Latest(a, log, CreatedAt) ==> StatusAfter(a.action) == status)
  {
    if forall s :: Arranges(s, log, CreatedAt) ==> Replay(s) == status {
      forall a | Latest(a, log, CreatedAt) ensures StatusAfter(a.action) == status {
        var s := LatestCanBeLast(a, log, CreatedAt);
        assert Replay(s) == status;
      }
    }
    if forall a :: Latest(a, log, CreatedAt) ==> StatusAfter(a.action) == status {
      forall s | Arranges(s, log, CreatedAt) ensures Replay(s) == status {
        SameMembers(s, log);
        LastIsLatest(s, log, CreatedAt);
      }
    }
  }

  /**
   The table records an action's start, not its commit. Replaying a case's log by `created_at` gives its
   status, whatever happens to ties, if and only if each of its actions that started last leads to it.
   */
  lemma StoredLogExactly(acts: seq<Action>, c: Case)
    requires IsRun(acts) && c in Run(acts).cases
    ensures var log := ActionsOf(Run(acts).actions, c.id);
            (forall s :: Arranges(s, log, CreatedAt) ==> Replay(s) == c.status) <==>
            (forall a :: Latest(a, log, CreatedAt) ==> StatusAfter(a.action) == c.status)
  {
    LogExplainsStatus(acts, c);
    var log := ActionsOf(Run(acts).actions, c.id);
    if log == [] {
      forall s | Arranges(s, log, CreatedAt) ensures s == [] {
        SameMembers(s, log);
      }
    } else {
      ReplayOfStored(log, c.status);
    }
  }

  lemma RunExtends(acts: seq<Action>, a: Action)
    requires IsRun(acts) && Enabled(Run(acts), a)
    ensures IsRun(acts + [a]) && Run(acts + [a]) == Step(Run(acts), a)
  {
    var longer := acts + [a];
    assert longer[..|acts|] == acts;
    forall i | 0 <= i < |longer| ensures Enabled(Run(longer[..i]), longer[i]) {
      if i < |acts| { assert longer[..i] == acts[..i]; }
    }
  }

  lemma ActionOfOne(w: World, entry: CaseAction, assignee: Option<string>)
    requires |w.cases| == 1 && entry.caseId == w.cases[0].id
    ensures var w' := Act(w, entry, assignee);
      && w'.actions == w.actions + [entry]
      && |w'.cases| == 1 && w'.cases[0].id == entry.caseId && w'.cases[0].status == StatusAfter(entry.action)
  {}

  /**
   Where there is one case and nothing logged, it is assigned and then resolved, by a transaction that had
   begun before the assignment's. The log by `created_at` replays to in_review.
   */
  lemma LateStarterMisleads(w: World, assignee: string, actor: string, notes: string)
    requires |w.cases| == 1 && w.actions == []
    ensures var id := w.cases[0].id;
            var w' := Step(Step(w, Assign(id, assignee, actor, 2)), SetStatus(id, RESOLVED, actor, notes, 1));
            var assign, resolve := CaseAction(id, actor, "assign", "", 2), CaseAction(id, actor, "resolved", notes, 1);
      && |w'.cases| == 1 && w'.cases[0].id == id && w'.cases[0].status == "resolved"
      && ActionsOf(w'.actions, id) == [assign, resolve]
      && Arranges([resolve, assign], [assign, resolve], CreatedAt)
      && Replay([resolve, assign]) == "in_review"
  {
    var id := w.cases[0].id;
    var assign, resolve := CaseAction(id, actor, "assign", "", 2), CaseAction(id, actor, "resolved", notes, 1);
    ActionOfOne(w, assign, Some(assignee));
    ActionOfOne(Act(w, assign, Some(assignee)), resolve, None);
    var none: seq<CaseAction> := [];
    assert none + [assign] + [resolve] == [assign, resolve];
    TwoLogged(id, assign, resolve);
  }

  /** An open case as the API creates it. */
  predicate IsNew(c: Case) {
    c.status == "open" && c.assigneeId == "" && KnownPriority(c.priority)
  }

  lemma CreatedOnce(c: Case)
    requires IsNew(c)
    ensures IsRun([Create(c)]) && Run([Create(c)]).cases == [c] && Run([Create(c)]).actions == []
  {
    assert [] + [Create(c)] == [Create(c)];
    RunExtends([], Create(c));
    assert Find([], c.decisionId, c.tenantId).None?;
    assert Created([], c) == [c];
  }

  /** So in a run the log need not replay to the status by `created_at`. */
  lemma StoredLogCanMislead(c: Case, assignee: string, actor: string, notes: string)
    requires IsNew(c) && assignee != ""
    ensures var acts := [Create(c)] + [Assign(c.id, assignee, actor, 2)] + [SetStatus(c.id, RESOLVED, actor, notes, 1)];
            var log := ActionsOf(Run(acts).actions, c.id);
      && IsRun(acts)
      && |Run(acts).cases| == 1 && Run(acts).cases[0].id == c.id && Run(acts).cases[0].status == "resolved"
      && |log| == 2 && Arranges([log[1], log[0]], log, CreatedAt)
      && Replay([log[1], log[0]]) == "in_review"
  {
    CreatedOnce(c);
    RunExtends([Create(c)], Assign(c.id, assignee, actor, 2));
    RunExtends([Create(c)] + [Assign(c.id, assignee, actor, 2)], SetStatus(c.id, RESOLVED, actor, notes, 1));
    LateStarterMisleads(Run([Create(c)]), assignee, actor, notes);
  }

  lemma TwoLogged(caseId: string, first: CaseAction, second: CaseAction)
    requires first.caseId == second.caseId == caseId && second.createdAt < first.createdAt
    ensures ActionsOf([first, second], caseId) == [first, second]
    ensures Arranges([second, first], [first, second], CreatedAt)
    ensures Replay([second, first]) == StatusAfter(first.action)
  {
    ActionsAppend([], first, caseId);
    ActionsAppend([first], second, caseId);
    assert [] + [first] == [first] && [first] + [second] == [first, second];
    var stored: seq<CaseAction>, log: seq<CaseAction> := [second, first], [first, second];
    assert multiset(stored) == multiset(log);
  }
}
