/** The cache of a tenant's enabled rules, and how stale the list a load returns can be. */
module RuleCache {
  import opened Common
  import opened GoValues
  import opened RuleStore
  import opened Evaluator
  import opened Aggregation

  // 5 minutes, in milliseconds
  const TTL: int := 300_000

  datatype Entry = Entry(rules: seq<CachedRule>, expiresAt: int)

  /**
   What a read of the cache at `now` yields. A nil rule list is stored as JSON `null` and read back
   as nil, which the caller takes for a miss: an empty list is never a hit.
   */
  function Lookup(entries: map<string, Entry>, tenantId: string, now: int): Option<seq<CachedRule>> {
    if tenantId in entries && now < entries[tenantId].expiresAt && entries[tenantId].rules != []
    then Some(entries[tenantId].rules)
    else None
  }

  function ToCached(r: Rule): CachedRule {
    CachedRule(r.id, r.name, r.version, r.expression, r.action, r.priority)
  }

  function ToCachedAll(rows: seq<Rule>): (out: seq<CachedRule>)
    ensures |out| == |rows| && forall i :: 0 <= i < |rows| ==> out[i] == ToCached(rows[i])
  {
    if rows == [] then [] else [ToCached(rows[0])] + ToCachedAll(rows[1..])
  }

  /** The conversion loop of `loadRules`. */
  method ConvertRows(rows: seq<Rule>) returns (out: seq<CachedRule>)
    ensures out == ToCachedAll(rows)
  {
    out := [];
    var i := 0;
    while i < |rows|
      invariant 0 <= i == |out| <= |rows|
      invariant forall k :: 0 <= k < i ==> out[k] == ToCached(rows[k])
    {
      out := out + [ToCached(rows[i])];
      i := i + 1;
    }
  }

  /** Field by field, `c` is what the evaluator needs of `r`. */
  ghost predicate Mirrors(c: CachedRule, r: Rule) {
    && c.id == r.id && c.name == r.name && c.version == r.version
    && c.expression == r.expression && c.action == r.action && c.priority == r.priority
  }

  ghost predicate MirrorsAll(cs: seq<CachedRule>, rows: seq<Rule>) {
    |cs| == |rows| && forall i :: 0 <= i < |rows| ==> Mirrors(cs[i], rows[i])
  }

  /** `rules` is the tenant's enabled rules, in store order, in the given table. */
  ghost predicate IsCurrent(rules: seq<CachedRule>, table: map<string, Rule>, tenantId: string) {
    exists rows :: IsListing(rows, table, tenantId, false) && MirrorsAll(rules, rows)
  }

  /** The table stores its rows under their ids. */
  predicate Keyed(table: map<string, Rule>) {
    forall id :: id in table ==> table[id].id == id
  }

  /** A current list has one entry for each enabled rule of the tenant, equal to it field by field, and no other. */
  lemma CurrentExactly(rules: seq<CachedRule>, table: map<string, Rule>, tenantId: string)
    requires IsCurrent(rules, table, tenantId) && Keyed(table)
    ensures forall i :: 0 <= i < |rules| ==>
              && rules[i].id in table && Mirrors(rules[i], table[rules[i].id])
              && table[rules[i].id].tenantId == tenantId && table[rules[i].id].enabled
    ensures forall i, j :: 0 <= i < j < |rules| ==> rules[i].id != rules[j].id && rules[i].priority >= rules[j].priority
    ensures forall id :: id in table && table[id].tenantId == tenantId && table[id].enabled ==>
              exists i :: 0 <= i < |rules| && Mirrors(rules[i], table[id])
  {
    var rows :| IsListing(rows, table, tenantId, false) && MirrorsAll(rules, rows);
    ListingExactly(rows, table, tenantId, false);
    forall i | 0 <= i < |rules|
      ensures rules[i].id in table && Mirrors(rules[i], table[rules[i].id])
      ensures table[rules[i].id].tenantId == tenantId && table[rules[i].id].enabled
    {
      assert rows[i] in rows && Mirrors(rules[i], rows[i]);
    }
    forall id | id in table && table[id].tenantId == tenantId && table[id].enabled
      ensures exists i :: 0 <= i < |rules| && Mirrors(rules[i], table[id])
    {
      var i :| 0 <= i < |rows| && rows[i] == table[id];
      assert Mirrors(rules[i], rows[i]);
    }
  }

  /** An enabled rule of the tenant in the table, with this action, whose own expression matches. */
  ghost predicate TableFires(action: string, lib: Lib, table: map<string, Rule>, tenantId: string,
                             ctx: PaymentContext) {
    exists id :: id in table && FiresWith(action, lib, table[id], tenantId, ctx)
  }

  ghost predicate FiresWith(action: string, lib: Lib, r: Rule, tenantId: string, ctx: PaymentContext) {
    r.tenantId == tenantId && r.enabled && r.action == action && Eval(lib, r.expression, ctx).Matches()
  }

  lemma CurrentFires(action: string, lib: Lib, rules: seq<CachedRule>, table: map<string, Rule>, tenantId: string,
                     ctx: PaymentContext)
    requires IsCurrent(rules, table, tenantId) && Keyed(table)
    ensures Fired(action, lib, rules, ctx) <==> TableFires(action, lib, table, tenantId, ctx)
  {
    CurrentExactly(rules, table, tenantId);
    if Fired(action, lib, rules, ctx) {
      var r :| r in rules && r.action == action && Fires(lib, r, ctx);
      var i :| 0 <= i < |rules| && rules[i] == r;
      assert Mirrors(rules[i], table[rules[i].id]);
      assert FiresWith(action, lib, table[rules[i].id], tenantId, ctx);
    }
    if TableFires(action, lib, table, tenantId, ctx) {
      var id :| id in table && FiresWith(action, lib, table[id], tenantId, ctx);
      var i :| 0 <= i < |rules| && Mirrors(rules[i], table[id]);
      assert rules[i] in rules && Fires(lib, rules[i], ctx);
    }
  }

  /** The answer from a current list: the most severe action of the table's own enabled rules that match. */
  ghost predicate AnswersTable(a: RuleAction, lib: Lib, table: map<string, Rule>, tenantId: string,
                               ctx: PaymentContext) {
    a == if TableFires("block", lib, table, tenantId, ctx) then BLOCK
         else if TableFires("review", lib, table, tenantId, ctx) then REVIEW
         else if TableFires("flag", lib, table, tenantId, ctx) then FLAG
         else APPROVE
  }

  /** One result for each of the given rules that does not err, and their aggregate. */
  ghost predicate Answers(response: Response, lib: Lib, rules: seq<CachedRule>, ctx: PaymentContext) {
    && response.results == Results(lib, rules, ctx)
    && response.aggregate != UNSPECIFIED
    && IsAggregate(ActionFromProto(response.aggregate), lib, rules, ctx)
  }

  lemma CurrentAnswers(response: Response, lib: Lib, rules: seq<CachedRule>, table: map<string, Rule>, tenantId: string,
                       ctx: PaymentContext)
    requires IsCurrent(rules, table, tenantId) && Keyed(table) && Answers(response, lib, rules, ctx)
    ensures AnswersTable(response.aggregate, lib, table, tenantId, ctx)
  {
    CurrentFires("block", lib, rules, table, tenantId, ctx);
    CurrentFires("review", lib, rules, table, tenantId, ctx);
    CurrentFires("flag", lib, rules, table, tenantId, ctx);
  }

  class Cache {
    var entries: map<string, Entry>

    constructor ()
      ensures entries == map[]
    {
      entries := map[];
    }

    method GetRules(tenantId: string, now: int) returns (rules: Option<seq<CachedRule>>)
      ensures rules == Lookup(entries, tenantId, now)
    {
      if tenantId !in entries || entries[tenantId].expiresAt <= now { return None; }
      var stored := entries[tenantId].rules;
      rules := if stored == [] then None else Some(stored);
    }

    method SetRules(tenantId: string, rules: seq<CachedRule>, now: int)
      modifies this
      ensures entries == old(entries)[tenantId := Entry(rules, now + TTL)]
    {
      entries := entries[tenantId := Entry(rules, now + TTL)];
    }

    method Invalidate(tenantId: string)
      modifies this
      ensures entries == old(entries) - {tenantId}
    {
      entries := entries - {tenantId};
    }
  }

  /** The handlers write only actions `StoredAction` gives. */
  ghost predicate FromHandlers(ops: seq<RuleOp>) {
    forall i :: 0 <= i < |ops| && !ops[i].Delete? ==> exists a :: ops[i].content.action == StoredAction(a)
  }

  ghost predicate ActionsKnown(t: Tables) {
    forall id :: id in t.rules ==> KnownAction(t.rules[id].action)
  }

  lemma StepKeepsActions(t: Tables, op: RuleOp)
    requires ActionsKnown(t) && (op.Delete? || KnownAction(op.content.action))
    ensures ActionsKnown(RuleStore.Step(t, op))
  {}

  /** So in every run every rule of the table has an action with a specified proto value. */
  lemma {:induction false} TableActionsSpecified(ops: seq<RuleOp>)
    requires FromHandlers(ops)
    ensures ActionsKnown(RuleStore.Run(ops))
    ensures forall id :: id in RuleStore.Run(ops).rules ==>
              ActionToProto(RuleStore.Run(ops).rules[id].action) != UNSPECIFIED
  {
    if ops != [] {
      var n := |ops| - 1;
      assert ops[n].Delete? || exists a :: ops[n].content.action == StoredAction(a);
      TableActionsSpecified(ops[..n]);
      StepKeepsActions(RuleStore.Run(ops[..n]), ops[n]);
    }
  }

  /** A list written at `now` is a hit for five minutes, for its tenant alone, and an empty one never is. */
  lemma ServedFiveMinutes(entries: map<string, Entry>, tenantId: string, rules: seq<CachedRule>, now: int,
                          other: string, later: int)
    ensures var written := entries[tenantId := Entry(rules, now + TTL)];
      && Lookup(written, tenantId, later) ==
         (if rules != [] && later < now + 5 * 60 * 1000 then Some(rules) else None)
      && (other != tenantId ==> Lookup(written, other, later) == Lookup(entries, other, later))
    ensures Lookup(entries - {tenantId}, tenantId, later) == None
  {}

  /** What a handler leaves of the cache once its table change is decided. */
  function AfterChange(entries: map<string, Entry>, tenantId: string, committed: bool,
                       invalidateFails: bool): map<string, Entry> {
    if committed && !invalidateFails then entries - {tenantId} else entries
  }

  /** How the two cache operations of one load end. */
  datatype Faults = Faults(getFails: bool, setFails: bool)

  class RulesService {
    const store: Store
    const cache: Cache

    constructor (store: Store, cache: Cache)
      ensures this.store == store && this.cache == cache
    {
      this.store, this.cache := store, cache;
    }

    /** Rejects an incomplete request; otherwise stores the rule and invalidates the tenant's list. */
    method CreateRule(id: string, now: int, tenantId: string, name: string, expression: Option<Node>,
                      requested: RuleAction, priority: int, invalidateFails: bool)
      returns (result: Result<Rule>)
      requires store.Valid() && id !in store.past
      modifies store, cache
      ensures store.Valid()
      ensures var invalid := tenantId == "" || name == "" || expression.None?;
        if invalid then
          result == Err(InvalidArgument) && store.State() == old(store.State()) && cache.entries == old(cache.entries)
        else
          && store.State() == Step(old(store.State()),
               Create(id, tenantId, name, Content(expression.value, StoredAction(requested)), priority, now))
          && (result.Ok? <==> !NameTaken(old(store.rules), tenantId, name))
          && cache.entries == AfterChange(old(cache.entries), tenantId, result.Ok?, invalidateFails)
    {
      if tenantId == "" || name == "" || expression.None? { return Err(InvalidArgument); }
      result := store.CreateRule(id, now, tenantId, name, expression.value, StoredAction(requested), priority);
      if result.Ok? && !invalidateFails {
        cache.Invalidate(tenantId);
      }
    }

    method UpdateRule(id: string, tenantId: string, expression: Option<Node>, requested: RuleAction,
                      priority: int, enabled: bool, invalidateFails: bool)
      returns (result: Result<Rule>)
      requires store.Valid()
      modifies store, cache
      ensures store.Valid()
      ensures var invalid := id == "" || tenantId == "" || expression.None?;
        if invalid then
          result == Err(InvalidArgument) && store.State() == old(store.State()) && cache.entries == old(cache.entries)
        else
          var op := Update(id, tenantId, Content(expression.value, StoredAction(requested)), priority, enabled);
          && store.State() == Step(old(store.State()), op)
          && (result.Ok? <==> Commits(old(store.State()), op))
          && cache.entries == AfterChange(old(cache.entries), tenantId, result.Ok?, invalidateFails)
    {
      if id == "" || tenantId == "" || expression.None? { return Err(InvalidArgument); }
      result := store.UpdateRule(id, tenantId, expression.value, StoredAction(requested), priority, enabled);
      if result.Ok? && !invalidateFails {
        cache.Invalidate(tenantId);
      }
    }

    method DeleteRule(id: string, tenantId: string, invalidateFails: bool) returns (result: Result<()>)
      requires store.Valid()
      modifies store, cache
      ensures store.Valid()
      ensures if id == "" || tenantId == "" then
                && result == Err(InvalidArgument)
                && store.State() == old(store.State()) && cache.entries == old(cache.entries)
              else
                && store.State() == Step(old(store.State()), Delete(id, tenantId))
                && (result.Ok? <==> Owns(old(store.rules), id, tenantId))
                && cache.entries == AfterChange(old(cache.entries), tenantId, result.Ok?, invalidateFails)
    {
      if id == "" || tenantId == "" { return Err(InvalidArgument); }
      result := store.DeleteRule(id, tenantId);
      if result.Ok? && !invalidateFails {
        cache.Invalidate(tenantId);
      }
    }

    /**
     `loadRules`: the cached list if there is one, else the table's, written back to the cache.
     The read of the cache and the table happens at `readAt`, the write-back at `writeAt`.
     */
    method LoadRules(tenantId: string, readAt: int, writeAt: int, faults: Faults) returns (rules: seq<CachedRule>)
      requires store.Valid()
      modifies cache
      ensures var hit := if faults.getFails then None else Lookup(old(cache.entries), tenantId, readAt);
        && (hit.Some? ==> rules == hit.value && cache.entries == old(cache.entries))
        && (hit.None? ==>
              && IsCurrent(rules, store.rules, tenantId)
              && cache.entries == if faults.setFails then old(cache.entries)
                                  else old(cache.entries)[tenantId := Entry(rules, writeAt + TTL)])
    {
      var cached: Option<seq<CachedRule>> := None;
      if !faults.getFails {
        cached := cache.GetRules(tenantId, readAt);
      }
      if cached.Some? { return cached.value; }
      var rows := store.ListRules(tenantId, false);
      rules := ConvertRows(rows);
      assert MirrorsAll(rules, rows);
      if !faults.setFails {
        cache.SetRules(tenantId, rules, writeAt);
      }
    }

    /** `EvaluateRules`: every matching rule list it could have loaded, evaluated and aggregated. */
    method EvaluateRules(lib: Lib, tenantId: string, ctx: Option<PaymentContext>, readAt: int, writeAt: int,
                         faults: Faults)
      returns (result: Result<Response>, ghost rules: seq<CachedRule>)
      requires store.Valid()
      modifies cache
      ensures ctx.None? || tenantId == "" ==> result == Err(InvalidArgument) && cache.entries == old(cache.entries)
      ensures ctx.Some? && tenantId != "" ==>
        && (if !faults.getFails && Lookup(old(cache.entries), tenantId, readAt).Some?
            then Lookup(old(cache.entries), tenantId, readAt) == Some(rules)
            else IsCurrent(rules, store.rules, tenantId))
        && result.Ok?
        && Answers(result.value, lib, rules, ctx.value)
        && (IsCurrent(rules, store.rules, tenantId) ==>
              AnswersTable(result.value.aggregate, lib, store.rules, tenantId, ctx.value))
    {
      rules := [];
      if ctx.None? || tenantId == "" { return Err(InvalidArgument), rules; }
      var loaded := LoadRules(tenantId, readAt, writeAt, faults);
      var response := Answer(lib, loaded, ctx.value);
      if IsCurrent(loaded, store.rules, tenantId) {
        CurrentAnswers(response, lib, loaded, store.rules, tenantId, ctx.value);
      }
      result := Ok(response);
      rules := loaded;
    }

    /** Evaluates the loaded rules and translates the aggregate. */
    method Answer(lib: Lib, rules: seq<CachedRule>, ctx: PaymentContext) returns (response: Response)
      ensures Answers(response, lib, rules, ctx)
    {
      var results, aggregate := Aggregation.EvaluateRules(lib, rules, ctx);
      AggregateIsJoin(aggregate, lib, rules, ctx);
      assert ActionFromProto(ActionToProto(aggregate)) == aggregate;
      response := Response(results, ActionToProto(aggregate));
    }
  }

  // ---------------------------------------------------------------- runs

  /**
   The rule table, one tenant's cache entry, and the lists of the loads between their read of the
   table and their write-back.
   */
  datatype World = World(now: int, table: map<string, Rule>, stored: Option<Entry>, loads: map<int, seq<CachedRule>>)

  datatype Action =
    | Tick                                                  // time passes
    | Commit                                                // a create, update or delete commits
    | Evict                                                 // a successful invalidation, or Redis dropping the key
    | Hit(rules: seq<CachedRule>)                           // a load returns the cached list
    | ReadTable(load: int)                                  // a load that misses, or cannot ask, reads the table
    | WriteBack(load: int, ok: bool, rules: seq<CachedRule>) // it writes back, or fails to, and returns its list

  function EntriesOf(w: World, tenantId: string): map<string, Entry> {
    if w.stored.None? then map[] else map[tenantId := w.stored.value]
  }

  ghost predicate Init(w: World) {
    w.stored == None && w.loads == map[]
  }

  /** One step of a run. A failed invalidation is no step at all; any table change at all may commit. */
  ghost predicate Next(w: World, a: Action, w': World, tenantId: string) {
    match a
    case Tick => w' == w.(now := w'.now) && w.now <= w'.now
    case Commit => w' == w.(table := w'.table)
    case Evict => w' == w.(stored := None)
    case Hit(rules) => w' == w && Lookup(EntriesOf(w, tenantId), tenantId, w.now) == Some(rules)
    case ReadTable(load) =>
      && load !in w.loads && load in w'.loads
      && IsCurrent(w'.loads[load], w.table, tenantId)
      && w' == w.(loads := w.loads[load := w'.loads[load]])
    case WriteBack(load, ok, rules) =>
      && load in w.loads && rules == w.loads[load]
      && w' == w.(loads := w.loads - {load}, stored := if ok then Some(Entry(rules, w.now + TTL)) else w.stored)
  }

  /** The steps do to the tenant's entry what the cache's methods do. */
  lemma StepsFollowTheCache(w: World, a: Action, w': World, tenantId: string)
    requires Next(w, a, w', tenantId)
    ensures a.Evict? ==> EntriesOf(w', tenantId) == EntriesOf(w, tenantId) - {tenantId}
    ensures a.WriteBack? && a.ok ==>
              EntriesOf(w', tenantId) == EntriesOf(w, tenantId)[tenantId := Entry(a.rules, w.now + TTL)]
    ensures !a.Evict? && !(a.WriteBack? && a.ok) ==> EntriesOf(w', tenantId) == EntriesOf(w, tenantId)
  {}

  /** `acts[i]` leads from `ws[i]` to `ws[i + 1]`. */
  ghost predicate IsPath(ws: seq<World>, acts: seq<Action>, tenantId: string) {
    |ws| == |acts| + 1 && forall i :: 0 <= i < |acts| ==> Next(ws[i], acts[i], ws[i + 1], tenantId)
  }

  ghost predicate IsRun(ws: seq<World>, acts: seq<Action>, tenantId: string) {
    IsPath(ws, acts, tenantId) && Init(ws[0])
  }

  // ---------------------------------------------------------------- staleness of one answer

  predicate Writes(a: Action) { a.Evict? || (a.WriteBack? && a.ok) }

  predicate UsesLoad(a: Action, load: int) {
    a == ReadTable(load) || (a.WriteBack? && a.load == load)
  }

  /** Step i is the load's latest read of the table before step n, and `rules` is what the table then held. */
  ghost predicate LatestRead(ws: seq<World>, acts: seq<Action>, i: int, n: int, load: int, rules: seq<CachedRule>,
                             tenantId: string)
    requires |ws| == |acts| + 1
  {
    && 0 <= i < n <= |acts|
    && acts[i] == ReadTable(load)
    && IsCurrent(rules, ws[i].table, tenantId)
    && forall k :: i < k < n ==> !UsesLoad(acts[k], load)
  }

  /** Step j is the latest change of the cache entry before step n, and wrote back `entry`. */
  ghost predicate LatestWrite(ws: seq<World>, acts: seq<Action>, j: int, n: int, entry: Entry)
    requires |ws| == |acts| + 1
  {
    && 0 <= j < n <= |acts|
    && acts[j].WriteBack? && acts[j].ok
    && entry == Entry(acts[j].rules, ws[j].now + TTL)
    && forall k :: j < k < n ==> !Writes(acts[k])
  }

  lemma {:induction false} LoadOrigin(ws: seq<World>, acts: seq<Action>, n: nat, load: int,
                                      tenantId: string) returns (i: int)
    requires IsRun(ws, acts, tenantId) && n <= |acts| && load in ws[n].loads
    ensures LatestRead(ws, acts, i, n, load, ws[n].loads[load], tenantId)
  {
    assert Next(ws[n - 1], acts[n - 1], ws[n], tenantId);
    if acts[n - 1] == ReadTable(load) {
      i := n - 1;
    } else {
      i := LoadOrigin(ws, acts, n - 1, load, tenantId);
    }
  }

  lemma {:induction false} EntryOrigin(ws: seq<World>, acts: seq<Action>, n: nat, tenantId: string) returns (j: int)
    requires IsRun(ws, acts, tenantId) && n <= |acts| && ws[n].stored.Some?
    ensures LatestWrite(ws, acts, j, n, ws[n].stored.value)
  {
    assert Next(ws[n - 1], acts[n - 1], ws[n], tenantId);
    if Writes(acts[n - 1]) {
      j := n - 1;
    } else {
      j := EntryOrigin(ws, acts, n - 1, tenantId);
    }
  }

  lemma {:induction false} TimePasses(ws: seq<World>, acts: seq<Action>, i: nat, n: nat, tenantId: string)
    requires IsPath(ws, acts, tenantId) && i <= n <= |acts|
    ensures ws[i].now <= ws[n].now
  {
    if i < n {
      TimePasses(ws, acts, i, n - 1, tenantId);
      assert Next(ws[n - 1], acts[n - 1], ws[n], tenantId);
    }
  }

  /**
   Bounded staleness: whatever loads, commits and invalidations race, and whichever of them fail, the
   list a load returns at step n is the one the table held at an earlier step i, in which some load read
   it. That load wrote it back at step j: at n itself if n is the write-back, else less than five minutes
   before n, with no invalidation or other write-back since. So the list was the table's at a moment later
   than five minutes plus the delay between that load's read and its write ago.
   */
  lemma BoundedStaleness(ws: seq<World>, acts: seq<Action>, n: nat, tenantId: string) returns (i: int, j: int)
    requires IsRun(ws, acts, tenantId) && n < |acts| && (acts[n].Hit? || acts[n].WriteBack?)
    ensures 0 <= i < j <= n && ws[i].now <= ws[j].now <= ws[n].now
    ensures acts[j].WriteBack? && acts[j].rules == acts[n].rules
    ensures LatestRead(ws, acts, i, j, acts[j].load, acts[n].rules, tenantId)
    ensures acts[n].WriteBack? ==> j == n
    ensures acts[n].Hit? ==>
              && acts[j].ok
              && ws[n].now < ws[j].now + TTL
              && forall k :: j < k < n ==> !Writes(acts[k])
    ensures ws[i].now > ws[n].now - (5 * 60 * 1000 + (ws[j].now - ws[i].now))
  {
    assert Next(ws[n], acts[n], ws[n + 1], tenantId);
    if acts[n].Hit? {
      j := EntryOrigin(ws, acts, n, tenantId);
      assert Next(ws[j], acts[j], ws[j + 1], tenantId);
    } else {
      j := n;
    }
    i := LoadOrigin(ws, acts, j, acts[j].load, tenantId);
    TimePasses(ws, acts, i, j, tenantId);
    TimePasses(ws, acts, j, n, tenantId);
  }

  // ---------------------------------------------------------------- when a stale answer is possible

  /** The entry would be returned now, and is not the table's list. */
  ghost predicate StaleEntry(w: World, tenantId: string) {
    var hit := Lookup(EntriesOf(w, tenantId), tenantId, w.now);
    hit.Some? && !IsCurrent(hit.value, w.table, tenantId)
  }

  /** A load in flight would write back a list that can be a hit and is not the table's. */
  ghost predicate StaleLoad(w: World, load: int, tenantId: string) {
    load in w.loads && w.loads[load] != [] && !IsCurrent(w.loads[load], w.table, tenantId)
  }

  ghost predicate HoldsStale(w: World, tenantId: string) {
    StaleEntry(w, tenantId) || exists load :: StaleLoad(w, load, tenantId)
  }

  /** A continuation of `w` without a commit that ends in a hit on a list that is not the table's. */
  ghost predicate EndsInStaleHit(ws: seq<World>, acts: seq<Action>, w: World, tenantId: string) {
    && IsPath(ws, acts, tenantId) && ws[0] == w && acts != []
    && (forall k :: 0 <= k < |acts| ==> !acts[k].Commit?)
    && acts[|acts| - 1].Hit? && !IsCurrent(acts[|acts| - 1].rules, ws[|acts| - 1].table, tenantId)
  }

  /** Only a commit can make the entry or a load stale. */
  lemma OnlyCommitsMakeStale(w: World, a: Action, w': World, tenantId: string)
    requires Next(w, a, w', tenantId) && !a.Commit? && !HoldsStale(w, tenantId)
    ensures !HoldsStale(w', tenantId)
  {
    assert w'.table == w.table;
    if a.WriteBack? && a.ok && a.rules != [] {
      assert !StaleLoad(w, a.load, tenantId);
    }
    forall load ensures !StaleLoad(w', load, tenantId) {
      assert !StaleLoad(w, load, tenantId);
    }
  }

  lemma {:induction false} PathStaysCurrent(ws: seq<World>, acts: seq<Action>, n: nat, tenantId: string)
    requires IsPath(ws, acts, tenantId) && n <= |acts| && !HoldsStale(ws[0], tenantId)
    requires forall k :: 0 <= k < n ==> !acts[k].Commit?
    ensures !HoldsStale(ws[n], tenantId)
  {
    if n > 0 {
      PathStaysCurrent(ws, acts, n - 1, tenantId);
      OnlyCommitsMakeStale(ws[n - 1], acts[n - 1], ws[n], tenantId);
    }
  }

  /** A load in flight with a stale list can write it back and be followed by a hit. */
  lemma StaleLoadCanBeHit(w: World, load: int, tenantId: string) returns (ws: seq<World>, acts: seq<Action>)
    requires StaleLoad(w, load, tenantId)
    ensures EndsInStaleHit(ws, acts, w, tenantId)
  {
    var rules := w.loads[load];
    var w' := w.(loads := w.loads - {load}, stored := Some(Entry(rules, w.now + TTL)));
    ws, acts := [w, w', w'], [WriteBack(load, true, rules), Hit(rules)];
  }

  /**
   From any state of the cache a stale answer can follow, without another commit, if and only if the entry
   is stale or a load in flight holds a stale list. Right after a successful invalidation there is no
   entry, and only loads that read the table before the commit can bring the old list back.
   */
  lemma StaleHitExactly(w: World, tenantId: string)
    ensures (exists ws, acts :: EndsInStaleHit(ws, acts, w, tenantId)) <==> HoldsStale(w, tenantId)
    ensures w.stored == None ==> (HoldsStale(w, tenantId) <==> exists load :: StaleLoad(w, load, tenantId))
  {
    if ws, acts :| EndsInStaleHit(ws, acts, w, tenantId) {
      var n := |acts| - 1;
      assert Next(ws[n], acts[n], ws[n + 1], tenantId);
      assert StaleEntry(ws[n], tenantId);
      if !HoldsStale(w, tenantId) {
        PathStaysCurrent(ws, acts, n, tenantId);
        assert false;
      }
    }
    if StaleEntry(w, tenantId) {
      var rules := Lookup(EntriesOf(w, tenantId), tenantId, w.now).value;
      assert EndsInStaleHit([w, w], [Hit(rules)], w, tenantId);
    } else if load :| StaleLoad(w, load, tenantId) {
      var ws, acts := StaleLoadCanBeHit(w, load, tenantId);
    }
  }

  /** A commit while no load is between its read and its write-back, with nothing cached or invalidated at once. */
  ghost predicate QuietStep(acts: seq<Action>, ws: seq<World>, i: nat)
    requires |ws| == |acts| + 1 && i < |acts|
  {
    acts[i].Commit? ==> ws[i].loads == map[] && (ws[i].stored == None || (i + 1 < |acts| && acts[i + 1].Evict?))
  }

  /** So in runs where loads and commits keep apart and every commit is invalidated at once, every hit is current. */
  lemma {:induction false} QuietRunsAreFresh(ws: seq<World>, acts: seq<Action>, n: nat, tenantId: string)
    requires IsRun(ws, acts, tenantId) && n <= |acts|
    requires forall i: nat :: i < |acts| ==> QuietStep(acts, ws, i)
    ensures !HoldsStale(ws[n], tenantId) || (n < |acts| && acts[n].Evict? && ws[n].loads == map[])
    ensures n < |acts| && acts[n].Hit? ==> IsCurrent(acts[n].rules, ws[n].table, tenantId)
  {
    if n > 0 {
      QuietRunsAreFresh(ws, acts, n - 1, tenantId);
      assert QuietStep(acts, ws, n - 1);
      assert Next(ws[n - 1], acts[n - 1], ws[n], tenantId);
      if !acts[n - 1].Commit? && !HoldsStale(ws[n - 1], tenantId) {
        OnlyCommitsMakeStale(ws[n - 1], acts[n - 1], ws[n], tenantId);
      }
    }
    if n < |acts| && acts[n].Hit? {
      assert Next(ws[n], acts[n], ws[n + 1], tenantId);
      assert !StaleEntry(ws[n], tenantId);
    }
  }

  /** The bound is sharp: a run whose old list is still returned almost five minutes after the invalidation. */
  lemma StaleHitAfterInvalidation(tenantId: string, r: Rule) returns (ws: seq<World>, acts: seq<Action>)
    requires r.tenantId == tenantId && r.enabled
    ensures IsRun(ws, acts, tenantId) && |acts| == 6
    ensures acts[1].Commit? && acts[2] == Evict && acts[5].Hit?
    ensures ws[5].now == ws[2].now + TTL - 1
    ensures !IsCurrent(acts[5].rules, ws[5].table, tenantId)
  {
    var table := map[r.id := r];
    var list := [ToCached(r)];
    assert IsListing([r], table, tenantId, false);
    assert Mirrors(list[0], [r][0]);
    assert MirrorsAll(list, [r]);
    var w0 := World(0, table, None, map[]);
    var w1 := w0.(loads := map[7 := list]);
    var w2 := w1.(table := map[]);
    var w4 := w2.(loads := map[], stored := Some(Entry(list, TTL)));
    var w5 := w4.(now := TTL - 1);
    ws := [w0, w1, w2, w2, w4, w5, w5];
    acts := [ReadTable(7), Commit, Evict, WriteBack(7, true, list), Tick, Hit(list)];
    assert w1.loads - {7} == map[];
    forall rows | IsListing(rows, map[], tenantId, false) ensures !MirrorsAll(list, rows) {
      FirstIsMember(rows);
    }
  }

  lemma FirstIsMember(rows: seq<Rule>)
    ensures rows == [] || exists r :: r in rows
  {
    if rows != [] { assert rows[0] in rows; }
  }
}
