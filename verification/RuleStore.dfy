/** The rule table and its archive of versions. */
module RuleStore {
  import opened Common
  import opened GoValues

  datatype Rule = Rule(id: string, tenantId: string, name: string, version: int, expression: Node,
                       action: string, priority: int, enabled: bool, createdAt: int)

  datatype VersionRow = VersionRow(ruleId: string, version: int, expression: Node, action: string)

  datatype Content = Content(expression: Node, action: string)

  /**
   `rules` and `versions` are the two tables. `past` is a history variable: the content each rule
   has had at version 1, 2, ..., its current version.
   */
  datatype Tables = Tables(rules: map<string, Rule>, versions: seq<VersionRow>, past: map<string, seq<Content>>)

  datatype RuleOp =
    | Create(id: string, tenantId: string, name: string, content: Content, priority: int, at: int)
    | Update(id: string, tenantId: string, content: Content, priority: int, enabled: bool)
    | Delete(id: string, tenantId: string)

  predicate NameTaken(rules: map<string, Rule>, tenantId: string, name: string) {
    exists k :: k in rules && rules[k].tenantId == tenantId && rules[k].name == name
  }

  predicate Owns(rules: map<string, Rule>, id: string, tenantId: string) {
    id in rules && rules[id].tenantId == tenantId
  }

  /** An operation commits: its row exists (or its name is free), its id is new, its version does not overflow. */
  predicate Commits(t: Tables, op: RuleOp) {
    match op
    case Create(id, tenantId, name, _, _, _) => id !in t.past && !NameTaken(t.rules, tenantId, name)
    case Update(id, tenantId, _, _, _) => Owns(t.rules, id, tenantId) && t.rules[id].version < MAX_INT32
    case Delete(id, tenantId) => Owns(t.rules, id, tenantId)
  }

  function Row(id: string, version: int, c: Content): VersionRow {
    VersionRow(id, version, c.expression, c.action)
  }

  function ContentOf(r: Rule): Content { Content(r.expression, r.action) }

  function Past(t: Tables, id: string): seq<Content> {
    if id in t.past then t.past[id] else []
  }

  /** `UpdateRule` once it has read `seen` as the current row: archive what was read, bump what is there. */
  function ArchiveAndBump(t: Tables, id: string, seen: Rule, c: Content, priority: int, enabled: bool): Tables
    requires id in t.rules
  {
    var r := t.rules[id];
    Tables(
      t.rules[id := r.(expression := c.expression, action := c.action, priority := priority,
                       enabled := enabled, version := r.version + 1)],
      t.versions + [Row(id, seen.version, ContentOf(seen))],
      t.past[id := Past(t, id) + [c]])
  }

  /** One committed operation; one that does not commit rolls back and changes nothing. */
  function Step(t: Tables, op: RuleOp): Tables {
    if !Commits(t, op) then t
    else
      match op
      case Create(id, tenantId, name, c, priority, at) =>
        Tables(
          t.rules[id := Rule(id, tenantId, name, 1, c.expression, c.action, priority, true, at)],
          t.versions + [Row(id, 1, c)],
          t.past[id := [c]])
      case Update(id, _, c, priority, enabled) => ArchiveAndBump(t, id, t.rules[id], c, priority, enabled)
      case Delete(id, _) =>
        // the foreign key cascades to the archive
        Tables(t.rules - {id}, Filter(t.versions, (v: VersionRow) => v.ruleId != id), t.past)
  }

  /** The archive has a row for version v of the rule, with the content it had. */
  ghost predicate Archived(t: Tables, id: string, v: int) {
    1 <= v <= |Past(t, id)| && Row(id, v, Past(t, id)[v - 1]) in t.versions
  }

  ghost predicate RuleFaithful(t: Tables, id: string)
    requires id in t.rules
  {
    var r := t.rules[id];
    && r.id == id
    && id in t.past
    && |t.past[id]| == r.version >= 1
    && t.past[id][r.version - 1] == ContentOf(r)
    && forall v :: 1 <= v < r.version ==> Archived(t, id, v)
  }

  ghost predicate RowTrue(t: Tables, row: VersionRow) {
    && row.ruleId in t.rules
    && 1 <= row.version <= |Past(t, row.ruleId)|
    && row == Row(row.ruleId, row.version, t.past[row.ruleId][row.version - 1])
  }

  /** The archive holds every earlier version of a rule, and nothing but true versions. */
  ghost predicate ArchiveFaithful(t: Tables) {
    && (forall id :: id in t.rules ==> RuleFaithful(t, id))
    && (forall row :: row in t.versions ==> RowTrue(t, row))
  }

  lemma CreateFaithful(t: Tables, op: RuleOp)
    requires ArchiveFaithful(t) && op.Create? && Commits(t, op)
    ensures ArchiveFaithful(Step(t, op))
  {
    var t' := Step(t, op);
    forall k | k in t'.rules ensures RuleFaithful(t', k) {
      if k != op.id {
        assert RuleFaithful(t, k);
        forall v | 1 <= v < t.rules[k].version ensures Archived(t', k, v) { assert Archived(t, k, v); }
      }
    }
    forall row | row in t'.versions ensures RowTrue(t', row) {
      assert row in t.versions ==> RowTrue(t, row) && RuleFaithful(t, row.ruleId);
    }
  }

  lemma BumpKeepsRows(t: Tables, id: string, seen: Rule, c: Content, priority: int, enabled: bool)
    requires ArchiveFaithful(t) && id in t.rules
    requires RowTrue(t, Row(id, seen.version, ContentOf(seen)))
    ensures forall row :: row in ArchiveAndBump(t, id, seen, c, priority, enabled).versions ==>
              RowTrue(ArchiveAndBump(t, id, seen, c, priority, enabled), row)
  {
    var t' := ArchiveAndBump(t, id, seen, c, priority, enabled);
    forall row | row in t'.versions ensures RowTrue(t', row) {
      assert row in t.versions ==> RowTrue(t, row);
      assert RuleFaithful(t, row.ruleId);
    }
  }

  lemma BumpKeepsRule(t: Tables, id: string, seen: Rule, c: Content, priority: int, enabled: bool, k: string)
    requires ArchiveFaithful(t) && id in t.rules && k in t.rules
    requires k == id ==> Archived(ArchiveAndBump(t, id, seen, c, priority, enabled), id, t.rules[id].version)
    ensures RuleFaithful(ArchiveAndBump(t, id, seen, c, priority, enabled), k)
  {
    var t' := ArchiveAndBump(t, id, seen, c, priority, enabled);
    assert RuleFaithful(t, k);
    forall v | 1 <= v < t'.rules[k].version ensures Archived(t', k, v) {
      assert v < t.rules[k].version ==> Archived(t, k, v);
    }
  }

  /** What an update does to the archive, whatever row it read. */
  lemma BumpFaithful(t: Tables, id: string, seen: Rule, c: Content, priority: int, enabled: bool)
    requires ArchiveFaithful(t) && id in t.rules
    requires RowTrue(t, Row(id, seen.version, ContentOf(seen)))
    ensures var t' := ArchiveAndBump(t, id, seen, c, priority, enabled);
            ArchiveFaithful(t') <==> Archived(t', id, t.rules[id].version)
  {
    var t' := ArchiveAndBump(t, id, seen, c, priority, enabled);
    BumpKeepsRows(t, id, seen, c, priority, enabled);
    if Archived(t', id, t.rules[id].version) {
      forall k | k in t'.rules ensures RuleFaithful(t', k) {
        BumpKeepsRule(t, id, seen, c, priority, enabled, k);
      }
    }
    assert RuleFaithful(t, id);
    assert ArchiveFaithful(t') ==> RuleFaithful(t', id);
  }

  lemma UpdateFaithful(t: Tables, op: RuleOp)
    requires ArchiveFaithful(t) && op.Update? && Commits(t, op)
    ensures ArchiveFaithful(Step(t, op))
  {
    var r := t.rules[op.id];
    assert RuleFaithful(t, op.id);
    var t' := Step(t, op);
    BumpFaithful(t, op.id, r, op.content, op.priority, op.enabled);
    assert t'.versions[|t.versions|] == Row(op.id, r.version, ContentOf(r));
    assert Archived(t', op.id, r.version);
  }

  lemma DeleteFaithful(t: Tables, op: RuleOp)
    requires ArchiveFaithful(t) && op.Delete? && Commits(t, op)
    ensures ArchiveFaithful(Step(t, op))
  {
    FilterMembers(t.versions, (v: VersionRow) => v.ruleId != op.id);
    var t' := Step(t, op);
    forall k | k in t'.rules ensures RuleFaithful(t', k) {
      assert RuleFaithful(t, k);
      forall v | 1 <= v < t.rules[k].version ensures Archived(t', k, v) { assert Archived(t, k, v); }
    }
    forall row | row in t'.versions ensures RowTrue(t', row) {
      assert RowTrue(t, row);
    }
  }

  lemma StepFaithful(t: Tables, op: RuleOp)
    requires ArchiveFaithful(t)
    ensures ArchiveFaithful(Step(t, op))
  {
    if Commits(t, op) {
      match op
      case Create(_, _, _, _, _, _) => CreateFaithful(t, op);
      case Update(_, _, _, _, _) => UpdateFaithful(t, op);
      case Delete(_, _) => DeleteFaithful(t, op);
    }
  }

  const EMPTY: Tables := Tables(map[], [], map[])

  /** The tables after a serial run of operations. */
  function Run(ops: seq<RuleOp>): (t: Tables)
    ensures ArchiveFaithful(t)
  {
    if ops == [] then EMPTY
    else
      var t := Run(ops[..|ops| - 1]);
      StepFaithful(t, ops[|ops| - 1]);
      Step(t, ops[|ops| - 1])
  }

  /** How many operations of the run committed an update of rule `id`. */
  function CommittedUpdates(ops: seq<RuleOp>, id: string): nat {
    if ops == [] then 0
    else
      var n := |ops| - 1;
      CommittedUpdates(ops[..n], id) +
      if ops[n].Update? && ops[n].id == id && Commits(Run(ops[..n]), ops[n]) then 1 else 0
  }

  /** In every serial run a rule's version is its initial version plus its number of committed updates. */
  lemma {:induction false} VersionCountsUpdates(ops: seq<RuleOp>, id: string)
    ensures id in Run(ops).rules ==> Run(ops).rules[id].version == 1 + CommittedUpdates(ops, id)
    ensures id !in Run(ops).past ==> CommittedUpdates(ops, id) == 0
  {
    if ops != [] {
      VersionCountsUpdates(ops[..|ops| - 1], id);
    }
  }

  /** In every serial run each earlier version of a rule is archived with the content it then had, unambiguously. */
  lemma EarlierVersionsArchived(ops: seq<RuleOp>, k: nat, id: string)
    requires k <= |ops| && id in Run(ops[..k]).rules && id in Run(ops).rules
    ensures var was, now := Run(ops[..k]).rules[id], Run(ops).rules[id];
      && was.version <= now.version
      && (was.version < now.version ==> Row(id, was.version, ContentOf(was)) in Run(ops).versions)
      && forall row :: row in Run(ops).versions && row.ruleId == id && row.version == was.version ==>
           row == Row(id, was.version, ContentOf(was))
  {
    PastGrows(ops, k, id);
    LaterArchive(Run(ops[..k]), Run(ops), id);
  }

  lemma LaterArchive(s: Tables, t: Tables, id: string)
    requires ArchiveFaithful(s) && ArchiveFaithful(t) && id in s.rules && id in t.rules
    requires Past(s, id) <= Past(t, id)
    ensures var was, now := s.rules[id], t.rules[id];
      && was.version <= now.version
      && (was.version < now.version ==> Row(id, was.version, ContentOf(was)) in t.versions)
      && forall row :: row in t.versions && row.ruleId == id && row.version == was.version ==>
           row == Row(id, was.version, ContentOf(was))
  {
    var was := s.rules[id];
    assert RuleFaithful(s, id) && RuleFaithful(t, id);
    assert t.past[id][was.version - 1] == ContentOf(was);
    assert was.version < t.rules[id].version ==> Archived(t, id, was.version);
    forall row | row in t.versions && row.ruleId == id && row.version == was.version
      ensures row == Row(id, was.version, ContentOf(was))
    {
      assert RowTrue(t, row);
    }
  }

  lemma StepKeepsPast(t: Tables, op: RuleOp, id: string)
    requires id in t.past
    ensures id in Step(t, op).past && t.past[id] <= Step(t, op).past[id]
  {}

  lemma {:induction false} PastGrows(ops: seq<RuleOp>, k: nat, id: string)
    requires k <= |ops| && id in Run(ops[..k]).past
    ensures id in Run(ops).past && Run(ops[..k]).past[id] <= Run(ops).past[id]
  {
    if k < |ops| {
      var n := |ops| - 1;
      assert ops[..n][..k] == ops[..k];
      PastGrows(ops[..n], k, id);
      StepKeepsPast(Run(ops[..n]), ops[n], id);
    } else {
      assert ops[..k] == ops;
    }
  }

  /**
   Serialization is needed, because the row is read without a lock: an update that archives a row
   read before another update leaves a version out of the archive, exactly unless the version it
   overwrites was archived already or is the one it read.
   */
  lemma UnlockedReadCanLoseVersion(t: Tables, id: string, seen: Rule, c: Content, priority: int, enabled: bool)
    requires ArchiveFaithful(t) && id in t.rules
    requires RowTrue(t, Row(id, seen.version, ContentOf(seen)))
    ensures ArchiveFaithful(ArchiveAndBump(t, id, seen, c, priority, enabled)) <==>
            Archived(t, id, t.rules[id].version) || seen.version == t.rules[id].version
  {
    var t' := ArchiveAndBump(t, id, seen, c, priority, enabled);
    assert RuleFaithful(t, id);
    BumpFaithful(t, id, seen, c, priority, enabled);
    assert t'.versions[|t.versions|] == Row(id, seen.version, ContentOf(seen));
  }

  // ---------------------------------------------------------------- listing

  /** `ORDER BY priority DESC, created_at ASC`; rows equal on both may come in either order. */
  predicate Before(a: Rule, b: Rule) {
    a.priority > b.priority || (a.priority == b.priority && a.createdAt <= b.createdAt)
  }

  predicate Listed(r: Rule, tenantId: string, includeDisabled: bool) {
    r.tenantId == tenantId && (includeDisabled || r.enabled)
  }

  ghost predicate Ordered(rows: seq<Rule>) {
    && (forall i, j :: 0 <= i < j < |rows| ==> Before(rows[i], rows[j]))
    && (forall i, j :: 0 <= i < j < |rows| ==> rows[i].id != rows[j].id)
  }

  /** `rows` is an answer `ListRules` may give on this table. */
  ghost predicate IsListing(rows: seq<Rule>, rules: map<string, Rule>, tenantId: string, includeDisabled: bool) {
    && Ordered(rows)
    && (forall r :: r in rows <==> r.id in rules && rules[r.id] == r && Listed(r, tenantId, includeDisabled))
  }

  /** A listing holds each rule of the tenant once, disabled ones only if asked, by falling priority, then age. */
  lemma ListingExactly(rows: seq<Rule>, rules: map<string, Rule>, tenantId: string, includeDisabled: bool)
    requires IsListing(rows, rules, tenantId, includeDisabled)
    ensures forall i, j :: 0 <= i < j < |rows| ==>
              && rows[i].id != rows[j].id
              && rows[i].priority >= rows[j].priority
              && (rows[i].priority == rows[j].priority ==> rows[i].createdAt <= rows[j].createdAt)
    ensures forall r :: r in rows ==>
              r.id in rules && rules[r.id] == r && r.tenantId == tenantId && (includeDisabled || r.enabled)
    ensures forall id :: id in rules && rules[id].id == id && rules[id].tenantId == tenantId && rules[id].enabled ==>
              rules[id] in rows
    ensures forall id :: id in rules && rules[id].id == id && rules[id].tenantId == tenantId && includeDisabled ==>
              rules[id] in rows
  {
    forall i, j | 0 <= i < j < |rows|
      ensures rows[i].id != rows[j].id && rows[i].priority >= rows[j].priority
      ensures rows[i].priority == rows[j].priority ==> rows[i].createdAt <= rows[j].createdAt
    {
      assert Before(rows[i], rows[j]);
    }
  }

  function InsertRow(rows: seq<Rule>, r: Rule): (out: seq<Rule>)
    ensures forall x :: x in out <==> x in rows || x == r
  {
    if rows == [] then [r]
    else if Before(r, rows[0]) then [r] + rows
    else
      assert rows == [rows[0]] + rows[1..];
      [rows[0]] + InsertRow(rows[1..], r)
  }

  lemma OrderedCons(x: Rule, rows: seq<Rule>)
    ensures Ordered([x] + rows) <==> Ordered(rows) && forall y :: y in rows ==> Before(x, y) && x.id != y.id
  {
    var all := [x] + rows;
    if Ordered(all) {
      forall y | y in rows ensures Before(x, y) && x.id != y.id {
        var i :| 0 <= i < |rows| && rows[i] == y;
        assert all[0] == x && all[i + 1] == y;
      }
      forall i, j | 0 <= i < j < |rows| ensures Before(rows[i], rows[j]) && rows[i].id != rows[j].id {
        assert all[i + 1] == rows[i] && all[j + 1] == rows[j];
      }
    }
  }

  lemma {:induction false} InsertKeepsOrder(rows: seq<Rule>, r: Rule)
    requires Ordered(rows) && forall x :: x in rows ==> x.id != r.id
    ensures Ordered(InsertRow(rows, r))
  {
    if rows == [] {
    } else {
      assert rows == [rows[0]] + rows[1..];
      OrderedCons(rows[0], rows[1..]);
      if Before(r, rows[0]) {
        OrderedCons(r, rows);
      } else {
        InsertKeepsOrder(rows[1..], r);
        OrderedCons(rows[0], InsertRow(rows[1..], r));
      }
    }
  }

  class Store {
    var rules: map<string, Rule>
    var versions: seq<VersionRow>
    ghost var past: map<string, seq<Content>>

    ghost function State(): Tables
      reads this
    {
      Tables(rules, versions, past)
    }

    /** Rows are stored under their ids. It says nothing of the archive, which races can leave incomplete. */
    ghost predicate Valid()
      reads this
    {
      forall id :: id in rules ==> rules[id].id == id && id in past
    }

    constructor ()
      ensures State() == EMPTY && Valid() && ArchiveFaithful(State())
    {
      rules, versions, past := map[], [], map[];
    }

    /** Inserts the rule and archives its first version; `id` is the generated UUID, `now` the transaction time. */
    method CreateRule(id: string, now: int, tenantId: string, name: string, expression: Node, action: string,
                      priority: int)
      returns (result: Result<Rule>)
      requires Valid() && id !in past
      modifies this
      ensures Valid()
      ensures State() == Step(old(State()), Create(id, tenantId, name, Content(expression, action), priority, now))
      ensures ArchiveFaithful(old(State())) ==> ArchiveFaithful(State())
      ensures var taken := exists k ::
                k in old(rules) && old(rules)[k].tenantId == tenantId && old(rules)[k].name == name;
              result == if taken then Err(AlreadyExists)
                        else Ok(Rule(id, tenantId, name, 1, expression, action, priority, true, now))
      ensures result.Ok? ==>
        rules == old(rules)[id := result.value] && versions == old(versions) + [VersionRow(id, 1, expression, action)]
    {
      ghost var op := Create(id, tenantId, name, Content(expression, action), priority, now);
      if ArchiveFaithful(State()) { StepFaithful(State(), op); }
      if exists k :: k in rules && rules[k].tenantId == tenantId && rules[k].name == name {
        return Err(AlreadyExists);
      }
      var r := Rule(id, tenantId, name, 1, expression, action, priority, true, now);
      rules := rules[id := r];
      versions := versions + [VersionRow(id, r.version, expression, action)];
      past := past[id := [Content(expression, action)]];
      result := Ok(r);
    }

    /** Archives the current version, then overwrites the row and bumps its version. */
    method UpdateRule(id: string, tenantId: string, expression: Node, action: string, priority: int, enabled: bool)
      returns (result: Result<Rule>)
      requires Valid()
      modifies this
      ensures Valid()
      ensures State() == Step(old(State()), Update(id, tenantId, Content(expression, action), priority, enabled))
      ensures ArchiveFaithful(old(State())) ==> ArchiveFaithful(State())
      ensures result.Ok? <==>
              Commits(old(State()), Update(id, tenantId, Content(expression, action), priority, enabled))
      ensures result.Ok? <==> id in old(rules) && old(rules)[id].tenantId == tenantId
                              && old(rules)[id].version < 0x7FFF_FFFF
      ensures result.Ok? ==>
        && id in old(rules) && old(rules)[id].tenantId == tenantId
        && result.value == old(rules)[id].(expression := expression, action := action, priority := priority,
                                           enabled := enabled, version := old(rules)[id].version + 1)
        && rules == old(rules)[id := result.value]
        && versions == old(versions) +
             [VersionRow(id, old(rules)[id].version, old(rules)[id].expression, old(rules)[id].action)]
      ensures result.Err? ==> result.error == if Owns(old(rules), id, tenantId) then ConstraintViolation else NotFound
    {
      ghost var t, c := State(), Content(expression, action);
      if ArchiveFaithful(t) { StepFaithful(t, Update(id, tenantId, c, priority, enabled)); }
      if id !in rules || rules[id].tenantId != tenantId {
        return Err(NotFound);
      }
      var current := rules[id];
      if current.version >= MAX_INT32 {
        return Err(ConstraintViolation);
      }
      versions := versions + [VersionRow(id, current.version, current.expression, current.action)];
      rules := rules[id := current.(expression := expression, action := action, priority := priority,
                                    enabled := enabled, version := current.version + 1)];
      past := past[id := Past(t, id) + [c]];
      assert State() == ArchiveAndBump(t, id, current, c, priority, enabled);
      result := Ok(rules[id]);
    }

    method DeleteRule(id: string, tenantId: string) returns (result: Result<()>)
      requires Valid()
      modifies this
      ensures Valid()
      ensures State() == Step(old(State()), Delete(id, tenantId))
      ensures ArchiveFaithful(old(State())) ==> ArchiveFaithful(State())
      ensures result == if id in old(rules) && old(rules)[id].tenantId == tenantId then Ok(()) else Err(NotFound)
      ensures result.Ok? ==>
        rules == old(rules) - {id} && forall v :: v in versions <==> v in old(versions) && v.ruleId != id
    {
      if ArchiveFaithful(State()) { StepFaithful(State(), Delete(id, tenantId)); }
      if id !in rules || rules[id].tenantId != tenantId {
        return Err(NotFound);
      }
      rules := rules - {id};
      FilterMembers(versions, (v: VersionRow) => v.ruleId != id);
      versions := Filter(versions, (v: VersionRow) => v.ruleId != id);
      result := Ok(());
    }

    /** The tenant's rules, enabled ones only unless asked, most urgent first. */
    method ListRules(tenantId: string, includeDisabled: bool) returns (rows: seq<Rule>)
      requires Valid()
      ensures IsListing(rows, rules, tenantId, includeDisabled)
    {
      rows := [];
      var keys := rules.Keys;
      while keys != {}
        invariant keys <= rules.Keys
        invariant Ordered(rows)
        invariant forall r :: r in rows <==>
                    r.id in rules && r.id !in keys && rules[r.id] == r && Listed(r, tenantId, includeDisabled)
        decreases keys
      {
        var k :| k in keys;
        if rules[k].tenantId == tenantId && (includeDisabled || rules[k].enabled) {
          InsertKeepsOrder(rows, rules[k]);
          rows := InsertRow(rows, rules[k]);
        }
        keys := keys - {k};
      }
    }
  }
}
