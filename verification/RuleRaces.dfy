/**
 Racing rule updates. `UpdateRule` reads the current row, and only later archives what it read and
 bumps the row, with no lock in between: this model lets anything happen between the two.
 */
module RuleRaces {
  import opened Common
  import opened GoValues
  import opened RuleStore

  /** An update between its read and its commit. */
  datatype Pending = Pending(id: string, seen: Rule)

  /** `seenBy` is a history variable: the versions a rule's committed updates had read, in commit order. */
  datatype World = World(t: Tables, pending: map<int, Pending>, seenBy: map<string, seq<int>>)

  datatype Action =
    | Serial(op: RuleOp)  // a create or a delete
    | ReadRow(tx: int, id: string, tenantId: string)
    | CommitUpdate(tx: int, content: Content, priority: int, enabled: bool)
    | Abort(tx: int)

  const START: World := World(EMPTY, map[], map[])

  predicate Enabled(w: World, a: Action) {
    match a
    case Serial(op) => !op.Update?
    case ReadRow(tx, id, tenantId) => tx !in w.pending && Owns(w.t.rules, id, tenantId)
    case CommitUpdate(tx, _, _, _) => tx in w.pending
    case Abort(tx) => tx in w.pending
  }

  function Reads(w: World, id: string): seq<int> {
    if id in w.seenBy then w.seenBy[id] else []
  }

  /** The update still finds its row, and the version does not overflow. */
  predicate Lands(w: World, p: Pending) {
    Owns(w.t.rules, p.id, p.seen.tenantId) && w.t.rules[p.id].version < MAX_INT32
  }

  function Next(w: World, a: Action): World {
    match a
    case Serial(op) =>
      w.(t := Step(w.t, op), seenBy := if op.Create? && Commits(w.t, op) then w.seenBy[op.id := []] else w.seenBy)
    case ReadRow(tx, id, _) =>
      if id in w.t.rules then w.(pending := w.pending[tx := Pending(id, w.t.rules[id])]) else w
    case CommitUpdate(tx, c, priority, enabled) =>
      if tx !in w.pending then w
      else if !Lands(w, w.pending[tx]) then w.(pending := w.pending - {tx})
      else
        var p := w.pending[tx];
        World(ArchiveAndBump(w.t, p.id, p.seen, c, priority, enabled), w.pending - {tx},
              w.seenBy[p.id := Reads(w, p.id) + [p.seen.version]])
    case Abort(tx) => w.(pending := w.pending - {tx})
  }

  function Run(acts: seq<Action>): World {
    if acts == [] then START else Next(Run(acts[..|acts| - 1]), acts[|acts| - 1])
  }

  ghost predicate IsRun(acts: seq<Action>) {
    forall i :: 0 <= i < |acts| ==> Enabled(Run(acts[..i]), acts[i])
  }

  /** With nothing in between, the two steps are the store's `UpdateRule`. */
  lemma ReadThenCommitIsUpdate(w: World, tx: int, id: string, tenantId: string, c: Content, priority: int,
                               enabled: bool)
    requires Enabled(w, ReadRow(tx, id, tenantId))
    ensures Next(Next(w, ReadRow(tx, id, tenantId)), CommitUpdate(tx, c, priority, enabled)).t ==
            Step(w.t, Update(id, tenantId, c, priority, enabled))
  {}

  /** A read only notes the row; a commit archives what was read, if its row is still there; an abort does nothing. */
  lemma StepsFollowTheStore(w: World, a: Action)
    requires Enabled(w, a)
    ensures var w' := Next(w, a);
      match a
      case Serial(op) => w'.t == Step(w.t, op) && w'.pending == w.pending
      case ReadRow(tx, id, _) => w' == w.(pending := w.pending[tx := Pending(id, w.t.rules[id])])
      case Abort(tx) => w' == w.(pending := w.pending - {tx})
      case CommitUpdate(tx, c, priority, enabled) =>
        var id, seen := w.pending[tx].id, w.pending[tx].seen;
        if id !in w.t.rules || w.t.rules[id].tenantId != seen.tenantId || w.t.rules[id].version >= 0x7FFF_FFFF
        then w' == w.(pending := w.pending - {tx})
        else
          && w'.pending == w.pending - {tx}
          && w'.t.versions == w.t.versions + [VersionRow(id, seen.version, seen.expression, seen.action)]
          && w'.t.rules == w.t.rules[id := w.t.rules[id].(expression := c.expression, action := c.action,
               priority := priority, enabled := enabled, version := w.t.rules[id].version + 1)]
  {}

  // ---------------------------------------------------------------- the archive in every run

  /** The k-th update of a rule read some version up to k + 1, the one it overwrote. */
  ghost predicate Bounded(vs: seq<int>) {
    forall k :: 0 <= k < |vs| ==> 1 <= vs[k] <= k + 1
  }

  ghost predicate RuleTracked(w: World, id: string)
    requires id in w.t.rules
  {
    var r := w.t.rules[id];
    && r.id == id
    && id in w.t.past && |w.t.past[id]| == r.version >= 1
    && w.t.past[id][r.version - 1] == ContentOf(r)
    && |Reads(w, id)| == r.version - 1
    && Bounded(Reads(w, id))
  }

  /** The archive's versions of a rule: the first, and those its updates read. */
  ghost predicate Kept(w: World, id: string, v: int) { v == 1 || v in Reads(w, id) }

  ghost predicate ArchiveTracked(w: World, id: string)
    requires id in w.t.rules
  {
    forall v :: 1 <= v <= w.t.rules[id].version ==> (Archived(w.t, id, v) <==> Kept(w, id, v))
  }

  ghost predicate RowsTrue(w: World) {
    forall row :: row in w.t.versions ==> RowTrue(w.t, row)
  }

  ghost predicate PendingTrue(w: World, p: Pending) {
    && p.id in w.t.past
    && (p.id in w.t.rules ==>
          && 1 <= p.seen.version <= w.t.rules[p.id].version <= |w.t.past[p.id]|
          && w.t.past[p.id][p.seen.version - 1] == ContentOf(p.seen))
  }

  ghost predicate Inv(w: World) {
    && (forall id :: id in w.t.rules ==> RuleTracked(w, id) && ArchiveTracked(w, id))
    && RowsTrue(w)
    && (forall tx :: tx in w.pending ==> PendingTrue(w, w.pending[tx]))
  }

  lemma RowStays(t: Tables, t': Tables, row: VersionRow)
    requires RowTrue(t, row) && row.ruleId in t.past
    requires row.ruleId in t'.rules && row.ruleId in t'.past && t.past[row.ruleId] <= t'.past[row.ruleId]
    ensures RowTrue(t', row)
  {}

  lemma CreateKeepsRule(w: World, op: RuleOp, id: string)
    requires Inv(w) && op.Create? && Commits(w.t, op) && (id in w.t.rules || id == op.id)
    ensures RuleTracked(Next(w, Serial(op)), id) && ArchiveTracked(Next(w, Serial(op)), id)
  {
    var w' := Next(w, Serial(op));
    if id == op.id {
      assert w'.t.versions[|w.t.versions|] == Row(id, 1, op.content);
      assert Archived(w'.t, id, 1);
    } else {
      assert RuleTracked(w, id) && ArchiveTracked(w, id);
      OthersArchive(w, w', id, Row(op.id, 1, op.content));
    }
  }

  lemma CreateKeepsInv(w: World, op: RuleOp)
    requires Inv(w) && op.Create? && Commits(w.t, op)
    ensures Inv(Next(w, Serial(op)))
  {
    var w' := Next(w, Serial(op));
    forall row | row in w'.t.versions ensures RowTrue(w'.t, row) {
      if row in w.t.versions {
        assert RowTrue(w.t, row) && RuleTracked(w, row.ruleId);
        RowStays(w.t, w'.t, row);
      }
    }
    forall id | id in w'.t.rules ensures RuleTracked(w', id) && ArchiveTracked(w', id) {
      CreateKeepsRule(w, op, id);
    }
    forall tx | tx in w'.pending ensures PendingTrue(w', w'.pending[tx]) {
      assert PendingTrue(w, w.pending[tx]);
    }
  }

  /** A row of another rule does not change what is archived of this one. */
  lemma OthersArchive(w: World, w': World, id: string, row: VersionRow)
    requires id in w.t.rules && id in w'.t.rules && w'.t.rules[id] == w.t.rules[id] && row.ruleId != id
    requires Past(w'.t, id) == Past(w.t, id) && Reads(w', id) == Reads(w, id)
    requires w'.t.versions == w.t.versions + [row] && ArchiveTracked(w, id)
    ensures ArchiveTracked(w', id)
  {
    forall v | 1 <= v <= w.t.rules[id].version ensures Archived(w'.t, id, v) <==> Kept(w', id, v) {
      assert Archived(w.t, id, v) <==> Kept(w, id, v);
    }
  }

  lemma DeleteKeepsRule(w: World, op: RuleOp, id: string)
    requires op.Delete? && Commits(w.t, op) && id in w.t.rules && id != op.id
    requires RuleTracked(w, id) && ArchiveTracked(w, id)
    ensures RuleTracked(Next(w, Serial(op)), id) && ArchiveTracked(Next(w, Serial(op)), id)
  {
    var w' := Next(w, Serial(op));
    FilterMembers(w.t.versions, (v: VersionRow) => v.ruleId != op.id);
    forall v | 1 <= v <= w.t.rules[id].version ensures Archived(w'.t, id, v) <==> Kept(w', id, v) {
      assert Archived(w.t, id, v) <==> Kept(w, id, v);
    }
  }

  lemma DeleteKeepsInv(w: World, op: RuleOp)
    requires Inv(w) && op.Delete? && Commits(w.t, op)
    ensures Inv(Next(w, Serial(op)))
  {
    var w' := Next(w, Serial(op));
    forall row | row in w'.t.versions ensures RowTrue(w'.t, row) {
      FilterMembers(w.t.versions, (v: VersionRow) => v.ruleId != op.id);
      assert RowTrue(w.t, row) && RuleTracked(w, row.ruleId);
      RowStays(w.t, w'.t, row);
    }
    forall id | id in w'.t.rules ensures RuleTracked(w', id) && ArchiveTracked(w', id) {
      DeleteKeepsRule(w, op, id);
    }
    forall tx | tx in w'.pending ensures PendingTrue(w', w'.pending[tx]) {
      assert PendingTrue(w, w.pending[tx]);
    }
  }

  /** The updated rule: its archive gains the version the update had read. */
  lemma UpdatedArchive(w: World, w': World, p: Pending, c: Content, priority: int, enabled: bool)
    requires p.id in w.t.rules && RuleTracked(w, p.id) && ArchiveTracked(w, p.id) && RowsTrue(w) && PendingTrue(w, p)
    requires w'.t == ArchiveAndBump(w.t, p.id, p.seen, c, priority, enabled)
    requires w'.seenBy == w.seenBy[p.id := Reads(w, p.id) + [p.seen.version]]
    ensures RuleTracked(w', p.id) && ArchiveTracked(w', p.id)
  {
    var id, n := p.id, w.t.rules[p.id].version;
    var row := Row(id, p.seen.version, ContentOf(p.seen));
    assert w'.t.versions[|w.t.versions|] == row;
    forall x | x in w'.t.versions && x.ruleId == id ensures x.version <= n {
      assert x in w.t.versions ==> RowTrue(w.t, x);
    }
    forall v | 1 <= v <= n + 1 ensures Archived(w'.t, id, v) <==> Kept(w', id, v) {
      if v <= n {
        assert Archived(w.t, id, v) <==> Kept(w, id, v);
        assert Past(w'.t, id)[v - 1] == Past(w.t, id)[v - 1];
      }
    }
  }

  lemma CommitKeepsRows(w: World, a: Action)
    requires Inv(w) && a.CommitUpdate? && a.tx in w.pending && Lands(w, w.pending[a.tx])
    ensures RowsTrue(Next(w, a))
  {
    var w', p := Next(w, a), w.pending[a.tx];
    assert PendingTrue(w, p);
    forall row | row in w'.t.versions ensures RowTrue(w'.t, row) {
      if row in w.t.versions {
        assert RowTrue(w.t, row) && RuleTracked(w, row.ruleId);
        RowStays(w.t, w'.t, row);
      } else {
        assert row == Row(p.id, p.seen.version, ContentOf(p.seen));
        RowStays(w.t, w'.t, row);
      }
    }
  }

  lemma CommitKeepsRule(w: World, a: Action, id: string)
    requires Inv(w) && a.CommitUpdate? && a.tx in w.pending && Lands(w, w.pending[a.tx]) && id in w.t.rules
    ensures RuleTracked(Next(w, a), id) && ArchiveTracked(Next(w, a), id)
  {
    var p := w.pending[a.tx];
    assert PendingTrue(w, p) && RuleTracked(w, id) && ArchiveTracked(w, id);
    if id == p.id {
      UpdatedArchive(w, Next(w, a), p, a.content, a.priority, a.enabled);
    } else {
      OthersArchive(w, Next(w, a), id, Row(p.id, p.seen.version, ContentOf(p.seen)));
    }
  }

  lemma CommitKeepsInv(w: World, a: Action)
    requires Inv(w) && a.CommitUpdate? && a.tx in w.pending && Lands(w, w.pending[a.tx])
    ensures Inv(Next(w, a))
  {
    var w' := Next(w, a);
    CommitKeepsRows(w, a);
    forall id | id in w'.t.rules ensures RuleTracked(w', id) && ArchiveTracked(w', id) {
      CommitKeepsRule(w, a, id);
    }
    forall tx | tx in w'.pending ensures PendingTrue(w', w'.pending[tx]) {
      assert PendingTrue(w, w.pending[tx]);
    }
  }

  lemma NextKeepsInv(w: World, a: Action)
    requires Inv(w) && Enabled(w, a)
    ensures Inv(Next(w, a))
  {
    match a
    case Serial(op) =>
      if Commits(w.t, op) {
        if op.Create? { CreateKeepsInv(w, op); } else { DeleteKeepsInv(w, op); }
      }
    case ReadRow(tx, id, _) => assert RuleTracked(w, id); SameTables(w, Next(w, a));
    case CommitUpdate(tx, _, _, _) =>
      if Lands(w, w.pending[tx]) { CommitKeepsInv(w, a); } else { SameTables(w, Next(w, a)); }
    case Abort(_) => SameTables(w, Next(w, a));
  }

  lemma SameTables(w: World, w': World)
    requires Inv(w) && w'.t == w.t && w'.seenBy == w.seenBy
    requires forall tx :: tx in w'.pending ==> PendingTrue(w, w'.pending[tx])
    ensures Inv(w')
  {
    forall id | id in w.t.rules ensures RuleTracked(w', id) && ArchiveTracked(w', id) {
      assert RuleTracked(w, id) && ArchiveTracked(w, id);
      assert forall v :: Kept(w', id, v) <==> Kept(w, id, v);
    }
  }

  lemma {:induction false} RunKeepsInv(acts: seq<Action>)
    requires IsRun(acts)
    ensures Inv(Run(acts))
  {
    if acts != [] {
      var n := |acts| - 1;
      forall i | 0 <= i < n ensures acts[..n][..i] == acts[..i] {}
      RunKeepsInv(acts[..n]);
      NextKeepsInv(Run(acts[..n]), acts[n]);
    }
  }

  /** In every interleaving a version of a rule is archived exactly if it is the first or some update had read it. */
  lemma ArchivedExactly(acts: seq<Action>, id: string, v: int)
    requires IsRun(acts) && id in Run(acts).t.rules && 1 <= v <= Run(acts).t.rules[id].version
    ensures Archived(Run(acts).t, id, v) <==> Kept(Run(acts), id, v)
  {
    RunKeepsInv(acts);
    assert ArchiveTracked(Run(acts), id);
  }

  /** The k-th update of the rule had read version k + 1, the one it overwrote. */
  ghost predicate AllCurrent(vs: seq<int>) {
    forall k :: 0 <= k < |vs| ==> vs[k] == k + 1
  }

  ghost predicate Covers(vs: seq<int>) {
    forall v :: 1 <= v <= |vs| ==> v == 1 || v in vs
  }

  /** Reading no version ahead, updates cover every version only if each reads its own. */
  lemma {:induction false} CoversExactly(vs: seq<int>)
    requires Bounded(vs)
    ensures Covers(vs) <==> AllCurrent(vs)
  {
    if vs != [] {
      var n := |vs| - 1;
      assert vs == vs[..n] + [vs[n]];
      CoversExactly(vs[..n]);
      if Covers(vs) {
        if n > 0 {
          assert n + 1 in vs;
          var k :| 0 <= k <= n && vs[k] == n + 1;
        }
        forall v | 1 < v <= n ensures v in vs[..n] {
          assert v in vs;
          var k :| 0 <= k <= n && vs[k] == v;
          assert vs[..n][k] == v;
        }
      }
      if AllCurrent(vs) {
        forall v | 1 <= v <= n + 1 ensures v in vs { assert vs[v - 1] == v; }
      }
    }
  }

  /**
   In every interleaving of creates, updates and deletes the archive is faithful if and only if every
   committed update of every rule had read the version it overwrote.
   */
  lemma FaithfulExactlyIfReadsCurrent(acts: seq<Action>)
    requires IsRun(acts)
    ensures var w := Run(acts);
            ArchiveFaithful(w.t) <==> forall id :: id in w.t.rules ==> AllCurrent(Reads(w, id))
  {
    RunKeepsInv(acts);
    var w := Run(acts);
    forall id | id in w.t.rules ensures RuleFaithful(w.t, id) <==> AllCurrent(Reads(w, id)) {
      RuleFaithfulExactly(w, id);
    }
  }

  lemma RuleFaithfulExactly(w: World, id: string)
    requires id in w.t.rules && RuleTracked(w, id) && ArchiveTracked(w, id)
    ensures RuleFaithful(w.t, id) <==> AllCurrent(Reads(w, id))
  {
    CoversExactly(Reads(w, id));
    forall v | 1 <= v < w.t.rules[id].version ensures Archived(w.t, id, v) <==> v == 1 || v in Reads(w, id) {
      assert Archived(w.t, id, v) <==> Kept(w, id, v);
    }
  }

  /** Such a run: both of two updates read version 1, and version 2 is in the table but never in the archive. */
  lemma RaceLosesVersion(id: string, tenantId: string, name: string, c: Content, c1: Content, c2: Content)
    ensures var acts := [Serial(Create(id, tenantId, name, c, 0, 0)),
                         ReadRow(1, id, tenantId), ReadRow(2, id, tenantId),
                         CommitUpdate(1, c1, 0, true), CommitUpdate(2, c2, 0, true)];
      && IsRun(acts)
      && id in Run(acts[..4]).t.rules && Run(acts[..4]).t.rules[id].version == 2
      && id in Run(acts).t.rules && Run(acts).t.rules[id].version == 3
      && (forall row :: row in Run(acts).t.versions ==> row.version == 1)
      && !ArchiveFaithful(Run(acts).t)
  {
    var acts := [Serial(Create(id, tenantId, name, c, 0, 0)), ReadRow(1, id, tenantId), ReadRow(2, id, tenantId),
                 CommitUpdate(1, c1, 0, true), CommitUpdate(2, c2, 0, true)];
    RunSteps(acts);
    var w1, w3, w4, w5 := Run(acts[..1]), Run(acts[..3]), Run(acts[..4]), Run(acts[..5]);
    assert w1.t.rules[id].version == 1 && w3.pending[1].seen == w3.pending[2].seen == w1.t.rules[id];
    assert w4.t.rules[id].version == 2 && w4.pending[2].seen.version == 1;
    forall i | 0 <= i < |acts| ensures Enabled(Run(acts[..i]), acts[i]) {
      assert i == 0 || i == 1 || i == 2 || i == 3 || i == 4;
    }
    assert w5.t.versions == [Row(id, 1, c), Row(id, 1, c), Row(id, 1, c)];
    assert !Archived(w5.t, id, 2);
    assert !RuleFaithful(w5.t, id);
  }

  lemma RunSteps(acts: seq<Action>)
    ensures forall i :: 0 <= i < |acts| ==> Run(acts[..i + 1]) == Next(Run(acts[..i]), acts[i])
    ensures Run(acts[..0]) == START && acts[..|acts|] == acts
  {
    forall i | 0 <= i < |acts| ensures Run(acts[..i + 1]) == Next(Run(acts[..i]), acts[i]) {
      assert acts[..i + 1][..i] == acts[..i];
    }
  }
}
