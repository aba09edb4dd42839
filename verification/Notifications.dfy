/** The notification table: delivery marks, the retry limit and the lister. */
module Notifications {
  import opened Common
  import opened Ordering

  datatype Status = Pending | Delivered | Failed | Retrying

  datatype Notification = Notification(id: string, tenantId: string, kind: string, recipient: string, channel: string,
                                       payload: string, status: Status, attempts: int, createdAt: int)

  const MAX_ATTEMPTS: int := 5

  predicate KnownChannel(c: string) { c == "email" || c == "webhook" || c == "slack" }

  datatype Mark = MarkDelivered(id: string) | MarkFailed(id: string)

  /** `WHERE status IN ('pending', 'retrying') AND attempts < 5`. */
  predicate Due(n: Notification) {
    (n.status.Pending? || n.status.Retrying?) && n.attempts < MAX_ATTEMPTS
  }

  /** What a mark makes of the row it names; an attempt count that would overflow fails the statement. */
  function Marked(n: Notification, m: Mark): Notification {
    if n.id != m.id then n
    else if m.MarkDelivered? then n.(status := Delivered)
    else if n.attempts >= MAX_INT32 then n
    else n.(attempts := n.attempts + 1, status := if n.attempts + 1 >= MAX_ATTEMPTS then Failed else Retrying)
  }

  function Apply(rows: seq<Notification>, m: Mark): (r: seq<Notification>)
    ensures |r| == |rows| && forall i :: 0 <= i < |rows| ==> r[i] == Marked(rows[i], m)
  {
    if rows == [] then [] else [Marked(rows[0], m)] + Apply(rows[1..], m)
  }

  /** Status tells the number of attempts. */
  predicate Consistent(n: Notification) {
    && n.attempts >= 0
    && (n.status.Pending? ==> n.attempts == 0)
    && (n.status.Retrying? ==> 1 <= n.attempts < MAX_ATTEMPTS)
    && (n.status.Failed? ==> n.attempts >= MAX_ATTEMPTS)
  }

  function Id(n: Notification): string { n.id }
  function CreatedAt(n: Notification): int { n.createdAt }

  ghost predicate Inv(rows: seq<Notification>) {
    (forall i :: 0 <= i < |rows| ==> Consistent(rows[i])) && DistinctBy(rows, Id)
  }

  function DueRows(rows: seq<Notification>): seq<Notification> {
    Filter(rows, (n: Notification) => Due(n))
  }

  /** `out` is an answer the lister may give: the oldest due notifications, at most `limit` of them. */
  ghost predicate IsListing(out: seq<Notification>, rows: seq<Notification>, limit: nat) {
    exists all :: Arranges(all, DueRows(rows), CreatedAt) && out == all[..Min(limit, |all|)]
  }

  /** A mark's sweep over the table has reached row `i`. */
  ghost predicate MarkedUpTo(before: seq<Notification>, rows: seq<Notification>, m: Mark, i: nat)
    requires i <= |before| == |rows|
  {
    && (forall k :: 0 <= k < i ==> rows[k] == Marked(before[k], m))
    && (forall k :: i <= k < |rows| ==> rows[k] == before[k])
  }

  class NotificationStore {
    var rows: seq<Notification>

    ghost predicate Valid()
      reads this
    {
      Inv(rows)
    }

    constructor ()
      ensures rows == [] && Valid()
    {
      rows := [];
    }

    /** `id` is the generated key and `now` the transaction's start, which may precede that of rows already there. */
    method CreateNotification(id: string, now: int, tenantId: string, kind: string,
                              recipient: string, channel: string, payload: string)
      returns (result: Result<string>)
      requires Valid() && forall n :: n in rows ==> n.id != id
      modifies this
      ensures Valid()
      ensures result == if channel in {"email", "webhook", "slack"} then Ok(id) else Err(ConstraintViolation)
      ensures rows == old(rows) + if channel in {"email", "webhook", "slack"}
                then [Notification(id, tenantId, kind, recipient, channel, payload, Pending, 0, now)] else []
    {
      if !KnownChannel(channel) { return Err(ConstraintViolation); }
      rows := rows + [Notification(id, tenantId, kind, recipient, channel, payload, Pending, 0, now)];
      result := Ok(id);
    }

    method ListPendingNotifications(limit: nat) returns (out: seq<Notification>)
      ensures IsListing(out, rows, limit)
    {
      var all: seq<Notification> := [];
      var i := 0;
      while i < |rows|
        invariant 0 <= i <= |rows|
        invariant Arranges(all, DueRows(rows[..i]), CreatedAt)
      {
        var n := rows[i];
        DueSnoc(rows, i);
        if Due(n) {
          InsertSorts(all, n, CreatedAt);
          all := InsertBy(all, n, CreatedAt);
        }
        i := i + 1;
      }
      assert rows[..|rows|] == rows;
      out := all[..Min(limit, |all|)];
    }

    method MarkDelivered(id: string)
      requires Valid()
      modifies this
      ensures Valid() && rows == Apply(old(rows), Mark.MarkDelivered(id))
    {
      ghost var m, before := Mark.MarkDelivered(id), rows;
      MarkKeepsInv(rows, m);
      var i := 0;
      while i < |rows|
        invariant 0 <= i <= |rows| == |before|
        invariant MarkedUpTo(before, rows, m, i)
      {
        if rows[i].id == id {
          rows := rows[i := rows[i].(status := Delivered)];
        }
        i := i + 1;
      }
    }

    method MarkFailed(id: string)
      requires Valid()
      modifies this
      ensures Valid() && rows == Apply(old(rows), Mark.MarkFailed(id))
      ensures |rows| == |old(rows)|
      ensures forall i :: 0 <= i < |rows| && old(rows)[i].id != id ==> rows[i] == old(rows)[i]
      ensures forall i :: 0 <= i < |rows| && old(rows)[i].id == id ==>
                rows[i] == if old(rows)[i].attempts >= 0x7FFF_FFFF then old(rows)[i]
                           else old(rows)[i].(attempts := old(rows)[i].attempts + 1,
                                              status := if old(rows)[i].attempts < 4 then Retrying else Failed)
    {
      ghost var m, before := Mark.MarkFailed(id), rows;
      MarkKeepsInv(rows, m);
      FailureExactly(rows, id);
      var i := 0;
      while i < |rows|
        invariant 0 <= i <= |rows| == |before|
        invariant MarkedUpTo(before, rows, m, i)
      {
        var n := rows[i];
        if n.id == id && n.attempts < MAX_INT32 {
          var status := if n.attempts + 1 >= MAX_ATTEMPTS then Failed else Retrying;
          rows := rows[i := n.(attempts := n.attempts + 1, status := status)];
        }
        i := i + 1;
      }
    }
  }

  /** A failure counts on the named row alone; the fifth is final, and the counter stops where it would overflow. */
  lemma FailureExactly(rows: seq<Notification>, id: string)
    ensures var rows' := Apply(rows, MarkFailed(id));
      && |rows'| == |rows|
      && (forall i :: 0 <= i < |rows| && rows[i].id != id ==> rows'[i] == rows[i])
      && (forall i :: 0 <= i < |rows| && rows[i].id == id ==>
            rows'[i] == if rows[i].attempts >= 0x7FFF_FFFF then rows[i]
                        else rows[i].(attempts := rows[i].attempts + 1,
                                      status := if rows[i].attempts < 4 then Retrying else Failed))
  {}

  lemma DueSnoc(rows: seq<Notification>, i: nat)
    requires i < |rows|
    ensures DueRows(rows[..i + 1]) == DueRows(rows[..i]) + if Due(rows[i]) then [rows[i]] else []
  {
    assert rows[..i + 1] == rows[..i] + [rows[i]];
    DueAppend(rows[..i], [rows[i]]);
    DueOne(rows[i]);
  }

  lemma DueAppend(a: seq<Notification>, b: seq<Notification>)
    ensures DueRows(a + b) == DueRows(a) + DueRows(b)
  {
    FilterAppend(a, b, (n: Notification) => Due(n));
  }

  lemma DueOne(n: Notification)
    ensures DueRows([n]) == if Due(n) then [n] else []
  {
    FilterOne(n, (x: Notification) => Due(x));
  }

  /** Every mark, of any row in any order, keeps status and attempts in step. */
  lemma MarkKeepsInv(rows: seq<Notification>, m: Mark)
    requires Inv(rows)
    ensures Inv(Apply(rows, m))
  {
    var rows' := Apply(rows, m);
    forall i | 0 <= i < |rows'| ensures Consistent(rows'[i]) {
      assert Consistent(rows[i]);
    }
    forall i, j | 0 <= i < j < |rows'| ensures Id(rows'[i]) != Id(rows'[j]) {
      assert Id(rows[i]) != Id(rows[j]);
    }
  }

  /** So the lister's attempts filter is implied by the status. */
  lemma AttemptsFilterIsImplied(rows: seq<Notification>, i: nat)
    requires Inv(rows) && i < |rows|
    ensures Due(rows[i]) <==> rows[i].status.Pending? || rows[i].status.Retrying?
    ensures rows[i].status.Pending? ==> rows[i].attempts == 0
    ensures rows[i].status.Retrying? ==> 1 <= rows[i].attempts <= 4
    ensures rows[i].status.Failed? ==> rows[i].attempts >= 5
  {
    assert Consistent(rows[i]);
  }

  /** Pending or retrying with fewer than five attempts is due; a failure counts one, and the fifth is the last. */
  lemma DueExactly(n: Notification)
    ensures Due(n) <==> n.status in {Pending, Retrying} && n.attempts < 5
    ensures 0 <= n.attempts < 4 ==> Marked(n, MarkFailed(n.id)) == n.(status := Retrying, attempts := n.attempts + 1)
    ensures n.attempts == 4 ==> Marked(n, MarkFailed(n.id)) == n.(status := Failed, attempts := 5)
    ensures n.attempts >= 5 ==>
              var n' := Marked(n, MarkFailed(n.id)); n' == n.(status := n'.status, attempts := n'.attempts) && !Due(n')
    ensures Marked(n, MarkDelivered(n.id)) == n.(status := Delivered)
  {}

  /** A listing comes oldest first, and a due row is left out only if the limit is reached by rows no younger. */
  lemma ListingExactly(out: seq<Notification>, rows: seq<Notification>, limit: nat)
    requires IsListing(out, rows, limit)
    ensures |out| <= limit
    ensures forall i, j :: 0 <= i < j < |out| ==> out[i].createdAt <= out[j].createdAt
    ensures forall n :: n in out ==> n in rows && n.status in {Pending, Retrying} && n.attempts < 5
    ensures forall n :: n in rows && n.status in {Pending, Retrying} && n.attempts < 5 && n !in out ==>
              |out| == limit && forall x :: x in out ==> x.createdAt <= n.createdAt
  {
    var all :| Arranges(all, DueRows(rows), CreatedAt) && out == all[..Min(limit, |all|)];
    forall i, j | 0 <= i < j < |out| ensures out[i].createdAt <= out[j].createdAt {
      assert CreatedAt(all[i]) <= CreatedAt(all[j]);
    }
    forall n | n in out ensures n in rows && n.status in {Pending, Retrying} && n.attempts < 5 {
      assert n in all;
      ArrangedDue(all, rows, n);
    }
    forall n | n in rows && n.status in {Pending, Retrying} && n.attempts < 5 && n !in out
      ensures |out| == limit && forall x :: x in out ==> x.createdAt <= n.createdAt
    {
      ArrangedDue(all, rows, n);
      LeftOutIsYounger(all, Min(limit, |all|), n);
    }
  }

  lemma ArrangedDue(all: seq<Notification>, rows: seq<Notification>, n: Notification)
    requires Arranges(all, DueRows(rows), CreatedAt)
    ensures n in all <==> n in rows && n.status in {Pending, Retrying} && n.attempts < 5
  {
    SameMembers(all, DueRows(rows));
    DueMembers(rows);
  }

  lemma LeftOutIsYounger(all: seq<Notification>, k: nat, n: Notification)
    requires SortedBy(all, CreatedAt) && k <= |all| && n in all && n !in all[..k]
    ensures k < |all| && forall x :: x in all[..k] ==> x.createdAt <= n.createdAt
  {
    assert all == all[..k] + all[k..];
    assert n in all[k..];
    var j :| k <= j < |all| && all[j] == n;
    forall x | x in all[..k] ensures x.createdAt <= n.createdAt {
      var i :| 0 <= i < k && all[..k][i] == x;
      assert CreatedAt(all[i]) <= CreatedAt(all[j]);
    }
  }

  // ---------------------------------------------------------------- draining

  function Run(rows: seq<Notification>, marks: seq<Mark>): seq<Notification>
    decreases marks
  {
    if marks == [] then rows else Run(Apply(rows, marks[0]), marks[1..])
  }

  ghost predicate NamesDue(rows: seq<Notification>, m: Mark) {
    exists i :: 0 <= i < |rows| && rows[i].id == m.id && Due(rows[i])
  }

  /** Each mark is given to a notification that is due at that moment. */
  ghost predicate MarksDue(rows: seq<Notification>, marks: seq<Mark>)
    decreases marks
  {
    marks == [] || (NamesDue(rows, marks[0]) && MarksDue(Apply(rows, marks[0]), marks[1..]))
  }

  function Remaining(n: Notification): nat {
    if Due(n) && 0 <= n.attempts then MAX_ATTEMPTS - n.attempts else 0
  }

  /** The attempts the table can still take. */
  function Measure(rows: seq<Notification>): nat {
    if rows == [] then 0 else Remaining(rows[0]) + Measure(rows[1..])
  }

  lemma {:induction false} MeasureBounds(rows: seq<Notification>)
    requires forall i :: 0 <= i < |rows| ==> Consistent(rows[i])
    ensures |DueRows(rows)| <= Measure(rows) <= 5 * |DueRows(rows)|
  {
    if rows != [] {
      MeasureBounds(rows[1..]);
      assert rows == [rows[0]] + rows[1..];
      DueAppend([rows[0]], rows[1..]);
      DueOne(rows[0]);
      assert Consistent(rows[0]);
    }
  }

  lemma {:induction false} MarkElsewhere(rows: seq<Notification>, m: Mark)
    requires forall k :: 0 <= k < |rows| ==> rows[k].id != m.id
    ensures Apply(rows, m) == rows
  {}

  lemma {:induction false} MarkDecreases(rows: seq<Notification>, m: Mark, i: nat)
    requires i < |rows| && rows[i].id == m.id && Due(rows[i]) && rows[i].attempts >= 0
    requires forall k :: 0 <= k < |rows| && k != i ==> rows[k].id != m.id
    ensures Measure(Apply(rows, m)) < Measure(rows)
  {
    var head, rest := Marked(rows[0], m), Apply(rows[1..], m);
    assert Apply(rows, m) == [head] + rest && ([head] + rest)[1..] == rest;
    if i == 0 {
      MarkElsewhere(rows[1..], m);
    } else {
      MarkDecreases(rows[1..], m, i - 1);
    }
  }

  /** Only marks of due notifications count down: a late failure makes a delivered one due again. */
  lemma LateFailureRevives(n: Notification)
    requires Consistent(n) && n.status.Delivered?
    ensures Due(Marked(n, MarkFailed(n.id))) <==> n.attempts < MAX_ATTEMPTS - 1
  {}

  /** Marks given to due notifications are bounded by the measure, so n due notifications take at most 5n of them. */
  lemma {:induction false} DrainsWithinFivePerNotification(rows: seq<Notification>, marks: seq<Mark>)
    requires Inv(rows) && MarksDue(rows, marks)
    ensures |marks| + Measure(Run(rows, marks)) <= Measure(rows) <= 5 * |DueRows(rows)|
    ensures |marks| == 5 * |DueRows(rows)| ==> DueRows(Run(rows, marks)) == []
  {
    MeasureBounds(rows);
    MarksStayWithin(rows, marks);
    RunKeepsInv(rows, marks);
    MeasureBounds(Run(rows, marks));
  }

  lemma {:induction false} RunKeepsInv(rows: seq<Notification>, marks: seq<Mark>)
    requires Inv(rows)
    ensures Inv(Run(rows, marks))
    decreases marks
  {
    if marks != [] {
      MarkKeepsInv(rows, marks[0]);
      RunKeepsInv(Apply(rows, marks[0]), marks[1..]);
    }
  }

  lemma {:induction false} MarksStayWithin(rows: seq<Notification>, marks: seq<Mark>)
    requires Inv(rows) && MarksDue(rows, marks)
    ensures |marks| + Measure(Run(rows, marks)) <= Measure(rows)
    decreases marks
  {
    if marks != [] {
      var i :| 0 <= i < |rows| && rows[i].id == marks[0].id && Due(rows[i]);
      assert Consistent(rows[i]);
      MarkDecreases(rows, marks[0], i);
      MarkKeepsInv(rows, marks[0]);
      MarksStayWithin(Apply(rows, marks[0]), marks[1..]);
    }
  }

  // ---------------------------------------------------------------- workers

  /** A mark of a due row elsewhere leaves the rest of a batch due, and under its ids. */
  lemma MarkLeavesRest(rows: seq<Notification>, m: Mark, batch: seq<Notification>)
    requires forall k :: 0 <= k < |batch| ==> batch[k] in rows && batch[k].id != m.id
    ensures forall k :: 0 <= k < |batch| ==> batch[k] in Apply(rows, m)
  {
    forall k | 0 <= k < |batch| ensures batch[k] in Apply(rows, m) {
      var j :| 0 <= j < |rows| && rows[j] == batch[k];
      assert Apply(rows, m)[j] == rows[j];
    }
  }

  /** One mark for each row of a listing, in order, is a run of such marks. */
  lemma {:induction false} ListedBatchMarksDue(rows: seq<Notification>, batch: seq<Notification>, marks: seq<Mark>)
    requires |marks| <= |batch| && DistinctBy(batch, Id)
    requires forall k :: 0 <= k < |batch| ==> batch[k] in rows && Due(batch[k])
    requires forall k :: 0 <= k < |marks| ==> marks[k].id == batch[k].id
    ensures MarksDue(rows, marks)
    decreases marks
  {
    if marks != [] {
      var rest := batch[1..];
      assert forall k :: 0 <= k < |rest| ==> rest[k] == batch[k + 1] && Id(rest[k]) != Id(batch[0]);
      var i :| 0 <= i < |rows| && rows[i] == batch[0];
      assert NamesDue(rows, marks[0]);
      MarkLeavesRest(rows, marks[0], rest);
      ListedBatchMarksDue(Apply(rows, marks[0]), rest, marks[1..]);
    }
  }

  lemma DueMembers(rows: seq<Notification>)
    ensures forall n :: n in DueRows(rows) <==> n in rows && Due(n)
  {
    FilterMembers(rows, (n: Notification) => Due(n));
  }

  lemma {:induction false} DueRowsDistinct(rows: seq<Notification>)
    requires DistinctBy(rows, Id)
    ensures DistinctBy(DueRows(rows), Id)
  {
    if rows != [] {
      var n := |rows| - 1;
      DueRowsDistinct(rows[..n]);
      DueMembers(rows[..n]);
      DueSnoc(rows, n);
      assert rows[..n + 1] == rows;
      forall k | 0 <= k < |DueRows(rows[..n])| ensures Id(DueRows(rows[..n])[k]) != Id(rows[n]) {
        assert DueRows(rows[..n])[k] in rows[..n];
      }
    }
  }

  /** Everything listed is due, once. */
  lemma ListingSound(rows: seq<Notification>, limit: nat, batch: seq<Notification>)
    requires Inv(rows) && IsListing(batch, rows, limit)
    ensures DistinctBy(batch, Id) && |batch| == Min(limit, |DueRows(rows)|)
    ensures forall k :: 0 <= k < |batch| ==> batch[k] in rows && Due(batch[k])
  {
    var all :| Arranges(all, DueRows(rows), CreatedAt) && batch == all[..Min(limit, |all|)];
    DueRowsDistinct(rows);
    ArrangedDistinct(all, DueRows(rows), Id);
    SameMembers(all, DueRows(rows));
    DueMembers(rows);
    forall k | 0 <= k < |batch| ensures batch[k] in rows && Due(batch[k]) {
      assert batch[k] == all[k] && all[k] in DueRows(rows);
    }
  }

  /** A worker's round: it lists, and gives each listed notification one mark. */
  ghost predicate FullRound(rows: seq<Notification>, limit: nat, marks: seq<Mark>) {
    exists batch :: IsListing(batch, rows, limit) && MarksOf(marks, batch)
  }

  ghost predicate MarksOf(marks: seq<Mark>, batch: seq<Notification>) {
    |marks| == |batch| && forall k :: 0 <= k < |marks| ==> marks[k].id == batch[k].id
  }

  lemma RoundMarksDue(rows: seq<Notification>, limit: nat, marks: seq<Mark>)
    requires Inv(rows) && FullRound(rows, limit, marks)
    ensures MarksDue(rows, marks) && |marks| == Min(limit, |DueRows(rows)|)
  {
    var batch :| IsListing(batch, rows, limit) && MarksOf(marks, batch);
    ListingSound(rows, limit, batch);
    ListedBatchMarksDue(rows, batch, marks);
  }

  /** Round after round, each over the table the one before it left; the outcome of each mark is the worker's. */
  ghost predicate FullRounds(rows: seq<Notification>, limit: nat, rounds: seq<seq<Mark>>)
    decreases rounds
  {
    rounds == [] || (FullRound(rows, limit, rounds[0]) && FullRounds(Run(rows, rounds[0]), limit, rounds[1..]))
  }

  function AfterRounds(rows: seq<Notification>, rounds: seq<seq<Mark>>): seq<Notification>
    decreases rounds
  {
    if rounds == [] then rows else AfterRounds(Run(rows, rounds[0]), rounds[1..])
  }

  function MarkCount(rounds: seq<seq<Mark>>): nat {
    if rounds == [] then 0 else |rounds[0]| + MarkCount(rounds[1..])
  }

  /** Rounds spend the measure, at least one of it each while anything is due. */
  lemma {:induction false} RoundsSpend(rows: seq<Notification>, limit: nat, rounds: seq<seq<Mark>>)
    requires Inv(rows) && limit >= 1 && FullRounds(rows, limit, rounds)
    ensures Inv(AfterRounds(rows, rounds))
    ensures MarkCount(rounds) + Measure(AfterRounds(rows, rounds)) <= Measure(rows)
    ensures DueRows(AfterRounds(rows, rounds)) == [] || MarkCount(rounds) >= |rounds|
    decreases rounds
  {
    if rounds != [] {
      var next := Run(rows, rounds[0]);
      RoundMarksDue(rows, limit, rounds[0]);
      MarksStayWithin(rows, rounds[0]);
      RunKeepsInv(rows, rounds[0]);
      RoundsSpend(next, limit, rounds[1..]);
      if rounds[0] == [] {
        assert DueRows(rows) == [];
        NothingDueStays(rows, limit, rounds);
      }
    }
  }

  lemma {:induction false} NothingDueStays(rows: seq<Notification>, limit: nat, rounds: seq<seq<Mark>>)
    requires Inv(rows) && FullRounds(rows, limit, rounds) && DueRows(rows) == []
    ensures AfterRounds(rows, rounds) == rows
    decreases rounds
  {
    if rounds != [] {
      RoundMarksDue(rows, limit, rounds[0]);
      NothingDueStays(rows, limit, rounds[1..]);
    }
  }

  /**
   A worker with the table to itself that lists at least one notification a round and gives each one mark,
   whatever the outcomes and the listings' order, gives at most 5n marks for n due notifications, and has
   drained them after 5n rounds.
   */
  lemma WorkerDrains(rows: seq<Notification>, limit: nat, rounds: seq<seq<Mark>>)
    requires Inv(rows) && limit >= 1 && FullRounds(rows, limit, rounds)
    ensures MarkCount(rounds) <= 5 * |DueRows(rows)|
    ensures |rounds| >= 5 * |DueRows(rows)| ==> DueRows(AfterRounds(rows, rounds)) == []
  {
    MeasureBounds(rows);
    RoundsSpend(rows, limit, rounds);
    MeasureBounds(AfterRounds(rows, rounds));
  }

  // ---------------------------------------------------------------- workers among other marks

  /** The marks a notification can still take while due, should every delivery be followed by a late failure. */
  function Left(n: Notification): nat {
    if n.attempts < 0 || n.attempts >= MAX_ATTEMPTS then 0
    else if Due(n) then MAX_ATTEMPTS - n.attempts
    else MAX_ATTEMPTS - 1 - n.attempts
  }

  function Total(rows: seq<Notification>): nat {
    if rows == [] then 0 else Left(rows[0]) + Total(rows[1..])
  }

  /** A mark spends exactly one of them on a due notification, and none on any other. */
  lemma MarkSpendsExactly(n: Notification, m: Mark)
    requires Consistent(n)
    ensures Left(Marked(n, m)) == Left(n) - if n.id == m.id && Due(n) then 1 else 0
  {}

  function MarkedAll(n: Notification, marks: seq<Mark>): Notification
    decreases marks
  {
    if marks == [] then n else MarkedAll(Marked(n, marks[0]), marks[1..])
  }

  lemma {:induction false} RunPointwise(rows: seq<Notification>, marks: seq<Mark>)
    ensures |Run(rows, marks)| == |rows|
    ensures forall i :: 0 <= i < |rows| ==> Run(rows, marks)[i] == MarkedAll(rows[i], marks)
    decreases marks
  {
    if marks != [] {
      RunPointwise(Apply(rows, marks[0]), marks[1..]);
    }
  }

  predicate Names(marks: seq<Mark>, id: string) {
    exists k :: 0 <= k < |marks| && marks[k].id == id
  }

  /** Marks that name a due notification, among any others, spend at least one on it: the first finds it due. */
  lemma {:induction false} MarksSpend(n: Notification, marks: seq<Mark>)
    requires Consistent(n)
    ensures Left(MarkedAll(n, marks)) + (if Due(n) && Names(marks, n.id) then 1 else 0) <= Left(n)
    decreases marks
  {
    if marks != [] {
      MarkSpendsExactly(n, marks[0]);
      MarksSpend(Marked(n, marks[0]), marks[1..]);
      if Names(marks, n.id) && marks[0].id != n.id {
        var k :| 0 <= k < |marks| && marks[k].id == n.id;
        assert marks[1..][k - 1].id == n.id;
      }
    }
  }

  function Ids(rows: seq<Notification>): set<string> {
    set n | n in rows :: n.id
  }

  lemma IdsCons(rows: seq<Notification>)
    requires rows != []
    ensures Ids(rows) == {rows[0].id} + Ids(rows[1..])
  {
    assert rows == [rows[0]] + rows[1..];
  }

  /** Spending one on each of the rows named in `ids` takes at least |ids| off the total. */
  lemma {:induction false} TotalSpent(rows: seq<Notification>, rows': seq<Notification>, ids: set<string>)
    requires |rows'| == |rows| && ids <= Ids(rows)
    requires forall i :: 0 <= i < |rows| ==> SpentOn(rows[i], rows'[i], ids)
    ensures Total(rows') + |ids| <= Total(rows)
  {
    if rows != [] {
      var rest := ids - {rows[0].id};
      IdsCons(rows);
      forall i | 0 <= i < |rows[1..]| ensures SpentOn(rows[1..][i], rows'[1..][i], rest) {
        assert SpentOn(rows[i + 1], rows'[i + 1], ids);
      }
      TotalSpent(rows[1..], rows'[1..], rest);
      assert SpentOn(rows[0], rows'[0], ids);
      assert ids <= rest + {rows[0].id};
      assert rows[0].id !in ids ==> ids == rest;
    }
  }

  predicate SpentOn(n: Notification, n': Notification, ids: set<string>) {
    Left(n') + (if n.id in ids then 1 else 0) <= Left(n)
  }

  lemma {:induction false} DistinctIdsCount(rows: seq<Notification>)
    requires DistinctBy(rows, Id)
    ensures |Ids(rows)| == |rows|
  {
    if rows != [] {
      var rest := rows[1..];
      IdsCons(rows);
      forall k | 0 <= k < |rest| ensures rest[k].id != rows[0].id {
        assert Id(rows[0]) != Id(rows[k + 1]);
      }
      forall i, j | 0 <= i < j < |rest| ensures Id(rest[i]) != Id(rest[j]) {
        assert Id(rows[i + 1]) != Id(rows[j + 1]);
      }
      DistinctIdsCount(rest);
    }
  }

  /**
   A worker's round among others: any marks, then its listing, then marks that name each listed row at
   least once. The worker's own marks and everyone else's may come in any order and with any outcome.
   */
  datatype Round = Round(before: seq<Mark>, batch: seq<Notification>, during: seq<Mark>)

  ghost predicate RacedRound(rows: seq<Notification>, limit: nat, r: Round) {
    && IsListing(r.batch, Run(rows, r.before), limit)
    && forall k :: 0 <= k < |r.batch| ==> Names(r.during, r.batch[k].id)
  }

  function AfterRound(rows: seq<Notification>, r: Round): seq<Notification> {
    Run(Run(rows, r.before), r.during)
  }

  ghost predicate RacedRounds(rows: seq<Notification>, limit: nat, rounds: seq<Round>)
    decreases rounds
  {
    rounds == [] || (RacedRound(rows, limit, rounds[0]) && RacedRounds(AfterRound(rows, rounds[0]), limit, rounds[1..]))
  }

  /** The notifications listed to the worker over all its rounds, one mark of its own for each. */
  function ListedCount(rounds: seq<Round>): nat {
    if rounds == [] then 0 else |rounds[0].batch| + ListedCount(rounds[1..])
  }

  /** The first round must fit the table, and the rest the table it leaves. */
  lemma RoundsExactly(rows: seq<Notification>, limit: nat, r: Round, rest: seq<Round>)
    ensures RacedRounds(rows, limit, [r] + rest) <==>
      && IsListing(r.batch, Run(rows, r.before), limit)
      && (forall n :: n in r.batch ==> exists m :: m in r.during && m.id == n.id)
      && RacedRounds(Run(Run(rows, r.before), r.during), limit, rest)
    ensures RacedRounds(rows, limit, [])
  {
    var all := [r] + rest;
    assert all[0] == r && all[1..] == rest;
    NamesExactly(r);
  }

  lemma NamesExactly(r: Round)
    ensures (forall k :: 0 <= k < |r.batch| ==> Names(r.during, r.batch[k].id)) <==>
            (forall n :: n in r.batch ==> exists m :: m in r.during && m.id == n.id)
  {
    if forall k :: 0 <= k < |r.batch| ==> Names(r.during, r.batch[k].id) {
      forall n | n in r.batch ensures exists m :: m in r.during && m.id == n.id {
        var k :| 0 <= k < |r.batch| && r.batch[k] == n;
        assert Names(r.during, r.batch[k].id);
      }
    }
  }

  /** Every listed row counts as one. */
  lemma ListedCountExactly(r: Round, rest: seq<Round>)
    ensures ListedCount([r] + rest) == |r.batch| + ListedCount(rest)
    ensures ListedCount([]) == 0
  {
    assert ([r] + rest)[1..] == rest;
  }

  lemma MarksNeverAdd(rows: seq<Notification>, marks: seq<Mark>)
    requires Inv(rows)
    ensures Total(Run(rows, marks)) <= Total(rows)
  {
    RunPointwise(rows, marks);
    forall i | 0 <= i < |rows| ensures SpentOn(rows[i], Run(rows, marks)[i], {}) {
      MarksSpend(rows[i], marks);
    }
    TotalSpent(rows, Run(rows, marks), {});
  }

  /** A row whose id was listed is the row listed. */
  lemma ListedRow(rows: seq<Notification>, batch: seq<Notification>, i: nat)
    requires DistinctBy(rows, Id) && i < |rows| && rows[i].id in Ids(batch)
    requires forall k :: 0 <= k < |batch| ==> batch[k] in rows
    ensures rows[i] in batch
  {
    var n :| n in batch && n.id == rows[i].id;
    var j :| 0 <= j < |rows| && rows[j] == n;
    assert i < j ==> Id(rows[i]) != Id(rows[j]);
    assert j < i ==> Id(rows[j]) != Id(rows[i]);
  }

  /** After a listing, marks that name every listed row spend at least one on each, whatever else they mark. */
  lemma BatchSpends(rows: seq<Notification>, limit: nat, batch: seq<Notification>, marks: seq<Mark>)
    requires Inv(rows) && IsListing(batch, rows, limit)
    requires forall k :: 0 <= k < |batch| ==> Names(marks, batch[k].id)
    ensures Total(Run(rows, marks)) + |batch| <= Total(rows)
  {
    ListingSound(rows, limit, batch);
    DistinctIdsCount(batch);
    RunPointwise(rows, marks);
    forall i | 0 <= i < |rows| ensures SpentOn(rows[i], Run(rows, marks)[i], Ids(batch)) {
      MarksSpend(rows[i], marks);
      if rows[i].id in Ids(batch) {
        ListedRow(rows, batch, i);
      }
    }
    TotalSpent(rows, Run(rows, marks), Ids(batch));
  }

  lemma RacedRoundSpends(rows: seq<Notification>, limit: nat, r: Round)
    requires Inv(rows) && RacedRound(rows, limit, r)
    ensures Inv(AfterRound(rows, r))
    ensures Total(AfterRound(rows, r)) + |r.batch| <= Total(rows)
  {
    RunKeepsInv(rows, r.before);
    RunKeepsInv(Run(rows, r.before), r.during);
    MarksNeverAdd(rows, r.before);
    BatchSpends(Run(rows, r.before), limit, r.batch, r.during);
  }

  lemma {:induction false} RacedRoundsSpend(rows: seq<Notification>, limit: nat, rounds: seq<Round>)
    requires Inv(rows) && RacedRounds(rows, limit, rounds)
    ensures ListedCount(rounds) <= Total(rows)
    ensures |rounds| > Total(rows) ==> exists k :: 0 <= k < |rounds| && rounds[k].batch == []
    decreases rounds
  {
    if rounds != [] {
      RacedRoundSpends(rows, limit, rounds[0]);
      RacedRoundsSpend(AfterRound(rows, rounds[0]), limit, rounds[1..]);
      if |rounds| > Total(rows) && rounds[0].batch != [] {
        var k :| 0 <= k < |rounds[1..]| && rounds[1..][k].batch == [];
        assert rounds[k + 1].batch == [];
      }
    }
  }

  lemma {:induction false} TotalBound(rows: seq<Notification>)
    ensures Total(rows) <= 5 * |rows|
  {
    if rows != [] {
      TotalBound(rows[1..]);
    }
  }

  /** A listing that may hold a row and holds none says that nothing is due at that moment. */
  lemma EmptyListing(rows: seq<Notification>, limit: nat)
    requires Inv(rows) && limit >= 1 && IsListing([], rows, limit)
    ensures DueRows(rows) == []
  {
    ListingSound(rows, limit, []);
  }

  /**
   In every interleaving of marks, a worker that gives each notification listed to it one mark gives at most
   5n marks over a table of n notifications, and among any 5n + 1 of its rounds one lists nothing.
   */
  lemma AnyWorkerDrains(rows: seq<Notification>, limit: nat, rounds: seq<Round>)
    requires Inv(rows) && RacedRounds(rows, limit, rounds)
    ensures ListedCount(rounds) <= 5 * |rows|
    ensures |rounds| > 5 * |rows| ==> exists k :: 0 <= k < |rounds| && rounds[k].batch == []
  {
    TotalBound(rows);
    RacedRoundsSpend(rows, limit, rounds);
  }
}
