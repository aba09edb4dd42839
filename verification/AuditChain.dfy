/** The audit log: one append-only table of many interleaved per-tenant hash chains, and its verifier. */
module AuditChain {
  import opened Common

  datatype AuditEvent = AuditEvent(
    seqNo: int, id: string, tenantId: string, actorId: string, action: string, resourceType: string,
    resourceId: string, sourceTopic: string, payload: string, previousHash: string, hash: string, occurredAt: int)

  datatype AppendParams = AppendParams(
    tenantId: string, actorId: string, action: string, resourceType: string, resourceId: string,
    sourceTopic: string, payload: string)

  /** SHA-256 in hexadecimal, and the nanosecond timestamp format; neither is fixed here. */
  datatype Lib = Lib(digest: string -> string, formatTime: int -> string)

  function ComputeHash(lib: Lib, prev: string, p: AppendParams, now: int): string {
    lib.digest(prev + p.tenantId + p.actorId + p.action + p.resourceType + p.resourceId + p.payload +
               lib.formatTime(now))
  }

  function NewEvent(lib: Lib, seqNo: int, id: string, prev: string, p: AppendParams, now: int): AuditEvent {
    AuditEvent(seqNo, id, p.tenantId, p.actorId, p.action, p.resourceType, p.resourceId, p.sourceTopic,
               p.payload, prev, ComputeHash(lib, prev, p, now), now)
  }

  /** The tenant's events in seq order. */
  function Chain(log: seq<AuditEvent>, tenantId: string): seq<AuditEvent> {
    Filter(log, (e: AuditEvent) => e.tenantId == tenantId)
  }

  lemma ChainMembers(log: seq<AuditEvent>, tenantId: string)
    ensures forall k :: 0 <= k < |Chain(log, tenantId)| ==> Chain(log, tenantId)[k] in log
  {
    FilterMembers(log, (e: AuditEvent) => e.tenantId == tenantId);
  }

  lemma ChainAppend(log: seq<AuditEvent>, e: AuditEvent, tenantId: string)
    ensures Chain(log + [e], tenantId) == Chain(log, tenantId) + if e.tenantId == tenantId then [e] else []
  {
    var p := (x: AuditEvent) => x.tenantId == tenantId;
    FilterAppend(log, [e], p);
    FilterOne(e, p);
  }

  /** The hash the (n+1)-th event of a chain links to: "" for the first. */
  function HashAt(chain: seq<AuditEvent>, n: nat): string
    requires n <= |chain|
  {
    if n == 0 then "" else chain[n - 1].hash
  }

  function Head(log: seq<AuditEvent>, tenantId: string): string {
    HashAt(Chain(log, tenantId), |Chain(log, tenantId)|)
  }

  /** The rows in `log` carry the increasing values of a BIGSERIAL column. */
  ghost predicate SeqOrdered(log: seq<AuditEvent>) {
    && (forall i :: 0 <= i < |log| ==> 1 <= log[i].seqNo <= MAX_INT64)
    && (forall i, j :: 0 <= i < j < |log| ==> log[i].seqNo < log[j].seqNo)
  }

  /** The first n rows link up: each names its predecessor's hash, the first names none. */
  ghost predicate Linked(rows: seq<AuditEvent>, n: nat)
    requires n <= |rows|
  {
    forall i :: 0 <= i < n ==> rows[i].previousHash == HashAt(rows, i)
  }

  /** Digests of distinct events of a chain differ, and no digest is empty. */
  ghost predicate DistinctDigests(rows: seq<AuditEvent>) {
    && (forall i :: 0 <= i < |rows| ==> rows[i].hash != "")
    && (forall i, j :: 0 <= i < j < |rows| ==> rows[i].hash != rows[j].hash)
  }

  function EffectiveLimit(limit: int): nat { if limit <= 0 then 1000 else limit }

  /** The rows a verification reads. */
  function Window(log: seq<AuditEvent>, tenantId: string, limit: int): seq<AuditEvent> {
    Chain(log, tenantId)[..Min(EffectiveLimit(limit), |Chain(log, tenantId)|)]
  }

  /** The verifier's answer: events checked before the first break, and the id of the event that breaks the chain. */
  datatype Verification = Verification(valid: bool, checked: nat, brokenAt: string)

  /** `v` is right about `rows`: it tells where the links first break, if they do. */
  ghost predicate IsVerdict(rows: seq<AuditEvent>, v: Verification) {
    && v.checked <= |rows|
    && Linked(rows, v.checked)
    && (v.valid <==> v.checked == |rows|)
    && (v.valid ==> v.brokenAt == "")
    && (!v.valid ==> rows[v.checked].previousHash != HashAt(rows, v.checked) && v.brokenAt == rows[v.checked].id)
  }

  function Verdict(rows: seq<AuditEvent>): (v: Verification)
    ensures IsVerdict(rows, v)
  {
    VerdictFrom(rows, 0)
  }

  function VerdictFrom(rows: seq<AuditEvent>, i: nat): (v: Verification)
    requires i <= |rows| && Linked(rows, i)
    ensures IsVerdict(rows, v)
    decreases |rows| - i
  {
    if i == |rows| then Verification(true, i, "")
    else if rows[i].previousHash != HashAt(rows, i) then Verification(false, i, rows[i].id)
    else VerdictFrom(rows, i + 1)
  }

  /** Row i names the hash of the row before it, or none if it is the first. */
  predicate NamesPrevious(rows: seq<AuditEvent>, i: nat)
    requires i < |rows|
  {
    rows[i].previousHash == if i == 0 then "" else rows[i - 1].hash
  }

  /**
   `v` is the answer for a tenant's events when up to `limit` of them are verified: valid with all of those
   checked if they link up, else the first that does not, with its position as the number checked.
   */
  ghost predicate IsVerification(v: Verification, chain: seq<AuditEvent>, limit: nat) {
    && v.checked <= limit && v.checked <= |chain|
    && (forall i :: 0 <= i < v.checked ==> NamesPrevious(chain, i))
    && (v.valid ==> v.brokenAt == "" && (v.checked == limit || v.checked == |chain|))
    && (!v.valid ==>
          && v.checked < limit && v.checked < |chain|
          && !NamesPrevious(chain, v.checked) && v.brokenAt == chain[v.checked].id)
  }

  /** So the verification of a log reads the tenant's first 1000 events, or as many as asked. */
  lemma WindowExactly(log: seq<AuditEvent>, tenantId: string, limit: int)
    ensures IsVerification(Verdict(Window(log, tenantId, limit)), Chain(log, tenantId),
                           if limit <= 0 then 1000 else limit)
  {
    var rows, chain := Window(log, tenantId, limit), Chain(log, tenantId);
    var v := Verdict(rows);
    forall i | 0 <= i < |rows| ensures NamesPrevious(chain, i) <==> rows[i].previousHash == HashAt(rows, i) {}
  }

  /** A tenant's chain is its events of the log, each once and in the log's order. */
  lemma {:induction false} ChainExactly(log: seq<AuditEvent>, tenantId: string)
    requires SeqOrdered(log)
    ensures forall e :: e in Chain(log, tenantId) <==> e in log && e.tenantId == tenantId
    ensures SeqOrdered(Chain(log, tenantId))
  {
    FilterMembers(log, (e: AuditEvent) => e.tenantId == tenantId);
    if log != [] {
      var init, e := log[..|log| - 1], log[|log| - 1];
      ChainExactly(init, tenantId);
      assert log == init + [e];
      ChainAppend(init, e, tenantId);
      forall i | 0 <= i < |Chain(init, tenantId)| ensures Chain(init, tenantId)[i].seqNo < e.seqNo {
        assert Chain(init, tenantId)[i] in init;
      }
    }
  }

  class AuditStore {
    const lib: Lib
    var events: seq<AuditEvent>

    ghost predicate Valid()
      reads this
    {
      SeqOrdered(events)
    }

    constructor (lib: Lib)
      ensures events == [] && this.lib == lib && Valid()
    {
      this.lib := lib;
      events := [];
    }

    /** First half of an append: the hash of the tenant's latest event, "" if it has none. */
    method ReadHead(tenantId: string) returns (prev: string)
      ensures prev == Head(events, tenantId)
    {
      prev := "";
      var i := 0;
      while i < |events|
        invariant 0 <= i <= |events|
        invariant prev == Head(events[..i], tenantId)
      {
        assert events[..i + 1] == events[..i] + [events[i]];
        ChainAppend(events[..i], events[i], tenantId);
        if events[i].tenantId == tenantId { prev := events[i].hash; }
        i := i + 1;
      }
      assert events[..|events|] == events;
    }

    /** Feeds the fields to the hash one after another, in their fixed order. */
    method HashFields(prev: string, p: AppendParams, now: int) returns (hash: string)
      ensures hash == ComputeHash(lib, prev, p, now)
    {
      var h := prev;
      h := h + p.tenantId;
      h := h + p.actorId;
      h := h + p.action;
      h := h + p.resourceType;
      h := h + p.resourceId;
      h := h + p.payload;
      h := h + lib.formatTime(now);
      hash := lib.digest(h);
    }

    /** `AppendEvent` as one transaction with nothing in between; seqNo and id are the database's. */
    method AppendEvent(p: AppendParams, seqNo: int, id: string, now: int) returns (e: AuditEvent)
      requires Valid() && 1 <= seqNo <= MAX_INT64 && forall x :: x in events ==> x.seqNo < seqNo
      modifies this`events
      ensures Valid() && events == old(events) + [e]
      ensures e == NewEvent(lib, seqNo, id, Head(old(events), p.tenantId), p, now)
    {
      var prev := ReadHead(p.tenantId);
      var newHash := HashFields(prev, p, now);
      e := AuditEvent(seqNo, id, p.tenantId, p.actorId, p.action, p.resourceType, p.resourceId, p.sourceTopic,
                      p.payload, prev, newHash, now);
      events := events + [e];
    }

    /** Verifies the tenant's chain, up to `limit` events. */
    method VerifyChain(tenantId: string, limit: int) returns (v: Verification)
      ensures v == Verdict(Window(events, tenantId, limit))
      ensures IsVerification(v, Chain(events, tenantId), if limit <= 0 then 1000 else limit)
    {
      WindowExactly(events, tenantId, limit);
      v := ScanLinks(Window(events, tenantId, limit));
    }
  }

  /** The verification loop over the rows read. */
  method ScanLinks(rows: seq<AuditEvent>) returns (v: Verification)
    ensures v == Verdict(rows)
  {
    var checked := 0;
    var i := 0;
    while i < |rows|
      invariant 0 <= i <= |rows|
      invariant checked == i
      invariant Linked(rows, i) && Verdict(rows) == VerdictFrom(rows, i)
    {
      LinkedStep(rows, i);
      if i == 0 {
        if rows[0].previousHash != "" { return Verification(false, checked, rows[0].id); }
      } else if rows[i].previousHash != rows[i - 1].hash {
        return Verification(false, checked, rows[i].id);
      }
      checked := checked + 1;
      i := i + 1;
    }
    return Verification(true, checked, "");
  }

  // ---------------------------------------------------------------- what a hash covers

  /**
   With a digest that tells apart what it is given, two hashes agree exactly if previous hash, fields and
   time run together to the same text; the source topic is not part of it.
   */
  lemma HashExactly(lib: Lib, prev: string, p: AppendParams, now: int, prev': string, p': AppendParams, now': int)
    requires forall x, y :: lib.digest(x) == lib.digest(y) ==> x == y
    ensures ComputeHash(lib, prev, p, now) == ComputeHash(lib, prev', p', now') <==>
            prev + p.tenantId + p.actorId + p.action + p.resourceType + p.resourceId + p.payload +
            lib.formatTime(now) ==
            prev' + p'.tenantId + p'.actorId + p'.action + p'.resourceType + p'.resourceId + p'.payload +
            lib.formatTime(now')
  {}

  // ---------------------------------------------------------------- what the verifier detects

  /** Only one answer is right, and it tells exactly which prefixes link up. */
  lemma VerdictExact(rows: seq<AuditEvent>, v: Verification, n: nat)
    requires IsVerdict(rows, v) && n <= |rows|
    ensures v == Verdict(rows)
    ensures Linked(rows, n) <==> n <= v.checked
  {}

  /** Only ids and links matter: rows whose other fields were edited get the same answer. */
  lemma VerdictIgnoresContent(rows: seq<AuditEvent>, edited: seq<AuditEvent>)
    requires |edited| == |rows|
    requires forall i :: 0 <= i < |rows| ==>
               edited[i] == rows[i].(tenantId := edited[i].tenantId, actorId := edited[i].actorId,
                                     action := edited[i].action,
                                     resourceType := edited[i].resourceType, resourceId := edited[i].resourceId,
                                     sourceTopic := edited[i].sourceTopic, payload := edited[i].payload,
                                     occurredAt := edited[i].occurredAt)
    ensures Verdict(edited) == Verdict(rows)
  {
    var v := Verdict(rows);
    forall i | 0 <= i < v.checked ensures edited[i].previousHash == HashAt(edited, i) {
      assert rows[i].previousHash == HashAt(rows, i);
    }
    VerdictExact(edited, v, 0);
  }

  /** In a linked chain with distinct digests only an event's successor names its hash, only the first names none. */
  lemma SuccessorOnly(chain: seq<AuditEvent>, a: nat, b: nat)
    requires Linked(chain, |chain|) && DistinctDigests(chain)
    requires a < |chain| && b < |chain|
    ensures chain[b].previousHash == chain[a].hash <==> b == a + 1
    ensures chain[b].previousHash == "" <==> b == 0
  {
    assert chain[b].previousHash == HashAt(chain, b);
    if b > 0 {
      assert chain[b - 1].hash != "";
      assert a < b - 1 ==> chain[a].hash != chain[b - 1].hash;
      assert b - 1 < a ==> chain[b - 1].hash != chain[a].hash;
    }
  }

  lemma LinkedStep(rows: seq<AuditEvent>, n: nat)
    requires n < |rows|
    ensures Linked(rows, n + 1) <==> Linked(rows, n) && rows[n].previousHash == HashAt(rows, n)
  {}

  /** `rows` lists events of the chain: the i-th is the chain's `pick[i]`-th. */
  ghost predicate Drawn(rows: seq<AuditEvent>, chain: seq<AuditEvent>, pick: seq<nat>) {
    |rows| == |pick| && forall i :: 0 <= i < |rows| ==> pick[i] < |chain| && rows[i] == chain[pick[i]]
  }

  ghost predicate InOrder(pick: seq<nat>, n: nat)
    requires n <= |pick|
  {
    forall i :: 0 <= i < n ==> pick[i] == i
  }

  /**
   A list drawn from a linked chain, in any order, with any omissions and repetitions, passes up to
   position n exactly if it is the chain's first n events in order.
   */
  lemma {:induction false} OnlyPrefixesPass(chain: seq<AuditEvent>, rows: seq<AuditEvent>, pick: seq<nat>, n: nat)
    requires Linked(chain, |chain|) && DistinctDigests(chain)
    requires Drawn(rows, chain, pick) && n <= |rows|
    ensures Linked(rows, n) <==> InOrder(pick, n)
  {
    if n > 0 {
      OnlyPrefixesPass(chain, rows, pick, n - 1);
      LinkedStep(rows, n - 1);
      InOrderStep(pick, n - 1);
      if InOrder(pick, n - 1) {
        LinkFits(chain, rows, pick, n - 1);
      }
    }
  }

  /**
   So a list drawn from a valid chain passes exactly if it is an in-order prefix of it; otherwise the
   reported event is the first out of place, and the number checked is its position.
   */
  lemma DrawnListVerdict(chain: seq<AuditEvent>, rows: seq<AuditEvent>, pick: seq<nat>)
    requires Linked(chain, |chain|) && DistinctDigests(chain) && Drawn(rows, chain, pick)
    ensures var v := Verdict(rows);
      && (v.valid <==> InOrder(pick, |rows|))
      && (v.valid ==> rows <= chain)
      && (!v.valid ==>
            InOrder(pick, v.checked) && pick[v.checked] != v.checked && v.brokenAt == chain[pick[v.checked]].id)
  {
    var v := Verdict(rows);
    OnlyPrefixesPass(chain, rows, pick, v.checked);
    if v.valid {
      assert |rows| > 0 ==> pick[|rows| - 1] == |rows| - 1;
    } else {
      OnlyPrefixesPass(chain, rows, pick, v.checked + 1);
      InOrderStep(pick, v.checked);
    }
  }

  lemma InOrderStep(pick: seq<nat>, n: nat)
    requires n < |pick|
    ensures InOrder(pick, n + 1) <==> InOrder(pick, n) && pick[n] == n
  {}

  lemma LinkFits(chain: seq<AuditEvent>, rows: seq<AuditEvent>, pick: seq<nat>, k: nat)
    requires Linked(chain, |chain|) && DistinctDigests(chain)
    requires Drawn(rows, chain, pick) && k < |rows| && InOrder(pick, k)
    ensures rows[k].previousHash == HashAt(rows, k) <==> pick[k] == k
  {
    SuccessorOnly(chain, pick[if k > 0 then k - 1 else 0], pick[k]);
  }

  /** Two events naming the same predecessor are reported at or before the later one. */
  lemma ForkIsDetected(rows: seq<AuditEvent>, i: nat, j: nat)
    requires DistinctDigests(rows) && i < j < |rows|
    requires rows[i].previousHash == rows[j].previousHash
    ensures !Verdict(rows).valid && Verdict(rows).checked <= j
  {
    VerdictExact(rows, Verdict(rows), j + 1);
    assert HashAt(rows, i) != HashAt(rows, j);
  }

  // ---------------------------------------------------------------- concurrent appends

  /**
   An append between its read and its insert. `count` is a history variable: how many events the
   tenant had when the head was read.
   */
  datatype Pending = Pending(params: AppendParams, prev: string, count: nat)

  /** `readAt` is a history variable: for each inserted event, its append's `count`. */
  datatype World = World(log: seq<AuditEvent>, readAt: map<int, nat>, pending: map<int, Pending>)

  datatype Action =
    | ReadHead(op: int, params: AppendParams)
    | Insert(op: int, seqNo: int, id: string, now: int)
    | Abort(op: int)

  const START: World := World([], map[], map[])

  /** An operation reads once, inserts or aborts after that, and draws a larger seq than any before. */
  ghost predicate Enabled(w: World, a: Action) {
    match a
    case ReadHead(op, _) => op !in w.pending
    case Insert(op, seqNo, _, _) =>
      op in w.pending && 1 <= seqNo <= MAX_INT64 && forall e :: e in w.log ==> e.seqNo < seqNo
    case Abort(op) => op in w.pending
  }

  function Step(lib: Lib, w: World, a: Action): World {
    match a
    case ReadHead(op, p) =>
      w.(pending := w.pending[op := Pending(p, Head(w.log, p.tenantId), |Chain(w.log, p.tenantId)|)])
    case Insert(op, seqNo, id, now) =>
      if op !in w.pending then w
      else
        var x := w.pending[op];
        World(w.log + [NewEvent(lib, seqNo, id, x.prev, x.params, now)], w.readAt[seqNo := x.count], w.pending - {op})
    case Abort(op) => w.(pending := w.pending - {op})
  }

  function Run(lib: Lib, acts: seq<Action>): World {
    if acts == [] then START else Step(lib, Run(lib, acts[..|acts| - 1]), acts[|acts| - 1])
  }

  ghost predicate IsRun(lib: Lib, acts: seq<Action>) {
    forall i :: 0 <= i < |acts| ==> Enabled(Run(lib, acts[..i]), acts[i])
  }

  /** With nothing in between, the two steps are one `AppendEvent`. */
  lemma ReadThenInsertIsAppend(lib: Lib, w: World, op: int, p: AppendParams, seqNo: int, id: string, now: int)
    ensures Step(lib, Step(lib, w, ReadHead(op, p)), Insert(op, seqNo, id, now)).log ==
            w.log + [NewEvent(lib, seqNo, id, Head(w.log, p.tenantId), p, now)]
    ensures Step(lib, Step(lib, w, ReadHead(op, p)), Insert(op, seqNo, id, now)).pending == w.pending - {op}
    ensures Step(lib, w, Abort(op)) == World(w.log, w.readAt, w.pending - {op})
  {}

  /** No append of a tenant starts while another of the same tenant is between its read and its insert. */
  ghost predicate NoOverlap(lib: Lib, acts: seq<Action>) {
    forall i :: 0 <= i < |acts| && acts[i].ReadHead? ==>
      forall op :: op in Run(lib, acts[..i]).pending ==>
        Run(lib, acts[..i]).pending[op].params.tenantId != acts[i].params.tenantId
  }

  /** Position k of the chain links to the head its append read. */
  ghost predicate LinksToRead(w: World, chain: seq<AuditEvent>, k: nat)
    requires k < |chain|
  {
    && chain[k].seqNo in w.readAt
    && w.readAt[chain[k].seqNo] <= k
    && chain[k].previousHash == HashAt(chain, w.readAt[chain[k].seqNo])
  }

  ghost predicate PendingTrue(w: World, op: int)
    requires op in w.pending
  {
    var x, chain := w.pending[op], Chain(w.log, w.pending[op].params.tenantId);
    x.count <= |chain| && x.prev == HashAt(chain, x.count)
  }

  ghost predicate ChainTrue(w: World, tenantId: string) {
    forall k: nat :: k < |Chain(w.log, tenantId)| ==> LinksToRead(w, Chain(w.log, tenantId), k)
  }

  ghost predicate Inv(w: World) {
    && SeqOrdered(w.log)
    && (forall op :: op in w.pending ==> PendingTrue(w, op))
    && (forall tenantId :: ChainTrue(w, tenantId))
  }

  lemma InsertKeepsChain(lib: Lib, w: World, a: Action, tenantId: string)
    requires Inv(w) && Enabled(w, a) && a.Insert?
    ensures ChainTrue(Step(lib, w, a), tenantId)
  {
    var w' := Step(lib, w, a);
    var x := w.pending[a.op];
    var e := NewEvent(lib, a.seqNo, a.id, x.prev, x.params, a.now);
    var chain, chain' := Chain(w.log, tenantId), Chain(w'.log, tenantId);
    ChainAppend(w.log, e, tenantId);
    ChainMembers(w.log, tenantId);
    assert PendingTrue(w, a.op) && ChainTrue(w, tenantId);
    forall k: nat | k < |chain'| ensures LinksToRead(w', chain', k) {
      if k < |chain| {
        assert chain[k] in w.log;
        assert LinksToRead(w, chain, k);
      }
    }
  }

  lemma StepKeepsInv(lib: Lib, w: World, a: Action)
    requires Inv(w) && Enabled(w, a)
    ensures Inv(Step(lib, w, a))
  {
    var w' := Step(lib, w, a);
    forall tenantId ensures ChainTrue(w', tenantId) {
      assert ChainTrue(w, tenantId);
      if a.Insert? {
        InsertKeepsChain(lib, w, a, tenantId);
      } else {
        forall k: nat | k < |Chain(w'.log, tenantId)| ensures LinksToRead(w', Chain(w'.log, tenantId), k) {
          assert LinksToRead(w, Chain(w.log, tenantId), k);
        }
      }
    }
    forall op | op in w'.pending ensures PendingTrue(w', op) {
      assert op in w.pending ==> PendingTrue(w, op);
      if a.Insert? {
        var x := w.pending[a.op];
        ChainAppend(w.log, NewEvent(lib, a.seqNo, a.id, x.prev, x.params, a.now), w'.pending[op].params.tenantId);
      }
    }
  }

  lemma {:induction false} RunKeepsInv(lib: Lib, acts: seq<Action>)
    requires IsRun(lib, acts)
    ensures Inv(Run(lib, acts))
  {
    if acts != [] {
      var n := |acts| - 1;
      RunPrefix(lib, acts, n);
      RunKeepsInv(lib, acts[..n]);
      StepKeepsInv(lib, Run(lib, acts[..n]), acts[n]);
    }
  }

  lemma RunPrefix(lib: Lib, acts: seq<Action>, n: nat)
    requires n <= |acts|
    ensures IsRun(lib, acts) ==> IsRun(lib, acts[..n])
    ensures NoOverlap(lib, acts) ==> NoOverlap(lib, acts[..n])
  {
    forall i | 0 <= i < n ensures acts[..n][..i] == acts[..i] {}
  }

  /** The append that inserted event k of the chain found the chain as it had read it. */
  ghost predicate ReadCurrent(w: World, chain: seq<AuditEvent>, k: nat)
    requires k < |chain|
  {
    chain[k].seqNo in w.readAt && w.readAt[chain[k].seqNo] == k
  }

  /**
   In every run, whatever its appends interleave, a tenant's first n events verify exactly if no other
   append of that tenant was inserted between the read and the insert of any of them.
   */
  lemma VerifiesExactlyIfReadsCurrent(lib: Lib, acts: seq<Action>, tenantId: string, n: nat)
    requires IsRun(lib, acts)
    requires n <= |Chain(Run(lib, acts).log, tenantId)| && DistinctDigests(Chain(Run(lib, acts).log, tenantId))
    ensures var w := Run(lib, acts);
            var chain := Chain(w.log, tenantId);
            Linked(chain, n) <==> forall k: nat :: k < n ==> ReadCurrent(w, chain, k)
  {
    RunKeepsInv(lib, acts);
    var w := Run(lib, acts);
    var chain := Chain(w.log, tenantId);
    assert ChainTrue(w, tenantId);
    forall k: nat | k < n
      ensures chain[k].previousHash == HashAt(chain, k) <==> ReadCurrent(w, chain, k)
    {
      assert LinksToRead(w, chain, k);
    }
  }

  /** With no overlap within a tenant: every event found its read current, and every pending read is the only one. */
  ghost predicate SerialInv(w: World) {
    && (forall op :: op in w.pending ==> w.pending[op].count == |Chain(w.log, w.pending[op].params.tenantId)|)
    && (forall p, q :: p in w.pending && q in w.pending && p != q ==>
          w.pending[p].params.tenantId != w.pending[q].params.tenantId)
    && (forall tenantId :: SerialChain(w, tenantId))
  }

  ghost predicate SerialChain(w: World, tenantId: string) {
    forall k: nat :: k < |Chain(w.log, tenantId)| ==> ReadCurrent(w, Chain(w.log, tenantId), k)
  }

  lemma SerialStep(lib: Lib, w: World, a: Action)
    requires Inv(w) && SerialInv(w) && Enabled(w, a)
    requires a.ReadHead? ==> forall op :: op in w.pending ==> w.pending[op].params.tenantId != a.params.tenantId
    ensures SerialInv(Step(lib, w, a))
  {
    var w' := Step(lib, w, a);
    if a.Insert? {
      var x := w.pending[a.op];
      var e := NewEvent(lib, a.seqNo, a.id, x.prev, x.params, a.now);
      forall tenantId ensures SerialChain(w', tenantId) {
        ChainAppend(w.log, e, tenantId);
        ChainMembers(w.log, tenantId);
        assert SerialChain(w, tenantId);
        var chain, chain' := Chain(w.log, tenantId), Chain(w'.log, tenantId);
        forall k: nat | k < |chain'| ensures ReadCurrent(w', chain', k) {
          if k < |chain| {
            assert chain[k] in w.log;
            assert ReadCurrent(w, chain, k);
          }
        }
      }
      forall op | op in w'.pending ensures w'.pending[op].count == |Chain(w'.log, w'.pending[op].params.tenantId)| {
        ChainAppend(w.log, e, w'.pending[op].params.tenantId);
      }
    } else {
      forall tenantId ensures SerialChain(w', tenantId) {
        assert SerialChain(w, tenantId);
        forall k: nat | k < |Chain(w'.log, tenantId)| ensures ReadCurrent(w', Chain(w'.log, tenantId), k) {
          assert ReadCurrent(w, Chain(w.log, tenantId), k);
        }
      }
    }
  }

  lemma {:induction false} SerialRun(lib: Lib, acts: seq<Action>)
    requires IsRun(lib, acts) && NoOverlap(lib, acts)
    ensures Inv(Run(lib, acts)) && SerialInv(Run(lib, acts))
  {
    RunKeepsInv(lib, acts);
    if acts != [] {
      var n := |acts| - 1;
      RunPrefix(lib, acts, n);
      SerialRun(lib, acts[..n]);
      SerialStep(lib, Run(lib, acts[..n]), acts[n]);
    }
  }

  /**
   However appends of different tenants interleave, if those of one tenant never overlap then every
   tenant's events form one chain from "" to its head, and every verification finds its window valid.
   */
  lemma SerialTenantsVerify(lib: Lib, acts: seq<Action>, tenantId: string, limit: int)
    requires IsRun(lib, acts) && NoOverlap(lib, acts)
    ensures var chain := Chain(Run(lib, acts).log, tenantId);
      && Linked(chain, |chain|)
      && Verdict(Window(Run(lib, acts).log, tenantId, limit)) ==
         Verification(true, Min(if limit <= 0 then 1000 else limit, |chain|), "")
  {
    SerialRun(lib, acts);
    var w := Run(lib, acts);
    var chain := Chain(w.log, tenantId);
    assert ChainTrue(w, tenantId) && SerialChain(w, tenantId);
    forall k: nat | k < |chain| ensures chain[k].previousHash == HashAt(chain, k) {
      assert LinksToRead(w, chain, k) && ReadCurrent(w, chain, k);
    }
    var rows := Window(w.log, tenantId, limit);
    VerdictExact(rows, Verification(true, |rows|, ""), 0);
  }

  /** Two appends that read the same state of a tenant's chain and both insert are detected at or before the later. */
  lemma OverlapIsDetected(lib: Lib, acts: seq<Action>, tenantId: string, i: nat, j: nat, limit: int)
    requires IsRun(lib, acts)
    requires var chain := Chain(Run(lib, acts).log, tenantId);
      && DistinctDigests(chain)
      && i < j < |chain| && j < (if limit <= 0 then 1000 else limit)
      && chain[i].seqNo in Run(lib, acts).readAt && chain[j].seqNo in Run(lib, acts).readAt
      && Run(lib, acts).readAt[chain[i].seqNo] == Run(lib, acts).readAt[chain[j].seqNo]
    ensures var v := Verdict(Window(Run(lib, acts).log, tenantId, limit)); !v.valid && v.checked <= j
  {
    RunKeepsInv(lib, acts);
    var w := Run(lib, acts);
    var chain := Chain(w.log, tenantId);
    assert ChainTrue(w, tenantId);
    assert LinksToRead(w, chain, i) && LinksToRead(w, chain, j);
    ForkIsDetected(Window(w.log, tenantId, limit), i, j);
  }

  /**
   Such a run: two appends of one tenant read the empty chain, both insert, and both events link to "". The
   chain then fails at the second of them, unless the first one's digest happens to be empty.
   */
  lemma OverlapForks(lib: Lib, p: AppendParams, q: AppendParams, id1: string, id2: string, t1: int, t2: int)
    requires p.tenantId == q.tenantId
    ensures var acts := [ReadHead(1, p), ReadHead(2, q), Insert(1, 1, id1, t1), Insert(2, 2, id2, t2)];
            var chain := Chain(Run(lib, acts).log, p.tenantId);
      && IsRun(lib, acts)
      && |chain| == 2 && chain[0].previousHash == chain[1].previousHash == ""
      && (if ComputeHash(lib, "", p, t1) == "" then Linked(chain, 2) else Verdict(chain) == Verification(false, 1, id2))
  {
    var acts := [ReadHead(1, p), ReadHead(2, q), Insert(1, 1, id1, t1), Insert(2, 2, id2, t2)];
    RunSteps(lib, acts);
    var e1, e2 := NewEvent(lib, 1, id1, "", p, t1), NewEvent(lib, 2, id2, "", q, t2);
    var x1, x2 := Pending(p, "", 0), Pending(q, "", 0);
    assert Chain([], p.tenantId) == [] && Head([], p.tenantId) == "";
    var w1, w2 := Run(lib, acts[..1]), Run(lib, acts[..2]);
    assert w1 == World([], map[], map[1 := x1]);
    assert w2 == World([], map[], map[1 := x1, 2 := x2]);
    var w3, w4 := Run(lib, acts[..3]), Run(lib, acts[..4]);
    assert w3 == World([e1], map[1 := 0], map[2 := x2]);
    assert w4.log == [e1, e2];
    forall i | 0 <= i < |acts| ensures Enabled(Run(lib, acts[..i]), acts[i]) {
      assert i == 0 || i == 1 || i == 2 || i == 3;
    }
    ForkedPair(lib, e1, e2);
  }

  lemma ForkedPair(lib: Lib, e1: AuditEvent, e2: AuditEvent)
    requires e1.tenantId == e2.tenantId && e1.previousHash == e2.previousHash == ""
    ensures Chain([e1, e2], e1.tenantId) == [e1, e2]
    ensures if e1.hash == "" then Linked([e1, e2], 2) else Verdict([e1, e2]) == Verification(false, 1, e2.id)
  {
    ChainAppend([], e1, e1.tenantId);
    ChainAppend([e1], e2, e1.tenantId);
    assert [] + [e1] == [e1] && [e1] + [e2] == [e1, e2];
    if e1.hash != "" {
      VerdictExact([e1, e2], Verification(false, 1, e2.id), 0);
    }
  }

  lemma RunSteps(lib: Lib, acts: seq<Action>)
    ensures forall i :: 0 <= i < |acts| ==> Run(lib, acts[..i + 1]) == Step(lib, Run(lib, acts[..i]), acts[i])
    ensures Run(lib, acts[..0]) == START && acts[..|acts|] == acts
  {
    forall i | 0 <= i < |acts| ensures Run(lib, acts[..i + 1]) == Step(lib, Run(lib, acts[..i]), acts[i]) {
      assert acts[..i + 1][..i] == acts[..i];
    }
  }
}
