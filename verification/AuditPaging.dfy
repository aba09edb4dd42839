/** `QueryAuditTrail`: filtered pages of the audit log, chained by decimal offset tokens. */
module AuditPaging {
  import opened Common
  import Decimal
  import opened AuditChain

  /** Empty strings and absent times do not filter. */
  datatype Query = Query(
    tenantId: string, actorId: string, resourceType: string, resourceId: string, action: string,
    fromTime: Option<int>, toTime: Option<int>, pageSize: int, pageToken: string)

  datatype Page = Page(events: seq<AuditEvent>, nextToken: string)

  predicate Selects(q: Query, e: AuditEvent) {
    && e.tenantId == q.tenantId
    && (q.actorId == "" || e.actorId == q.actorId)
    && (q.resourceType == "" || e.resourceType == q.resourceType)
    && (q.resourceId == "" || e.resourceId == q.resourceId)
    && (q.action == "" || e.action == q.action)
    && (q.fromTime.None? || q.fromTime.value <= e.occurredAt)
    && (q.toTime.None? || e.occurredAt <= q.toTime.value)
  }

  /** Every event the query selects, in seq order; the page size and token play no part. */
  function Matches(log: seq<AuditEvent>, q: Query): seq<AuditEvent> {
    Filter(log, (e: AuditEvent) => Selects(q, e))
  }

  function PageSizeOf(q: Query): (n: nat)
    ensures 1 <= n <= 500
  {
    if q.pageSize <= 0 then 50 else Min(q.pageSize, 500)
  }

  /** A token that is not a positive decimal starts from the beginning. */
  function OffsetOf(q: Query): nat {
    var off := Decimal.Atoi(q.pageToken);
    if off.Some? && off.value > 0 then off.value else 0
  }

  /** `LIMIT size OFFSET offset` over the matching rows. */
  function Slice(rows: seq<AuditEvent>, offset: nat, size: nat): seq<AuditEvent> {
    var lo := Min(offset, |rows|);
    rows[lo..Min(lo + size, |rows|)]
  }

  function PageOf(log: seq<AuditEvent>, q: Query): Page {
    var events := Slice(Matches(log, q), OffsetOf(q), PageSizeOf(q));
    Page(events, if |events| == PageSizeOf(q) then Decimal.Itoa(OffsetOf(q) + PageSizeOf(q)) else "")
  }

  class AuditService {
    const store: AuditStore

    constructor (store: AuditStore)
      ensures this.store == store
    {
      this.store := store;
    }

    /** Walks the table in seq order, skipping `offset` matches and collecting the next `pageSize`. */
    method QueryEvents(q: Query, pageSize: int, offset: nat) returns (rows: seq<AuditEvent>)
      ensures rows == Slice(Matches(store.events, q), offset, if pageSize <= 0 then 50 else pageSize)
    {
      var size: nat := if pageSize <= 0 then 50 else pageSize;
      rows := [];
      var i, seen := 0, 0;
      while i < |store.events|
        invariant 0 <= i <= |store.events|
        invariant seen == |Matches(store.events[..i], q)|
        invariant rows == Slice(Matches(store.events[..i], q), offset, size)
      {
        var e := store.events[i];
        assert store.events[..i + 1] == store.events[..i] + [e];
        MatchesAppend(store.events[..i], e, q);
        SliceAppend(Matches(store.events[..i], q), e, offset, size);
        if Selects(q, e) {
          if offset <= seen && |rows| < size { rows := rows + [e]; }
          seen := seen + 1;
        }
        i := i + 1;
      }
      assert store.events[..|store.events|] == store.events;
    }

    method QueryAuditTrail(query: Option<Query>) returns (result: Result<Page>)
      ensures result == if query.None? || query.value.tenantId == "" then Err(InvalidArgument)
                        else Ok(PageOf(store.events, query.value))
      ensures result.Ok? ==>
        forall e :: e in result.value.events ==> e in store.events && e.tenantId == query.value.tenantId
    {
      if query.Some? { PageIsSelected(store.events, query.value); }
      if query.None? || query.value.tenantId == "" { return Err(InvalidArgument); }
      var q := query.value;
      var pageSize, offset := ReadPaging(q);
      var events := QueryEvents(q, pageSize, offset);
      var nextToken := "";
      if |events| == pageSize { nextToken := Decimal.Itoa(offset + pageSize); }
      result := Ok(Page(events, nextToken));
    }

    /** The handler's reading of page size and token. */
    method ReadPaging(q: Query) returns (pageSize: nat, offset: nat)
      ensures pageSize == PageSizeOf(q) && offset == OffsetOf(q)
    {
      var size := q.pageSize;
      if size <= 0 { size := 50; }
      if size > 500 { size := 500; }
      offset := 0;
      if q.pageToken != "" {
        var off := Decimal.Atoi(q.pageToken);
        if off.Some? && off.value > 0 { offset := off.value; }
      }
      pageSize := size;
    }
  }

  lemma MatchesAppend(log: seq<AuditEvent>, e: AuditEvent, q: Query)
    ensures Matches(log + [e], q) == Matches(log, q) + if Selects(q, e) then [e] else []
  {
    var p := (x: AuditEvent) => Selects(q, x);
    FilterAppend(log, [e], p);
    FilterOne(e, p);
  }

  lemma SliceAppend(rows: seq<AuditEvent>, e: AuditEvent, offset: nat, size: nat)
    ensures Slice(rows + [e], offset, size) ==
            Slice(rows, offset, size) + if offset <= |rows| && |Slice(rows, offset, size)| < size then [e] else []
  {}

  // ---------------------------------------------------------------- what an answer holds

  /** The matches are the events of the tenant that equal each filter given and lie within the times given. */
  lemma MatchesExactly(log: seq<AuditEvent>, q: Query, e: AuditEvent)
    ensures e in Matches(log, q) <==>
      && e in log
      && e.tenantId == q.tenantId
      && (q.actorId != "" ==> e.actorId == q.actorId)
      && (q.resourceType != "" ==> e.resourceType == q.resourceType)
      && (q.resourceId != "" ==> e.resourceId == q.resourceId)
      && (q.action != "" ==> e.action == q.action)
      && (q.fromTime.Some? ==> e.occurredAt >= q.fromTime.value)
      && (q.toTime.Some? ==> e.occurredAt <= q.toTime.value)
  {
    FilterMembers(log, (x: AuditEvent) => Selects(q, x));
  }

  /** 50 events unless asked, as many as asked up to 500; from the start unless the token is a positive decimal. */
  lemma PagingExactly(q: Query)
    ensures PageSizeOf(q) == if q.pageSize <= 0 then 50 else if q.pageSize > 500 then 500 else q.pageSize
    ensures forall n: Int64 :: Decimal.Atoi(q.pageToken) == Some(n) && n > 0 ==> OffsetOf(q) == n
    ensures Decimal.Atoi(q.pageToken).None? || Decimal.Atoi(q.pageToken).value <= 0 ==> OffsetOf(q) == 0
  {}

  /** A page is as many matches from its offset on, and has a token to the next exactly if it is full. */
  lemma PageExactly(log: seq<AuditEvent>, q: Query)
    ensures var size, offset, p, m := PageSizeOf(q), OffsetOf(q), PageOf(log, q), Matches(log, q);
      && |p.events| == (if |m| <= offset then 0 else if |m| - offset < size then |m| - offset else size)
      && (forall i :: 0 <= i < |p.events| ==> p.events[i] == m[offset + i])
      && p.nextToken == if |p.events| == size then Decimal.Itoa(offset + size) else ""
  {}

  /** Every event of a page is of the query's tenant and meets its filters. */
  lemma PageIsSelected(log: seq<AuditEvent>, q: Query)
    ensures forall e :: e in PageOf(log, q).events ==>
      && e in log
      && e.tenantId == q.tenantId
      && (q.actorId != "" ==> e.actorId == q.actorId)
      && (q.resourceType != "" ==> e.resourceType == q.resourceType)
      && (q.resourceId != "" ==> e.resourceId == q.resourceId)
      && (q.action != "" ==> e.action == q.action)
      && (q.fromTime.Some? ==> e.occurredAt >= q.fromTime.value)
      && (q.toTime.Some? ==> e.occurredAt <= q.toTime.value)
  {
    forall e | e in PageOf(log, q).events ensures e in Matches(log, q) {
      var i :| 0 <= i < |PageOf(log, q).events| && PageOf(log, q).events[i] == e;
    }
    forall e | e in PageOf(log, q).events {
      MatchesExactly(log, q, e);
    }
  }

  /** Events of other tenants change no page. */
  lemma OtherTenantsUnseen(log: seq<AuditEvent>, e: AuditEvent, q: Query)
    requires e.tenantId != q.tenantId
    ensures PageOf(log + [e], q) == PageOf(log, q)
  {
    MatchesAppend(log, e, q);
    MatchesExactly([e], q, e);
    MatchesAppend([], e, q);
    var none: seq<AuditEvent> := [];
    assert none + [e] == [e];
  }

  // ---------------------------------------------------------------- following the tokens

  ghost predicate Extends(log: seq<AuditEvent>, log': seq<AuditEvent>) { log <= log' }

  /** The log only grows between requests. */
  ghost predicate Growing(logs: seq<seq<AuditEvent>>) {
    && (forall i :: 0 < i < |logs| ==> Extends(logs[i - 1], logs[i]))
    && (forall i :: 0 <= i < |logs| ==> SeqOrdered(logs[i]))
  }

  lemma GrowingTail(logs: seq<seq<AuditEvent>>)
    requires Growing(logs) && |logs| > 1
    ensures Growing(logs[1..]) && Extends(logs[0], logs[1]) && SeqOrdered(logs[0])
  {
    forall i | 0 < i < |logs[1..]| ensures Extends(logs[1..][i - 1], logs[1..][i]) {
      assert Extends(logs[i], logs[i + 1]);
    }
  }

  /** The pages a client gets by following the tokens, its k-th request meeting `logs[k]`. */
  function Session(logs: seq<seq<AuditEvent>>, q: Query): seq<Page> {
    if logs == [] then []
    else
      var p := PageOf(logs[0], q);
      [p] + if p.nextToken == "" then [] else Session(logs[1..], q.(pageToken := p.nextToken))
  }

  function Concat(pages: seq<Page>): seq<AuditEvent> {
    if pages == [] then [] else pages[0].events + Concat(pages[1..])
  }

  lemma MatchesIgnoresPaging(log: seq<AuditEvent>, q: Query, q': Query)
    requires q' == q.(pageToken := q'.pageToken)
    ensures Matches(log, q) == Matches(log, q')
  {
    FilterPointwise(log, (e: AuditEvent) => Selects(q, e), (e: AuditEvent) => Selects(q', e));
  }

  lemma {:induction false} FilterPointwise(log: seq<AuditEvent>, p: AuditEvent -> bool, p': AuditEvent -> bool)
    requires forall e :: p(e) == p'(e)
    ensures Filter(log, p) == Filter(log, p')
  {
    if log != [] {
      FilterPointwise(log[..|log| - 1], p, p');
    }
  }

  lemma MatchesPrefix(log: seq<AuditEvent>, log': seq<AuditEvent>, q: Query)
    requires Extends(log, log')
    ensures Matches(log, q) <= Matches(log', q)
  {
    assert log' == log + log'[|log|..];
    FilterAppend(log, log'[|log|..], (e: AuditEvent) => Selects(q, e));
  }

  /** A table with distinct int64 sequence numbers fits in an int64. */
  lemma {:induction false} LogFitsInt64(log: seq<AuditEvent>)
    requires SeqOrdered(log)
    ensures log != [] ==> |log| <= log[|log| - 1].seqNo
    ensures |log| <= MAX_INT64
  {
    if |log| > 1 {
      LogFitsInt64(log[..|log| - 1]);
    }
  }

  lemma TokenRoundTrip(log: seq<AuditEvent>, q: Query)
    requires SeqOrdered(log) && PageOf(log, q).nextToken != ""
    ensures var q' := q.(pageToken := PageOf(log, q).nextToken);
            OffsetOf(q') == OffsetOf(q) + PageSizeOf(q) <= |Matches(log, q)| && PageSizeOf(q') == PageSizeOf(q)
  {
    LogFitsInt64(log);
    Decimal.AtoiItoa(OffsetOf(q) + PageSizeOf(q));
  }

  /** `got` is what `log` holds for the query from `offset` on, up to some point; all of it if `done`. */
  ghost predicate Received(got: seq<AuditEvent>, log: seq<AuditEvent>, q: Query, offset: nat, done: bool) {
    offset <= |Matches(log, q)| && Leads(got, Matches(log, q)[offset..], done)
  }

  ghost predicate Leads(got: seq<AuditEvent>, rows: seq<AuditEvent>, done: bool) {
    got <= rows && (done ==> got == rows)
  }

  lemma LeadsJoin(first: seq<AuditEvent>, more: seq<AuditEvent>, m: seq<AuditEvent>, m': seq<AuditEvent>, offset: nat,
                  done: bool)
    requires offset <= |m| && m <= m' && first <= m[offset..]
    requires offset + |first| <= |m'| && Leads(more, m'[offset + |first|..], done)
    ensures Leads(first + more, m'[offset..], done)
  {
    assert m'[offset..] == first + m'[offset + |first|..];
  }

  lemma ReceivedJoin(first: seq<AuditEvent>, more: seq<AuditEvent>, log: seq<AuditEvent>, log': seq<AuditEvent>,
                     q: Query, offset: nat, done: bool)
    requires Extends(log, log')
    requires Received(first, log, q, offset, false) && Received(more, log', q, offset + |first|, done)
    ensures Received(first + more, log', q, offset, done)
  {
    MatchesPrefix(log, log', q);
    LeadsJoin(first, more, Matches(log, q), Matches(log', q), offset, done);
  }

  /** One page is the next stretch of the matches, and only the last one ends the session. */
  lemma PageReads(log: seq<AuditEvent>, q: Query)
    requires OffsetOf(q) <= |Matches(log, q)|
    ensures var p := PageOf(log, q);
      && Received(p.events, log, q, OffsetOf(q), p.nextToken == "")
      && (p.nextToken != "" ==> |p.events| == PageSizeOf(q))
      && (p.nextToken == "" ==> |Matches(log, q)| - OffsetOf(q) < PageSizeOf(q))
  {}

  /** A session starting at `OffsetOf(q)` receives the matches from there on, and all of them if it ends. */
  lemma {:induction false} SessionReads(logs: seq<seq<AuditEvent>>, q: Query)
    requires logs != [] && Growing(logs)
    requires OffsetOf(q) <= |Matches(logs[0], q)|
    ensures var pages := Session(logs, q);
      && 1 <= |pages| <= |logs|
      && Received(Concat(pages), logs[|pages| - 1], q, OffsetOf(q), pages[|pages| - 1].nextToken == "")
  {
    var p := PageOf(logs[0], q);
    PageReads(logs[0], q);
    if p.nextToken == "" || |logs| == 1 {
      assert Session(logs, q) == [p];
      assert Concat([p]) == p.events + [] == p.events;
    } else {
      var q' := q.(pageToken := p.nextToken);
      GrowingTail(logs);
      TokenRoundTrip(logs[0], q);
      MatchesPrefix(logs[0], logs[1], q);
      MatchesIgnoresPaging(logs[1], q, q');
      SessionReads(logs[1..], q');
      var more := Session(logs[1..], q');
      assert Session(logs, q) == [p] + more;
      SessionStep(logs, q, q', p, more, OffsetOf(q), more[|more| - 1].nextToken == "");
    }
  }

  /** What a later session receives extends what the first page brought. */
  lemma SessionStep(logs: seq<seq<AuditEvent>>, q: Query, q': Query, p: Page, more: seq<Page>, offset: nat, done: bool)
    requires Growing(logs) && |more| < |logs| && q' == q.(pageToken := q'.pageToken)
    requires Received(p.events, logs[0], q, offset, false)
    requires Received(Concat(more), logs[|more|], q', offset + |p.events|, done)
    ensures Received(Concat([p] + more), logs[|more|], q, offset, done)
  {
    GrowingPrefix(logs, |more|);
    MatchesIgnoresPaging(logs[|more|], q, q');
    ReceivedJoin(p.events, Concat(more), logs[0], logs[|more|], q, offset, done);
    assert ([p] + more)[1..] == more;
  }

  lemma {:induction false} GrowingPrefix(logs: seq<seq<AuditEvent>>, n: nat)
    requires Growing(logs) && n < |logs|
    ensures Extends(logs[0], logs[n])
  {
    if n > 0 {
      GrowingPrefix(logs, n - 1);
      assert Extends(logs[n - 1], logs[n]);
    }
  }

  /**
   Following the tokens from the start while events are appended: what has been received is a prefix
   of the final filtered list, with no gap or duplicate, and once the tokens end it contains every
   match the log held at the start.
   */
  lemma SessionIsCompletePrefix(logs: seq<seq<AuditEvent>>, q: Query)
    requires logs != [] && Growing(logs) && q.pageToken == ""
    ensures var pages := Session(logs, q);
      && Concat(pages) <= Matches(logs[|logs| - 1], q)
      && (forall i, j :: 0 <= i < j < |Concat(pages)| ==> Concat(pages)[i].seqNo < Concat(pages)[j].seqNo)
      && (pages != [] && pages[|pages| - 1].nextToken == "" ==> Matches(logs[0], q) <= Concat(pages))
  {
    SessionReads(logs, q);
    var pages := Session(logs, q);
    var last := |pages| - 1;
    GrowingPrefix(logs, last);
    GrowingPrefix(logs[last..], |logs| - 1 - last);
    MatchesPrefix(logs[0], logs[last], q);
    MatchesPrefix(logs[last], logs[|logs| - 1], q);
    MatchesOrdered(logs[|logs| - 1], q);
  }

  /** So an event the log held at the start is received if it is of the tenant and meets the query's filters. */
  lemma SessionReceives(logs: seq<seq<AuditEvent>>, q: Query, e: AuditEvent)
    requires logs != [] && Growing(logs) && q.pageToken == ""
    requires Session(logs, q) != [] && Session(logs, q)[|Session(logs, q)| - 1].nextToken == ""
    requires e in logs[0] && e.tenantId == q.tenantId
    requires q.actorId != "" ==> e.actorId == q.actorId
    requires q.resourceType != "" ==> e.resourceType == q.resourceType
    requires q.resourceId != "" ==> e.resourceId == q.resourceId
    requires q.action != "" ==> e.action == q.action
    requires q.fromTime.Some? ==> e.occurredAt >= q.fromTime.value
    requires q.toTime.Some? ==> e.occurredAt <= q.toTime.value
    ensures e in Concat(Session(logs, q))
  {
    SessionIsCompletePrefix(logs, q);
    MatchesExactly(logs[0], q, e);
    var m, got := Matches(logs[0], q), Concat(Session(logs, q));
    var i :| 0 <= i < |m| && m[i] == e;
    assert got[i] == e;
  }

  lemma {:induction false} MatchesOrdered(log: seq<AuditEvent>, q: Query)
    requires SeqOrdered(log)
    ensures forall i, j :: 0 <= i < j < |Matches(log, q)| ==> Matches(log, q)[i].seqNo < Matches(log, q)[j].seqNo
  {
    if log != [] {
      var init := log[..|log| - 1];
      MatchesOrdered(init, q);
      assert log == init + [log[|log| - 1]];
      MatchesAppend(init, log[|log| - 1], q);
      FilterMembers(init, (e: AuditEvent) => Selects(q, e));
      forall i | 0 <= i < |Matches(init, q)| ensures Matches(init, q)[i].seqNo < log[|log| - 1].seqNo {
        assert Matches(init, q)[i] in init;
      }
    }
  }

  /** The pages it takes to read `n` rows and the short page after them. */
  function PagesFor(n: nat, size: nat): (k: nat)
    requires size >= 1
    ensures k >= 1
  {
    if n < size then 1 else 1 + PagesFor(n - size, size)
  }

  lemma {:induction false} PagesForBounds(n: nat, size: nat)
    requires size >= 1
    ensures (PagesFor(n, size) - 1) * size <= n < PagesFor(n, size) * size
  {
    if n >= size {
      var k := PagesFor(n - size, size);
      PagesForBounds(n - size, size);
      assert PagesFor(n, size) == k + 1;
      assert (k + 1) * size == k * size + size && (k - 1) * size == k * size - size;
    }
  }

  lemma PagesForCount(n: nat, size: nat, k: nat)
    requires size >= 1 && n < k * size
    ensures PagesFor(n, size) == n / size + 1 <= k
  {
    PagesForBounds(n, size);
    DivBounds(n, size, PagesFor(n, size) - 1);
    if k < PagesFor(n, size) { MulMono(k, PagesFor(n, size) - 1, size); }
  }

  /** After a page with a token, the next request reads the same matches one page further on. */
  lemma FixedPage(log: seq<AuditEvent>, q: Query)
    requires SeqOrdered(log) && OffsetOf(q) <= |Matches(log, q)|
    ensures var p := PageOf(log, q);
            var q' := q.(pageToken := p.nextToken);
      if p.nextToken == "" then |Matches(log, q)| - OffsetOf(q) < PageSizeOf(q)
      else
        && PageSizeOf(q') == PageSizeOf(q)
        && Matches(log, q') == Matches(log, q)
        && OffsetOf(q') == OffsetOf(q) + PageSizeOf(q) <= |Matches(log, q)|
  {
    PageReads(log, q);
    if PageOf(log, q).nextToken != "" {
      TokenRoundTrip(log, q);
      MatchesIgnoresPaging(log, q, q.(pageToken := PageOf(log, q).nextToken));
    }
  }

  /** A session is its first page, followed by the session its token starts, if it has one. */
  lemma SessionUnfolds(logs: seq<seq<AuditEvent>>, q: Query)
    requires logs != []
    ensures var p := PageOf(logs[0], q);
            var more := if p.nextToken == "" then [] else Session(logs[1..], q.(pageToken := p.nextToken));
      && Session(logs, q) == [p] + more
      && (more == [] || Session(logs, q)[|more|] == more[|more| - 1])
  {}

  /** Enough requests, all meeting `log`, are left to read its last n matches. */
  ghost predicate FixedAt(logs: seq<seq<AuditEvent>>, log: seq<AuditEvent>, q: Query, n: nat) {
    && SeqOrdered(log) && (forall i :: 0 <= i < |logs| ==> logs[i] == log)
    && |Matches(log, q)| == OffsetOf(q) + n
    && PagesFor(n, PageSizeOf(q)) <= |logs|
  }

  lemma FixedStep(logs: seq<seq<AuditEvent>>, log: seq<AuditEvent>, q: Query, n: nat)
    requires FixedAt(logs, log, q, n)
    ensures logs != [] && logs[0] == log
    ensures var p, size := PageOf(log, q), PageSizeOf(q);
            var q' := q.(pageToken := p.nextToken);
      if p.nextToken == "" then PagesFor(n, size) == 1
      else
        && n >= size && PagesFor(n, size) == 1 + PagesFor(n - size, size)
        && PageSizeOf(q') == size
        && FixedAt(logs[1..], log, q', n - size)
  {
    FixedPage(log, q);
  }

  lemma {:induction false} FixedLogSession(logs: seq<seq<AuditEvent>>, log: seq<AuditEvent>, q: Query, n: nat)
    requires FixedAt(logs, log, q, n)
    ensures var pages := Session(logs, q);
            |pages| == PagesFor(n, PageSizeOf(q)) && pages[|pages| - 1].nextToken == ""
  {
    FixedStep(logs, log, q, n);
    SessionUnfolds(logs, q);
    var p := PageOf(log, q);
    if p.nextToken != "" {
      FixedLogSession(logs[1..], log, q.(pageToken := p.nextToken), n - PageSizeOf(q));
    }
  }

  /** On a log that does not change, n matches take exactly n / pageSize + 1 pages. */
  lemma FixedLogPages(logs: seq<seq<AuditEvent>>, log: seq<AuditEvent>, q: Query)
    requires SeqOrdered(log) && (forall i :: 0 <= i < |logs| ==> logs[i] == log) && q.pageToken == ""
    requires |Matches(log, q)| < |logs| * PageSizeOf(q)
    ensures var pages := Session(logs, q);
      && |pages| == |Matches(log, q)| / PageSizeOf(q) + 1
      && pages[|pages| - 1].nextToken == ""
  {
    assert OffsetOf(q) == 0;
    PagesForCount(|Matches(log, q)|, PageSizeOf(q), |logs|);
    FixedLogSession(logs, log, q, |Matches(log, q)|);
  }
}
