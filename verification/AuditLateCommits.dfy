/**
 Following page tokens while appends commit late. A sequence number is drawn at the insert and becomes
 visible at the commit, so a row can appear among rows already read. This says when paging still works.
 */
module AuditLateCommits {
  import opened Common
  import Decimal
  import opened AuditChain
  import opened AuditPaging

  // ---------------------------------------------------------------- what a reader sees

  /** The rows inserted so far in seq order, and the sequence numbers of those that have committed. */
  datatype Table = Table(drawn: seq<AuditEvent>, committed: set<int>)

  function Visible(t: Table): seq<AuditEvent> {
    Filter(t.drawn, (e: AuditEvent) => e.seqNo in t.committed)
  }

  /** Between two requests rows are drawn, with larger numbers than any before, and commit, in any order. */
  ghost predicate Later(t: Table, t': Table) {
    t.drawn <= t'.drawn && t.committed <= t'.committed && SeqOrdered(t'.drawn)
  }

  ghost predicate Subset(a: seq<AuditEvent>, b: seq<AuditEvent>) {
    forall e :: e in a ==> e in b
  }

  /** Rows become visible and stay so, wherever their numbers place them. */
  ghost predicate Committing(logs: seq<seq<AuditEvent>>) {
    && (forall i :: 0 <= i < |logs| ==> SeqOrdered(logs[i]))
    && (forall i :: 0 < i < |logs| ==> Subset(logs[i - 1], logs[i]))
  }

  function VisibleLogs(ts: seq<Table>): (logs: seq<seq<AuditEvent>>)
    ensures |logs| == |ts| && forall i :: 0 <= i < |ts| ==> logs[i] == Visible(ts[i])
  {
    if ts == [] then [] else [Visible(ts[0])] + VisibleLogs(ts[1..])
  }

  lemma {:induction false} FilterOrdered(log: seq<AuditEvent>, p: AuditEvent -> bool)
    requires SeqOrdered(log)
    ensures SeqOrdered(Filter(log, p))
  {
    if log != [] {
      var init, e := log[..|log| - 1], log[|log| - 1];
      FilterOrdered(init, p);
      FilterMembers(init, p);
      forall i | 0 <= i < |Filter(init, p)| ensures Filter(init, p)[i].seqNo < e.seqNo {
        assert Filter(init, p)[i] in init;
      }
    }
  }

  lemma VisibleOrdered(t: Table)
    requires SeqOrdered(t.drawn)
    ensures SeqOrdered(Visible(t))
  {
    FilterOrdered(t.drawn, (e: AuditEvent) => e.seqNo in t.committed);
  }

  lemma LaterShowsMore(t: Table, t': Table)
    requires Later(t, t')
    ensures Subset(Visible(t), Visible(t'))
  {
    FilterMembers(t.drawn, (e: AuditEvent) => e.seqNo in t.committed);
    FilterMembers(t'.drawn, (e: AuditEvent) => e.seqNo in t'.committed);
    forall e | e in t.drawn ensures e in t'.drawn {
      var i :| 0 <= i < |t.drawn| && t.drawn[i] == e;
      assert t'.drawn[i] == e;
    }
  }

  /** However draws and commits interleave, the logs the requests meet only gain rows. */
  lemma HistoriesCommit(ts: seq<Table>)
    requires forall i :: 0 <= i < |ts| ==> SeqOrdered(ts[i].drawn)
    requires forall i :: 0 < i < |ts| ==> Later(ts[i - 1], ts[i])
    ensures Committing(VisibleLogs(ts))
  {
    var logs := VisibleLogs(ts);
    forall i | 0 <= i < |ts| ensures SeqOrdered(logs[i]) {
      VisibleOrdered(ts[i]);
    }
    forall i | 0 < i < |ts| ensures Subset(logs[i - 1], logs[i]) {
      LaterShowsMore(ts[i - 1], ts[i]);
    }
  }

  // ---------------------------------------------------------------- positions among ordered rows

  lemma EarlierIndex(c: seq<AuditEvent>, i: nat, j: nat)
    requires SeqOrdered(c) && i < |c| && j < |c| && c[i].seqNo < c[j].seqNo
    ensures i < j
  {}

  lemma {:induction false} RankAtLeast(a: seq<AuditEvent>, c: seq<AuditEvent>, i: nat, p: nat)
    requires SeqOrdered(a) && SeqOrdered(c) && Subset(a, c)
    requires i < |a| && p < |c| && a[i] == c[p]
    ensures i <= p
  {
    if i > 0 {
      assert a[i - 1] in c;
      var r: nat :| r < |c| && c[r] == a[i - 1];
      RankAtLeast(a, c, i - 1, r);
      EarlierIndex(c, r, p);
    }
  }

  /** A row that keeps its position keeps everything before it. */
  lemma {:induction false} SamePrefix(a: seq<AuditEvent>, c: seq<AuditEvent>, j: nat)
    requires SeqOrdered(a) && SeqOrdered(c) && Subset(a, c)
    requires j < |a| && j < |c| && a[j] == c[j]
    ensures a[..j + 1] == c[..j + 1]
  {
    if j > 0 {
      assert a[j - 1] in c;
      var p: nat :| p < |c| && c[p] == a[j - 1];
      RankAtLeast(a, c, j - 1, p);
      EarlierIndex(c, p, j);
      SamePrefix(a, c, j - 1);
    }
    assert a[..j + 1] == a[..j] + [a[j]] && c[..j + 1] == c[..j] + [c[j]];
  }

  /** A row at one position before and after is there in between. */
  lemma Between(a: seq<AuditEvent>, b: seq<AuditEvent>, c: seq<AuditEvent>, j: nat)
    requires SeqOrdered(a) && SeqOrdered(b) && SeqOrdered(c) && Subset(a, b) && Subset(b, c)
    requires j < |a| && j < |c| && a[j] == c[j]
    ensures j < |b| && b[j] == a[j]
  {
    assert a[j] in b;
    var p: nat :| p < |b| && b[p] == a[j];
    RankAtLeast(a, b, j, p);
    RankAtLeast(b, c, p, j);
  }

  lemma {:induction false} FewerRows(a: seq<AuditEvent>, b: seq<AuditEvent>)
    requires SeqOrdered(a) && SeqOrdered(b) && Subset(a, b)
    ensures |a| <= |b|
  {
    if a != [] {
      assert a[|a| - 1] in b;
      var p: nat :| p < |b| && b[p] == a[|a| - 1];
      RankAtLeast(a, b, |a| - 1, p);
    }
  }

  // ---------------------------------------------------------------- the exact condition

  /** No match with a smaller number than the last of the first n matches has become visible. */
  ghost predicate NoLateMatch(m: seq<AuditEvent>, m': seq<AuditEvent>, n: nat)
    requires 0 < n <= |m|
  {
    forall e :: e in m' && e.seqNo < m[n - 1].seqNo ==> e in m
  }

  /** That is: the first n matches are still the first n. */
  lemma NoLateMatchExactly(m: seq<AuditEvent>, m': seq<AuditEvent>, n: nat)
    requires SeqOrdered(m) && SeqOrdered(m') && Subset(m, m') && 0 < n <= |m|
    ensures NoLateMatch(m, m', n) <==> m[..n] <= m'
  {
    var e := m[n - 1];
    assert e in m';
    var p: nat :| p < |m'| && m'[p] == e;
    RankAtLeast(m, m', n - 1, p);
    if NoLateMatch(m, m', n) {
      if n - 1 < p {
        EarlierStay(m, m', n, p);
      }
      SamePrefix(m, m', n - 1);
    }
    if m[..n] <= m' {
      forall x | x in m' && x.seqNo < e.seqNo ensures x in m {
        var r: nat :| r < |m'| && m'[r] == x;
        assert m'[n - 1] == m[..n][n - 1];
        assert r < n - 1;
        assert m[r] == m[..n][r] == m'[r];
      }
    }
  }

  /** With nothing late, the rows before position p of `m'` are among the first n - 1 of `m`. */
  lemma EarlierStay(m: seq<AuditEvent>, m': seq<AuditEvent>, n: nat, p: nat)
    requires SeqOrdered(m) && SeqOrdered(m') && 0 < n <= |m| && p < |m'| && m'[p] == m[n - 1]
    requires NoLateMatch(m, m', n)
    ensures p <= n - 1
  {
    var before, first := m'[..p], m[..n - 1];
    forall x | x in before ensures x in first {
      var i :| 0 <= i < p && m'[i] == x;
      assert x in m' && x.seqNo < m'[p].seqNo;
      var j: nat :| j < |m| && m[j] == x;
      EarlierIndex(m, j, n - 1);
      assert first[j] == x;
    }
    FewerRows(before, first);
  }

  /** Between each two requests of a session no match below the last row read becomes visible. */
  ghost predicate Undisturbed(logs: seq<seq<AuditEvent>>, q: Query)
    requires logs != [] ==> OffsetOf(q) <= |Matches(logs[0], q)|
    requires Committing(logs)
    decreases |logs|
  {
    if |logs| <= 1 || PageOf(logs[0], q).nextToken == "" then true
    else
      var q' := q.(pageToken := PageOf(logs[0], q).nextToken);
      NextRequest(logs, q);
      NoLateMatch(Matches(logs[0], q), Matches(logs[1], q), OffsetOf(q')) && Undisturbed(logs[1..], q')
  }

  lemma MatchesFacts(logs: seq<seq<AuditEvent>>, q: Query, i: nat)
    requires Committing(logs) && i < |logs|
    ensures SeqOrdered(Matches(logs[i], q))
    ensures i > 0 ==> Subset(Matches(logs[i - 1], q), Matches(logs[i], q))
  {
    FilterOrdered(logs[i], (e: AuditEvent) => Selects(q, e));
    FilterMembers(logs[i], (e: AuditEvent) => Selects(q, e));
    if i > 0 {
      assert Subset(logs[i - 1], logs[i]);
      FilterMembers(logs[i - 1], (e: AuditEvent) => Selects(q, e));
    }
  }

  lemma {:induction false} MatchesGrow(logs: seq<seq<AuditEvent>>, q: Query, i: nat, j: nat)
    requires Committing(logs) && i <= j < |logs|
    ensures Subset(Matches(logs[i], q), Matches(logs[j], q))
  {
    if i < j {
      MatchesGrow(logs, q, i, j - 1);
      MatchesFacts(logs, q, j);
    }
  }

  /** The next request of a session starts after the page just read, within the matches it meets. */
  lemma NextRequest(logs: seq<seq<AuditEvent>>, q: Query)
    requires Committing(logs) && |logs| > 1 && PageOf(logs[0], q).nextToken != ""
    ensures var q' := q.(pageToken := PageOf(logs[0], q).nextToken);
      && 0 < OffsetOf(q') == OffsetOf(q) + PageSizeOf(q) <= |Matches(logs[0], q)|
      && (forall log :: Matches(log, q') == Matches(log, q))
      && OffsetOf(q') <= |Matches(logs[1], q')|
      && Committing(logs[1..])
  {
    var q' := q.(pageToken := PageOf(logs[0], q).nextToken);
    TokenRoundTrip(logs[0], q);
    forall log ensures Matches(log, q') == Matches(log, q) {
      MatchesIgnoresPaging(log, q, q');
    }
    MatchesFacts(logs, q, 0);
    MatchesFacts(logs, q, 1);
    FewerRows(Matches(logs[0], q), Matches(logs[1], q));
    forall i | 0 < i < |logs[1..]| ensures Subset(logs[1..][i - 1], logs[1..][i]) {
      assert Subset(logs[i], logs[i + 1]);
    }
  }

  /** The matches in the log the session's last request met. */
  function LastMatches(logs: seq<seq<AuditEvent>>, q: Query): seq<AuditEvent>
    requires 1 <= |Session(logs, q)| <= |logs|
  {
    Matches(logs[|Session(logs, q)| - 1], q)
  }

  lemma {:induction false} SessionLength(logs: seq<seq<AuditEvent>>, q: Query)
    requires logs != []
    ensures 1 <= |Session(logs, q)| <= |logs|
  {
    if |logs| > 1 && PageOf(logs[0], q).nextToken != "" {
      SessionLength(logs[1..], q.(pageToken := PageOf(logs[0], q).nextToken));
    }
  }

  /** One page more: what the session of the remaining requests says of the whole. */
  lemma PageThenRest(m: seq<AuditEvent>, m': seq<AuditEvent>, last: seq<AuditEvent>, rest: seq<AuditEvent>,
                     lo: nat, hi: nat)
    requires SeqOrdered(m) && SeqOrdered(m') && SeqOrdered(last) && Subset(m, m') && Subset(m', last)
    requires lo < hi <= |m| && hi <= |m'| && hi <= |last|
    ensures NoLateMatch(m, m', hi) && m'[..hi] == last[..hi] && rest <= last[hi..] ==>
              m[..lo] == last[..lo] && m[lo..hi] + rest <= last[lo..]
    ensures m[lo..hi] + rest <= last[lo..] ==> NoLateMatch(m, m', hi) && rest <= last[hi..]
  {
    NoLateMatchExactly(m, m', hi);
    assert last[lo..] == last[lo..hi] + last[hi..];
    if NoLateMatch(m, m', hi) && m'[..hi] == last[..hi] && rest <= last[hi..] {
      assert m[..hi] == last[..hi];
      assert m[lo..hi] == m[..hi][lo..] && last[lo..hi] == last[..hi][lo..];
      assert m[..lo] == m[..hi][..lo] && last[..lo] == last[..hi][..lo];
    }
    if m[lo..hi] + rest <= last[lo..] {
      PrefixSplits(m[lo..hi], rest, last[lo..hi], last[hi..]);
      assert m[hi - 1] == m[lo..hi][hi - 1 - lo] == last[lo..hi][hi - 1 - lo];
      Between(m, m', last, hi - 1);
      SamePrefix(m, m', hi - 1);
    }
  }

  lemma PrefixSplits<T>(a: seq<T>, b: seq<T>, c: seq<T>, d: seq<T>)
    requires |a| == |c| && a + b <= c + d
    ensures a == c && b <= d
  {
    assert forall i :: 0 <= i < |a| ==> (a + b)[i] == a[i] && (c + d)[i] == c[i];
    assert forall i :: 0 <= i < |b| ==> (a + b)[|a| + i] == b[i] && (c + d)[|c| + i] == d[i];
  }

  /** What the session receives is a stretch of the last matches exactly if it was undisturbed. */
  ghost predicate IsExact(logs: seq<seq<AuditEvent>>, q: Query)
    requires logs != [] && Committing(logs) && OffsetOf(q) <= |Matches(logs[0], q)|
    requires 1 <= |Session(logs, q)| <= |logs|
  {
    var got, off, last := Concat(Session(logs, q)), OffsetOf(q), LastMatches(logs, q);
    && off <= |last|
    && (got <= last[off..] <==> Undisturbed(logs, q))
    && (Undisturbed(logs, q) ==> Matches(logs[0], q)[..off] == last[..off])
    && (Undisturbed(logs, q) && Session(logs, q)[|Session(logs, q)| - 1].nextToken == "" ==> got == last[off..])
  }

  /**
   The pages of a session are a stretch of the matches its last request met if and only if the session was
   undisturbed; then nothing before the stretch has moved either.
   */
  lemma {:induction false} SessionExactly(logs: seq<seq<AuditEvent>>, q: Query)
    requires logs != [] && Committing(logs) && OffsetOf(q) <= |Matches(logs[0], q)|
    ensures 1 <= |Session(logs, q)| <= |logs|
    ensures IsExact(logs, q)
    decreases |logs|
  {
    var p := PageOf(logs[0], q);
    SessionLength(logs, q);
    if p.nextToken == "" || |logs| == 1 {
      PageReads(logs[0], q);
      assert Session(logs, q) == [p];
      assert Concat([p]) == p.events + [] == p.events;
    } else {
      RestExactly(logs, q);
    }
  }

  /** How a session of more than one page falls into its first page and the rest. */
  lemma RestFacts(logs: seq<seq<AuditEvent>>, q: Query)
    requires |logs| > 1 && Committing(logs) && PageOf(logs[0], q).nextToken != ""
    requires OffsetOf(q) <= |Matches(logs[0], q)| && 1 <= |Session(logs, q)| <= |logs|
    ensures var q' := q.(pageToken := PageOf(logs[0], q).nextToken);
            var more, m := Session(logs[1..], q'), Matches(logs[0], q);
      && |Session(logs, q)| == |more| + 1 && 1 <= |more|
      && OffsetOf(q) < OffsetOf(q') <= |m|
      && Concat(Session(logs, q)) == m[OffsetOf(q)..OffsetOf(q')] + Concat(more)
      && Session(logs, q)[|more|] == more[|more| - 1]
      && LastMatches(logs, q) == LastMatches(logs[1..], q')
  {
    var p := PageOf(logs[0], q);
    var q' := q.(pageToken := p.nextToken);
    NextRequest(logs, q);
    SessionUnfolds(logs, q);
    SessionLength(logs[1..], q');
    PageReads(logs[0], q);
    var more := Session(logs[1..], q');
    assert ([p] + more)[1..] == more;
  }

  lemma LastOrdered(logs: seq<seq<AuditEvent>>, q: Query)
    requires |logs| > 1 && Committing(logs) && 1 < |Session(logs, q)| <= |logs|
    ensures SeqOrdered(Matches(logs[0], q)) && SeqOrdered(Matches(logs[1], q)) && SeqOrdered(LastMatches(logs, q))
    ensures Subset(Matches(logs[0], q), Matches(logs[1], q)) && Subset(Matches(logs[1], q), LastMatches(logs, q))
  {
    MatchesFacts(logs, q, 0);
    MatchesFacts(logs, q, 1);
    MatchesFacts(logs, q, |Session(logs, q)| - 1);
    MatchesGrow(logs, q, 1, |Session(logs, q)| - 1);
  }

  lemma {:induction false} RestExactly(logs: seq<seq<AuditEvent>>, q: Query)
    requires |logs| > 1 && Committing(logs) && PageOf(logs[0], q).nextToken != ""
    requires OffsetOf(q) <= |Matches(logs[0], q)| && 1 <= |Session(logs, q)| <= |logs|
    ensures IsExact(logs, q)
    decreases |logs|, 0
  {
    var q' := q.(pageToken := PageOf(logs[0], q).nextToken);
    NextRequest(logs, q);
    RestFacts(logs, q);
    SessionExactly(logs[1..], q');
    LastOrdered(logs, q);
    PageThenRest(Matches(logs[0], q), Matches(logs[1], q), LastMatches(logs, q), Concat(Session(logs[1..], q')),
                 OffsetOf(q), OffsetOf(q'));
  }

  /**
   From the start: the concatenated pages are a prefix of the final matches, with no gap or duplicate, if and
   only if between no two requests a match below the last row read became visible. Then, once the tokens
   end, they are all the matches the last request met, those visible at the start included.
   */
  lemma LateCommitsExactly(logs: seq<seq<AuditEvent>>, q: Query)
    requires logs != [] && Committing(logs) && q.pageToken == ""
    ensures var pages := Session(logs, q);
      && 1 <= |pages| <= |logs|
      && (Concat(pages) <= LastMatches(logs, q) <==> Undisturbed(logs, q))
      && (Undisturbed(logs, q) && pages[|pages| - 1].nextToken == "" ==>
            Concat(pages) == LastMatches(logs, q) && Subset(Matches(logs[0], q), Concat(pages)))
  {
    assert OffsetOf(q) == 0;
    SessionExactly(logs, q);
    var last := LastMatches(logs, q);
    assert last[0..] == last;
    MatchesGrow(logs, q, 0, |Session(logs, q)| - 1);
  }

  /** And it does go wrong: a row that commits after a larger one was read is skipped, and that one is read again. */
  lemma LateCommitRepeats(logs: seq<seq<AuditEvent>>, e1: AuditEvent, e2: AuditEvent, q: Query)
    requires 1 <= e1.seqNo < e2.seqNo <= MAX_INT64 && Selects(q, e1) && Selects(q, e2)
    requires q.pageSize == 1 && q.pageToken == ""
    requires |logs| == 2 && logs[0] == [e2] && logs[1] == [e1, e2]
    ensures Concat(Session(logs, q)) == [e2, e2]
  {
    var q' := q.(pageToken := PageOf(logs[0], q).nextToken);
    FirstPage(logs[0], e2, q);
    SecondPage(logs[1], e1, e2, q');
    TwoPages(logs, q, q');
  }

  lemma TwoPages(logs: seq<seq<AuditEvent>>, q: Query, q': Query)
    requires |logs| == 2 && PageOf(logs[0], q).nextToken != "" && q' == q.(pageToken := PageOf(logs[0], q).nextToken)
    ensures Concat(Session(logs, q)) == PageOf(logs[0], q).events + PageOf(logs[1], q').events
  {
    SessionUnfolds(logs, q);
    assert logs[1..] == [logs[1]];
    OnePage(logs[1], q');
    var p, more := PageOf(logs[0], q), Session([logs[1]], q');
    assert ([p] + more)[0] == p && ([p] + more)[1..] == more;
  }

  /** Those are the logs of a table whose first row commits after the second. */
  lemma LateCommitHistory(e1: AuditEvent, e2: AuditEvent)
    requires 1 <= e1.seqNo < e2.seqNo <= MAX_INT64
    ensures var t, t' := Table([e1, e2], {e2.seqNo}), Table([e1, e2], {e1.seqNo, e2.seqNo});
            Later(t, t') && Visible(t) == [e2] && Visible(t') == [e1, e2]
  {
    var t, t' := Table([e1, e2], {e2.seqNo}), Table([e1, e2], {e1.seqNo, e2.seqNo});
    VisibleTwo(e1, e2, t.committed);
    VisibleTwo(e1, e2, t'.committed);
  }

  lemma VisibleTwo(e1: AuditEvent, e2: AuditEvent, committed: set<int>)
    ensures Visible(Table([e1, e2], committed)) ==
            (if e1.seqNo in committed then [e1] else []) + (if e2.seqNo in committed then [e2] else [])
  {
    var p := (e: AuditEvent) => e.seqNo in committed;
    FilterAppend([e1], [e2], p);
    FilterOne(e1, p);
    FilterOne(e2, p);
    assert [e1] + [e2] == [e1, e2];
    assert Visible(Table([e1, e2], committed)) == Filter([e1, e2], p);
  }

  lemma FirstPage(log: seq<AuditEvent>, e: AuditEvent, q: Query)
    requires log == [e] && Selects(q, e) && 1 <= e.seqNo <= MAX_INT64 && q.pageSize == 1 && q.pageToken == ""
    ensures PageOf(log, q).events == [e]
    ensures PageOf(log, q).nextToken != "" && OffsetOf(q.(pageToken := PageOf(log, q).nextToken)) == 1
  {
    MatchesAppend([], e, q);
    var none: seq<AuditEvent> := [];
    assert none + [e] == log;
    var p := PageOf(log, q);
    assert p.events == [e] && p.nextToken == Decimal.Itoa(1);
    Decimal.AtoiItoa(1);
  }

  lemma SecondPage(log: seq<AuditEvent>, e1: AuditEvent, e2: AuditEvent, q: Query)
    requires log == [e1, e2] && Selects(q, e1) && Selects(q, e2) && OffsetOf(q) == 1 && q.pageSize == 1
    ensures PageOf(log, q).events == [e2]
  {
    MatchesAppend([], e1, q);
    MatchesAppend([e1], e2, q);
    var none: seq<AuditEvent> := [];
    assert none + [e1] == [e1] && [e1] + [e2] == log;
    assert Matches(log, q) == [e1, e2];
  }

  lemma OnePage(log: seq<AuditEvent>, q: Query)
    ensures Concat(Session([log], q)) == PageOf(log, q).events
  {
    var p := PageOf(log, q);
    assert [log][1..] == [] && [p][1..] == [];
    assert Session([log], q) == [p];
    assert Concat([p]) == p.events + [];
  }
}
