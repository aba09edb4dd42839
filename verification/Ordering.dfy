/** Rows arranged by a key: `ORDER BY` over rows whose order is recorded in that key alone. */
module Ordering {
  ghost predicate SortedBy<T(!new)>(s: seq<T>, key: T -> int) {
    forall i, j :: 0 <= i < j < |s| ==> key(s[i]) <= key(s[j])
  }

  /** `s` is an answer the database may give to listing `rows` ordered by `key`; ties may come in any order. */
  ghost predicate Arranges<T(!new)>(s: seq<T>, rows: seq<T>, key: T -> int) {
    SortedBy(s, key) && multiset(s) == multiset(rows)
  }

  function InsertBy<T>(s: seq<T>, x: T, key: T -> int): (r: seq<T>)
    ensures multiset(r) == multiset(s) + multiset{x}
  {
    if s == [] then [x]
    else if key(x) < key(s[0]) then [x] + s
    else
      assert s == [s[0]] + s[1..];
      [s[0]] + InsertBy(s[1..], x, key)
  }

  lemma SortedTail<T(!new)>(s: seq<T>, key: T -> int)
    requires SortedBy(s, key) && s != []
    ensures SortedBy(s[1..], key) && forall y :: y in s[1..] ==> key(s[0]) <= key(y)
  {
    var rest := s[1..];
    forall y | y in rest ensures key(s[0]) <= key(y) {
      var i :| 0 <= i < |rest| && rest[i] == y;
      assert s[i + 1] == y;
    }
    forall i, j | 0 <= i < j < |rest| ensures key(rest[i]) <= key(rest[j]) {
      assert key(s[i + 1]) <= key(s[j + 1]);
    }
  }

  lemma SortedCons<T(!new)>(x: T, s: seq<T>, key: T -> int)
    requires SortedBy(s, key) && forall y :: y in s ==> key(x) <= key(y)
    ensures SortedBy([x] + s, key)
  {
    var all := [x] + s;
    forall i, j | 0 <= i < j < |all| ensures key(all[i]) <= key(all[j]) {
      assert all[j] == s[j - 1] && (i > 0 ==> all[i] == s[i - 1]);
    }
  }

  lemma SameMembers<T(!new)>(s: seq<T>, rows: seq<T>)
    requires multiset(s) == multiset(rows)
    ensures forall x :: x in s <==> x in rows
    ensures |s| == |rows|
  {
    forall x ensures x in s <==> x in rows {
      assert x in multiset(s) <==> x in s;
      assert x in multiset(rows) <==> x in rows;
    }
    assert |multiset(s)| == |s| && |multiset(rows)| == |rows|;
  }

  lemma SameEmpty<T(!new)>(s: seq<T>, rows: seq<T>)
    requires multiset(s) == multiset(rows)
    ensures s == [] <==> rows == []
  {
    assert |multiset(s)| == |s| && |multiset(rows)| == |rows|;
  }

  /** In rows with distinct ids, an id belongs to one row. */
  lemma SameId<T(!new)>(rows: seq<T>, id: T -> string, x: T, y: T)
    requires DistinctBy(rows, id) && x in rows && y in rows && id(x) == id(y)
    ensures x == y
  {
    var i :| 0 <= i < |rows| && rows[i] == x;
    var j :| 0 <= j < |rows| && rows[j] == y;
    assert id(rows[i]) == id(rows[j]);
  }

  lemma {:induction false} InsertSorts<T(!new)>(s: seq<T>, x: T, key: T -> int)
    requires SortedBy(s, key)
    ensures SortedBy(InsertBy(s, x, key), key)
  {
    if s != [] {
      assert s == [s[0]] + s[1..];
      SortedTail(s, key);
      if key(x) < key(s[0]) {
        SortedCons(x, s, key);
      } else {
        InsertSorts(s[1..], x, key);
        var rest := InsertBy(s[1..], x, key);
        SameMembers(rest, s[1..] + [x]);
        SortedCons(s[0], rest, key);
      }
    }
  }

  /** Some arrangement exists. */
  function Sort<T>(rows: seq<T>, key: T -> int): (s: seq<T>) {
    if rows == [] then [] else InsertBy(Sort(rows[..|rows| - 1], key), rows[|rows| - 1], key)
  }

  lemma {:induction false} SortArranges<T(!new)>(rows: seq<T>, key: T -> int)
    ensures Arranges(Sort(rows, key), rows, key)
  {
    if rows != [] {
      var n := |rows| - 1;
      SortArranges(rows[..n], key);
      InsertSorts(Sort(rows[..n], key), rows[n], key);
      assert rows == rows[..n] + [rows[n]];
    }
  }

  ghost predicate DistinctBy<T(!new)>(s: seq<T>, id: T -> string) {
    forall i, j :: 0 <= i < j < |s| ==> id(s[i]) != id(s[j])
  }

  lemma DistinctOnce<T(!new)>(s: seq<T>, id: T -> string, k: nat)
    requires DistinctBy(s, id) && k < |s|
    ensures multiset(s)[s[k]] == 1
  {
    assert s == s[..k] + [s[k]] + s[k + 1..];
    assert s[k] !in s[..k] && s[k] !in s[k + 1..];
  }

  lemma TwiceCounts<T(!new)>(s: seq<T>, i: nat, j: nat)
    requires i < j < |s| && s[i] == s[j]
    ensures multiset(s)[s[i]] >= 2
  {
    assert s == s[..j] + s[j..];
    assert s[..j][i] == s[i] && s[j..][0] == s[i];
  }

  /** Rows with distinct ids still have distinct ids in any other order. */
  lemma ArrangedDistinct<T(!new)>(s: seq<T>, rows: seq<T>, id: T -> string)
    requires multiset(s) == multiset(rows) && DistinctBy(rows, id)
    ensures DistinctBy(s, id)
  {
    SameMembers(s, rows);
    forall i, j | 0 <= i < j < |s| ensures id(s[i]) != id(s[j]) {
      assert s[i] in rows && s[j] in rows;
      var k :| 0 <= k < |rows| && rows[k] == s[i];
      var l :| 0 <= l < |rows| && rows[l] == s[j];
      if k == l {
        TwiceCounts(s, i, j);
        DistinctOnce(rows, id, k);
      }
    }
  }

  // ---------------------------------------------------------------- commit order and stored order

  /** Each row's key is above those of all rows before it, except that equal rows may share one. */
  ghost predicate Increasing<T(!new)>(log: seq<T>, key: T -> int) {
    forall i, j :: 0 <= i < j < |log| ==> key(log[i]) < key(log[j]) || log[i] == log[j]
  }

  lemma SameHead<T(!new)>(s: seq<T>, log: seq<T>, key: T -> int)
    requires Arranges(s, log, key) && Increasing(log, key) && log != []
    ensures s != [] && s[0] == log[0]
  {
    SameMembers(s, log);
    assert s[0] in log && log[0] in s;
    var k :| 0 <= k < |log| && log[k] == s[0];
    var l :| 0 <= l < |s| && s[l] == log[0];
    assert key(s[0]) <= key(s[l]);
  }

  lemma TailRows<T(!new)>(s: seq<T>)
    requires s != []
    ensures multiset(s[1..]) == multiset(s) - multiset{s[0]}
  {
    assert s == [s[0]] + s[1..];
  }

  lemma InitRows<T(!new)>(s: seq<T>)
    requires s != []
    ensures multiset(s[..|s| - 1]) == multiset(s) - multiset{s[|s| - 1]}
  {
    assert s == s[..|s| - 1] + [s[|s| - 1]];
  }

  lemma SameInit<T(!new)>(s: seq<T>, rows: seq<T>)
    requires multiset(s) == multiset(rows) && s != [] && rows != [] && s[|s| - 1] == rows[|rows| - 1]
    ensures multiset(s[..|s| - 1]) == multiset(rows[..|rows| - 1])
  {
    InitRows(s);
    InitRows(rows);
  }

  lemma TailArranges<T(!new)>(s: seq<T>, log: seq<T>, key: T -> int)
    requires Arranges(s, log, key) && s != [] && log != [] && s[0] == log[0]
    ensures Arranges(s[1..], log[1..], key)
  {
    TailRows(s);
    TailRows(log);
    SortedTail(s, key);
  }

  lemma {:induction false} IncreasingIsOnlyOrder<T(!new)>(s: seq<T>, log: seq<T>, key: T -> int)
    requires Arranges(s, log, key) && Increasing(log, key)
    ensures s == log
  {
    SameMembers(s, log);
    if log != [] {
      SameHead(s, log, key);
      TailArranges(s, log, key);
      forall i, j | 0 <= i < j < |log[1..]| ensures key(log[1..][i]) < key(log[1..][j]) || log[1..][i] == log[1..][j] {
        assert log[1..][i] == log[i + 1] && log[1..][j] == log[j + 1];
      }
      IncreasingIsOnlyOrder(s[1..], log[1..], key);
      assert s == [s[0]] + s[1..] && log == [log[0]] + log[1..];
    }
  }

  /** Two different rows with one key can be listed the other way round. */
  lemma SwapTied<T(!new)>(log: seq<T>, key: T -> int, i: nat, j: nat)
    requires SortedBy(log, key) && i < j < |log| && key(log[i]) == key(log[j])
    ensures Arranges(log[i := log[j]][j := log[i]], log, key)
  {
    var s := log[i := log[j]][j := log[i]];
    forall k | 0 <= k < |s| ensures key(s[k]) == key(log[k]) {}
  }

  /** Listing by the key gives back the log's own order, whatever happens to ties, exactly if the log is increasing. */
  lemma OnlyOrderExactly<T(!new)>(log: seq<T>, key: T -> int)
    ensures (forall s :: Arranges(s, log, key) ==> s == log) <==> Increasing(log, key)
  {
    if Increasing(log, key) {
      forall s | Arranges(s, log, key) ensures s == log {
        IncreasingIsOnlyOrder(s, log, key);
      }
    } else {
      SortArranges(log, key);
      var i, j :| 0 <= i < j < |log| && !(key(log[i]) < key(log[j]) || log[i] == log[j]);
      if SortedBy(log, key) {
        SwapTied(log, key, i, j);
        assert log[i := log[j]][j := log[i]][i] == log[j];
      } else {
        assert Sort(log, key) != log;
      }
    }
  }

  /** No row's key is above that of `x`. */
  ghost predicate Latest<T(!new)>(x: T, rows: seq<T>, key: T -> int) {
    x in rows && forall y :: y in rows ==> key(y) <= key(x)
  }

  lemma LastIsLatest<T(!new)>(s: seq<T>, rows: seq<T>, key: T -> int)
    requires Arranges(s, rows, key) && s != []
    ensures Latest(s[|s| - 1], rows, key)
  {
    SameMembers(s, rows);
    forall y | y in rows ensures key(y) <= key(s[|s| - 1]) {
      assert y in s;
      var i :| 0 <= i < |s| && s[i] == y;
    }
  }

  /** Each latest row comes last in some arrangement. */
  lemma LatestCanBeLast<T(!new)>(x: T, rows: seq<T>, key: T -> int) returns (s: seq<T>)
    requires Latest(x, rows, key)
    ensures Arranges(s, rows, key) && s != [] && s[|s| - 1] == x
  {
    var k :| 0 <= k < |rows| && rows[k] == x;
    var others := rows[..k] + rows[k + 1..];
    assert rows == rows[..k] + [x] + rows[k + 1..];
    var init := Sort(others, key);
    SortArranges(others, key);
    SameMembers(init, others);
    s := init + [x];
    forall i, j | 0 <= i < j < |s| ensures key(s[i]) <= key(s[j]) {
      if j == |init| {
        assert init[i] in others;
      }
    }
  }
}
