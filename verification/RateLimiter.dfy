/** The notification limiter: a Redis counter whose one-minute expiry every call refreshes. */
module RateLimiter {
  import opened Common

  // one minute, in milliseconds
  const WINDOW: int := 60_000

  /** A key: its count, and when it expires unless refreshed. */
  datatype Counter = Counter(count: int, expiresAt: int)

  /** `INCR` then `EXPIRE`: an expired or missing key starts again from 1. */
  function Bump(c: Option<Counter>, now: int): Counter {
    Counter(if c.Some? && now < c.value.expiresAt then c.value.count + 1 else 1, now + WINDOW)
  }

  function Key(tenantId: string, channel: string): string {
    "notif:rl:" + tenantId + ":" + channel
  }

  lemma ColonEndsTenant(tenantId: string, channel: string, tenantId': string, channel': string)
    requires ':' !in tenantId' && tenantId + ":" + channel == tenantId' + ":" + channel'
    ensures |tenantId'| <= |tenantId|
  {
    var b := tenantId' + ":" + channel';
    assert (tenantId + ":" + channel)[|tenantId|] == ':';
    assert forall i :: 0 <= i < |tenantId'| ==> b[i] == tenantId'[i];
  }

  /** Tenants without a ":" never share a key, nor do two channels of one. */
  lemma KeysSeparate(tenantId: string, channel: string, tenantId': string, channel': string)
    requires ':' !in tenantId && ':' !in tenantId'
    ensures Key(tenantId, channel) == Key(tenantId', channel') <==> tenantId == tenantId' && channel == channel'
  {
    if Key(tenantId, channel) == Key(tenantId', channel') {
      var prefix, a, b := "notif:rl:", tenantId + ":" + channel, tenantId' + ":" + channel';
      assert Key(tenantId, channel) == prefix + a && Key(tenantId', channel') == prefix + b;
      assert (prefix + a)[|prefix|..] == a && (prefix + b)[|prefix|..] == b;
      ColonEndsTenant(tenantId, channel, tenantId', channel');
      ColonEndsTenant(tenantId', channel', tenantId, channel);
      assert a[..|tenantId|] == tenantId && b[..|tenantId|] == tenantId';
      assert a[|tenantId| + 1..] == channel && b[|tenantId| + 1..] == channel';
    }
  }

  /** A key's count goes up by one until a minute passes without a call; then it starts again from 1. */
  lemma BumpExactly(c: Option<Counter>, last: int, now: int)
    ensures Bump(Some(Bump(c, last)), now).count == if now - last < 60_000 then Bump(c, last).count + 1 else 1
    ensures Bump(None, now).count == 1
  {}

  class Limiter {
    const limit: int
    var counters: map<string, Counter>

    constructor (limit: int)
      ensures this.limit == limit && counters == map[]
    {
      this.limit := limit;
      counters := map[];
    }

    /** Counts the call against tenant and channel, and says whether it is within the limit. */
    method Allow(tenantId: string, channel: string, now: int) returns (allowed: bool)
      modifies this
      ensures var k := "notif:rl:" + tenantId + ":" + channel;
              var c := Bump(if k in old(counters) then Some(old(counters)[k]) else None, now);
              counters == old(counters)[k := c] && (allowed <==> c.count <= limit)
    {
      var key := Key(tenantId, channel);
      var count := 1;
      if key in counters && now < counters[key].expiresAt {
        count := counters[key].count + 1;
      }
      counters := counters[key := Counter(count, now)];
      counters := counters[key := Counter(count, now + WINDOW)];
      allowed := count <= limit;
    }
  }

  // ---------------------------------------------------------------- runs of one key

  /** The key after calls at times `ts`. */
  function Run(ts: seq<int>): Option<Counter> {
    if ts == [] then None else Some(Bump(Run(ts[..|ts| - 1]), ts[|ts| - 1]))
  }

  /** The count call j sees. */
  function CountAt(ts: seq<int>, j: nat): int
    requires j < |ts|
  {
    Run(ts[..j + 1]).value.count
  }

  predicate Allowed(ts: seq<int>, j: nat, limit: int)
    requires j < |ts|
  {
    CountAt(ts, j) <= limit
  }

  ghost predicate NonDecreasing(ts: seq<int>) {
    forall i, j :: 0 <= i <= j < |ts| ==> ts[i] <= ts[j]
  }

  /** Call j comes at least a window after its predecessor, or is the first. */
  predicate Restarts(ts: seq<int>, j: nat)
    requires j < |ts|
  {
    j == 0 || ts[j - 1] + WINDOW <= ts[j]
  }

  lemma CountStep(ts: seq<int>, j: nat)
    requires j < |ts|
    ensures CountAt(ts, j) == if Restarts(ts, j) then 1 else CountAt(ts, j - 1) + 1
  {
    RunUnfold(ts, j + 1);
    if j > 0 {
      RunUnfold(ts, j);
    }
  }

  lemma RunUnfold(ts: seq<int>, n: nat)
    requires 0 < n <= |ts|
    ensures Run(ts[..n]) == Some(Bump(Run(ts[..n - 1]), ts[n - 1]))
  {
    assert ts[..n][..n - 1] == ts[..n - 1];
  }

  /** The first call of the burst call j belongs to: calls with less than a window between neighbours. */
  function BurstStart(ts: seq<int>, j: nat): (k: nat)
    requires j < |ts|
    ensures k <= j && Restarts(ts, k) && forall i :: k < i <= j ==> !Restarts(ts, i)
  {
    if Restarts(ts, j) then j else BurstStart(ts, j - 1)
  }

  /** A call is allowed exactly if fewer than `limit` calls precede it in its burst. */
  lemma {:induction false} AllowedExactly(ts: seq<int>, j: nat, limit: int)
    requires j < |ts|
    ensures CountAt(ts, j) == j - BurstStart(ts, j) + 1
    ensures Allowed(ts, j, limit) <==> j - BurstStart(ts, j) < limit
  {
    CountStep(ts, j);
    if !Restarts(ts, j) {
      AllowedExactly(ts, j - 1, limit);
    }
  }

  /** After a refusal every call is refused until one follows a full window of silence. */
  lemma {:induction false} RefusalLasts(ts: seq<int>, i: nat, j: nat, limit: int)
    requires i <= j < |ts| && !Allowed(ts, i, limit)
    requires forall k :: i < k <= j ==> !Restarts(ts, k)
    ensures !Allowed(ts, j, limit)
  {
    if i < j {
      RefusalLasts(ts, i, j - 1, limit);
      CountStep(ts, j);
    }
  }

  /** And that silence does end it, if the limit admits any call at all. */
  lemma SilenceResets(ts: seq<int>, j: nat, limit: int)
    requires j < |ts| && Restarts(ts, j)
    ensures Allowed(ts, j, limit) <==> limit >= 1
  {
    CountStep(ts, j);
  }

  predicate InWindow(t: int, start: int) { start <= t < start + WINDOW }

  /** How many of the first n calls were allowed within the window beginning at `start`. */
  function AllowedIn(ts: seq<int>, n: nat, start: int, limit: int): nat
    requires n <= |ts|
  {
    if n == 0 then 0
    else AllowedIn(ts, n - 1, start, limit) +
         if InWindow(ts[n - 1], start) && Allowed(ts, n - 1, limit) then 1 else 0
  }

  lemma {:induction false} NoneBefore(ts: seq<int>, n: nat, start: int, limit: int)
    requires n <= |ts| && NonDecreasing(ts) && (n > 0 ==> ts[n - 1] < start)
    ensures AllowedIn(ts, n, start, limit) == 0
  {
    if n > 1 {
      NoneBefore(ts, n - 1, start, limit);
    }
  }

  /** Within a window no burst can end, so the calls allowed so far are bounded by the last count. */
  lemma {:induction false} AllowedBound(ts: seq<int>, n: nat, start: int, limit: int)
    requires n <= |ts| && NonDecreasing(ts)
    ensures AllowedIn(ts, n, start, limit) <= Max(limit, 0)
    ensures n > 0 && InWindow(ts[n - 1], start) ==> AllowedIn(ts, n, start, limit) <= CountAt(ts, n - 1)
  {
    if n > 0 {
      AllowedBound(ts, n - 1, start, limit);
      AllowedExactly(ts, n - 1, limit);
      if InWindow(ts[n - 1], start) {
        if n == 1 || ts[n - 2] < start {
          NoneBefore(ts, n - 1, start, limit);
        } else {
          CountStep(ts, n - 1);
        }
      }
    }
  }

  /** For calls at non-decreasing times at most `limit` are allowed in any half-open one-minute window. */
  lemma AtMostLimitPerWindow(ts: seq<int>, start: int, limit: int)
    requires NonDecreasing(ts)
    ensures AllowedIn(ts, |ts|, start, limit) <= Max(limit, 0)
  {
    AllowedBound(ts, |ts|, start, limit);
  }

  lemma {:induction false} PickedBound(ts: seq<int>, n: nat, start: int, limit: int, picked: set<nat>)
    requires n <= |ts|
    requires forall k :: k in picked ==> k < n && start <= ts[k] < start + 60_000 && Allowed(ts, k, limit)
    ensures |picked| <= AllowedIn(ts, n, start, limit)
  {
    if n == 0 {
      assert picked == {};
    } else {
      var rest := picked - {n - 1};
      PickedBound(ts, n - 1, start, limit, rest);
      assert n - 1 in picked ==> picked == rest + {n - 1};
      assert n - 1 !in picked ==> picked == rest;
    }
  }

  /** That is: of the calls within 60 seconds of each other, no more than `limit` saw a count within the limit. */
  lemma AtMostLimitPerMinute(ts: seq<int>, start: int, limit: int, picked: set<nat>)
    requires NonDecreasing(ts)
    requires forall k :: k in picked ==> k < |ts| && start <= ts[k] < start + 60_000 && CountAt(ts, k) <= limit
    ensures |picked| <= Max(limit, 0)
  {
    PickedBound(ts, |ts|, start, limit, picked);
    AtMostLimitPerWindow(ts, start, limit);
  }

  /** The window is not a fixed minute: one call every 59 seconds is cut off for good after `limit` of them. */
  lemma {:induction false} SteadyTrafficStarves(ts: seq<int>, j: nat, limit: nat)
    requires j < |ts| && forall i :: 0 <= i < |ts| ==> ts[i] == 59_000 * i
    ensures Allowed(ts, j, limit) <==> j < limit
  {
    SteadyCount(ts, j);
  }

  lemma {:induction false} SteadyCount(ts: seq<int>, j: nat)
    requires j < |ts| && forall i :: 0 <= i < |ts| ==> ts[i] == 59_000 * i
    ensures CountAt(ts, j) == j + 1
  {
    CountStep(ts, j);
    if j > 0 {
      SteadyCount(ts, j - 1);
    }
  }
}
