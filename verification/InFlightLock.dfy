/** The in-flight lock of the risk orchestrator, and when it keeps evaluations of one payment apart. */
module InFlightLock {
  import opened Common

  // 30 seconds, in milliseconds
  const TTL: int := 30_000

  /** The lock's key is present and has not expired. */
  predicate Locked(keys: map<string, int>, paymentEventId: string, now: int) {
    paymentEventId in keys && now < keys[paymentEventId]
  }

  /** The keys after an attempt to take the lock. */
  function Acquired(keys: map<string, int>, paymentEventId: string, now: int): map<string, int> {
    if Locked(keys, paymentEventId, now) then keys else keys[paymentEventId := now + TTL]
  }

  class InFlightCache {
    var expiresAt: map<string, int>

    constructor ()
      ensures expiresAt == map[]
    {
      expiresAt := map[];
    }

    /** `SET NX` with the lock's time to live. */
    method TryAcquire(paymentEventId: string, now: int) returns (acquired: bool)
      modifies this
      ensures acquired <==> paymentEventId !in old(expiresAt) || old(expiresAt)[paymentEventId] <= now
      ensures acquired ==> expiresAt == old(expiresAt)[paymentEventId := now + 30_000]
      ensures !acquired ==> expiresAt == old(expiresAt)
      ensures expiresAt == Acquired(old(expiresAt), paymentEventId, now)
    {
      if paymentEventId in expiresAt && now < expiresAt[paymentEventId] { return false; }
      expiresAt := expiresAt[paymentEventId := now + TTL];
      acquired := true;
    }

    /** Deletes the key, whoever set it. */
    method Release(paymentEventId: string)
      modifies this
      ensures expiresAt == old(expiresAt) - {paymentEventId}
    {
      expiresAt := expiresAt - {paymentEventId};
    }
  }

  // ---------------------------------------------------------------- runs

  /**
   A `Process` call between passing the lock and its deferred release. `until` is a history variable:
   when the key it left or found on entering expires; the time of entry if there was none.
   */
  datatype Proc = Proc(paymentEventId: string, since: int, until: int)

  datatype World = World(now: int, keys: map<string, int>, active: map<int, Proc>)

  datatype Action =
    | Tick(to: int)
    | Enter(proc: int, paymentEventId: string)        // TryAcquire answers; the call skips the event if locked
    // TryAcquire fails, having set the key or not; the call goes on without an answer
    | EnterOnError(proc: int, paymentEventId: string, took: bool)
    | Leave(proc: int, released: bool)                // the deferred Release, which may fail

  predicate Enabled(w: World, a: Action) {
    match a
    case Tick(to) => w.now <= to
    case Enter(p, _) => p !in w.active
    case EnterOnError(p, _, _) => p !in w.active
    case Leave(p, _) => p in w.active
  }

  function Step(w: World, a: Action): World {
    match a
    case Tick(to) => w.(now := to)
    case Enter(p, id) =>
      w.(keys := Acquired(w.keys, id, w.now),
         active := if Locked(w.keys, id, w.now) then w.active else w.active[p := Proc(id, w.now, w.now + TTL)])
    case EnterOnError(p, id, took) =>
      var keys := if took then Acquired(w.keys, id, w.now) else w.keys;
      w.(keys := keys, active := w.active[p := Proc(id, w.now, if id in keys then keys[id] else w.now)])
    case Leave(p, released) =>
      if p !in w.active then w
      else w.(active := w.active - {p}, keys := if released then w.keys - {w.active[p].paymentEventId} else w.keys)
  }

  /** A step does to the keys what the lock's operations do, or nothing where the operation failed without effect. */
  lemma StepsFollowTheLock(w: World, a: Action)
    requires Enabled(w, a)
    ensures var w' := Step(w, a);
      match a
      case Tick(to) => w' == w.(now := to)
      case Enter(p, id) =>
        if id in w.keys && w.now < w.keys[id] then w' == w
        else w'.keys == w.keys[id := w.now + 30_000] && w'.active == w.active[p := Proc(id, w.now, w.now + 30_000)]
      case EnterOnError(p, id, took) =>
        && p in w'.active && w'.active - {p} == w.active - {p} && w'.active[p].paymentEventId == id
        && w'.keys == if took && !(id in w.keys && w.now < w.keys[id]) then w.keys[id := w.now + 30_000] else w.keys
      case Leave(p, released) =>
        && w'.active == w.active - {p}
        && w'.keys == if released then w.keys - {w.active[p].paymentEventId} else w.keys
  {}

  function Run(start: int, acts: seq<Action>): World {
    if acts == [] then World(start, map[], map[]) else Step(Run(start, acts[..|acts| - 1]), acts[|acts| - 1])
  }

  ghost predicate IsRun(start: int, acts: seq<Action>) {
    forall i :: 0 <= i < |acts| ==> Enabled(Run(start, acts[..i]), acts[i])
  }

  ghost predicate NoAcquireErrors(acts: seq<Action>) {
    forall i :: 0 <= i < |acts| ==> !acts[i].EnterOnError?
  }

  /** No call is still active 30 seconds after it entered. */
  predicate Punctual(w: World) {
    forall p :: p in w.active ==> w.now < w.active[p].since + TTL
  }

  ghost predicate AlwaysPunctual(start: int, acts: seq<Action>) {
    forall i :: 0 <= i <= |acts| ==> Punctual(Run(start, acts[..i]))
  }

  /** No two active calls evaluate the same payment event. */
  ghost predicate Exclusive(w: World) {
    forall p, q :: p in w.active && q in w.active && w.active[p].paymentEventId == w.active[q].paymentEventId ==> p == q
  }

  /** Every active call's key still expires when it did on entry; if it is gone, that moment has passed. */
  ghost predicate Covered(w: World) {
    forall p :: p in w.active ==>
      var x := w.active[p];
      if x.paymentEventId in w.keys then w.keys[x.paymentEventId] == x.until else x.until <= w.now
  }

  predicate Evaluating(w: World, p: int, paymentEventId: string) {
    p in w.active && w.active[p].paymentEventId == paymentEventId
  }

  /** The step lets a call in beside one whose key has run out, or without asking beside any. */
  ghost predicate Clash(w: World, a: Action) {
    match a
    case Enter(_, id) => exists p :: Evaluating(w, p, id) && w.active[p].until <= w.now
    case EnterOnError(_, id, _) => exists p :: Evaluating(w, p, id)
    case _ => false
  }

  /** A step from an exclusive state keeps it exclusive exactly unless it is a clash. */
  lemma StepExactly(w: World, a: Action)
    requires Exclusive(w) && Covered(w) && Enabled(w, a)
    ensures Exclusive(Step(w, a)) <==> !Clash(w, a)
    ensures !Clash(w, a) ==> Covered(Step(w, a))
  {
    if a.Enter? || a.EnterOnError? {
      EntryExactly(w, a, a.proc, a.paymentEventId);
    }
  }

  lemma EntryExactly(w: World, a: Action, p: int, id: string)
    requires Exclusive(w) && Covered(w) && p !in w.active
    requires a == Enter(p, id) || (a.EnterOnError? && a.proc == p && a.paymentEventId == id)
    ensures Exclusive(Step(w, a)) <==> !Clash(w, a)
    ensures !Clash(w, a) ==> Covered(Step(w, a))
  {
    var w' := Step(w, a);
    if q :| Evaluating(w, q, id) && (a.EnterOnError? || w.active[q].until <= w.now) {
      assert p in w'.active && q in w'.active && p != q;
    } else if q :| Evaluating(w, q, id) {
      assert Locked(w.keys, id, w.now) && w' == w;
    } else {
      forall q | q in w.active ensures w.active[q].paymentEventId != id {
        assert !Evaluating(w, q, id);
      }
    }
  }

  ghost predicate AlwaysExclusive(start: int, acts: seq<Action>) {
    forall i :: 0 <= i <= |acts| ==> Exclusive(Run(start, acts[..i]))
  }

  ghost predicate ClashFree(start: int, acts: seq<Action>) {
    forall i :: 0 <= i < |acts| ==> !Clash(Run(start, acts[..i]), acts[i])
  }

  lemma RunPrefix(start: int, acts: seq<Action>)
    requires acts != [] && IsRun(start, acts)
    ensures IsRun(start, acts[..|acts| - 1]) && Enabled(Run(start, acts[..|acts| - 1]), acts[|acts| - 1])
  {
    forall i | 0 <= i < |acts| ensures acts[..|acts| - 1][..i] == acts[..i] {}
  }

  lemma ExclusivePrefix(start: int, acts: seq<Action>)
    requires acts != []
    ensures AlwaysExclusive(start, acts) <==> AlwaysExclusive(start, acts[..|acts| - 1]) && Exclusive(Run(start, acts))
  {
    var n := |acts| - 1;
    assert acts[..|acts|] == acts;
    forall i | 0 <= i <= n ensures acts[..n][..i] == acts[..i] {}
    if AlwaysExclusive(start, acts) {
      forall i | 0 <= i <= n ensures Exclusive(Run(start, acts[..n][..i])) {
        assert Exclusive(Run(start, acts[..i]));
      }
    }
    if AlwaysExclusive(start, acts[..n]) && Exclusive(Run(start, acts)) {
      forall i | 0 <= i <= |acts| ensures Exclusive(Run(start, acts[..i])) {
        assert i <= n ==> Exclusive(Run(start, acts[..n][..i]));
      }
    }
  }

  lemma ClashFreePrefix(start: int, acts: seq<Action>)
    requires acts != []
    ensures var n := |acts| - 1;
            ClashFree(start, acts) <==> ClashFree(start, acts[..n]) && !Clash(Run(start, acts[..n]), acts[n])
  {
    var init := acts[..|acts| - 1];
    forall i | 0 <= i < |init|
      ensures Clash(Run(start, init[..i]), init[i]) <==> Clash(Run(start, acts[..i]), acts[i])
    {
      assert init[..i] == acts[..i];
    }
  }

  /**
   In every run, failed lock operations included, no two calls ever evaluate the same payment event at
   once if and only if no step is a clash.
   */
  lemma {:induction false} ExclusionExactly(start: int, acts: seq<Action>)
    requires IsRun(start, acts)
    ensures AlwaysExclusive(start, acts) <==> ClashFree(start, acts)
    ensures AlwaysExclusive(start, acts) ==> Covered(Run(start, acts))
  {
    if acts != [] {
      var n := |acts| - 1;
      RunPrefix(start, acts);
      ExclusivePrefix(start, acts);
      ClashFreePrefix(start, acts);
      ExclusionExactly(start, acts[..n]);
      if AlwaysExclusive(start, acts[..n]) {
        assert acts[..n][..n] == acts[..n];
        StepExactly(Run(start, acts[..n]), acts[n]);
      }
    }
  }

  /** A call asks for the lock while another on the same event has been active for 30 seconds or more. */
  ghost predicate EntersBesideOverrun(w: World, a: Action) {
    a.Enter? && exists p :: Evaluating(w, p, a.paymentEventId) && w.active[p].since + TTL <= w.now
  }

  /** Each active call set its key itself. */
  ghost predicate SetTheirKeys(w: World) {
    forall p :: p in w.active ==> w.active[p].until == w.active[p].since + TTL
  }

  lemma StepSetsKeys(w: World, a: Action)
    requires SetTheirKeys(w) && !a.EnterOnError?
    ensures SetTheirKeys(Step(w, a))
  {}

  lemma {:induction false} RunSetsKeys(start: int, acts: seq<Action>)
    requires NoAcquireErrors(acts)
    ensures SetTheirKeys(Run(start, acts))
  {
    if acts != [] {
      var n := |acts| - 1;
      RunSetsKeys(start, acts[..n]);
      assert !acts[n].EnterOnError?;
      StepSetsKeys(Run(start, acts[..n]), acts[n]);
    }
  }

  /**
   If the lock can always be asked, exclusion holds throughout a run exactly if no call enters beside an
   overrun of the same event, even if releases fail: an overrun nobody enters beside is harmless.
   */
  lemma ExclusionWithoutErrors(start: int, acts: seq<Action>)
    requires IsRun(start, acts) && NoAcquireErrors(acts)
    ensures AlwaysExclusive(start, acts) <==>
            forall i :: 0 <= i < |acts| ==> !EntersBesideOverrun(Run(start, acts[..i]), acts[i])
    ensures forall w: World, a: Action :: EntersBesideOverrun(w, a) <==>
              a.Enter? && exists p :: p in w.active && w.active[p].paymentEventId == a.paymentEventId &&
                                      w.now - w.active[p].since >= 30_000
  {
    forall w: World, a: Action
      ensures EntersBesideOverrun(w, a) <==>
              a.Enter? && exists p :: p in w.active && w.active[p].paymentEventId == a.paymentEventId &&
                                      w.now - w.active[p].since >= 30_000
    {
      if EntersBesideOverrun(w, a) {
        var p :| Evaluating(w, p, a.paymentEventId) && w.active[p].since + TTL <= w.now;
        assert p in w.active && w.now - w.active[p].since >= 30_000;
      }
      if p :| a.Enter? && p in w.active && w.active[p].paymentEventId == a.paymentEventId &&
              w.now - w.active[p].since >= 30_000 {
        assert Evaluating(w, p, a.paymentEventId);
      }
    }
    ExclusionExactly(start, acts);
    forall i | 0 <= i < |acts|
      ensures Clash(Run(start, acts[..i]), acts[i]) <==> EntersBesideOverrun(Run(start, acts[..i]), acts[i])
    {
      RunSetsKeys(start, acts[..i]);
      var w := Run(start, acts[..i]);
      if acts[i].Enter? {
        forall p | Evaluating(w, p, acts[i].paymentEventId)
          ensures w.active[p].until <= w.now <==> w.active[p].since + TTL <= w.now
        {}
      }
    }
  }

  /** In particular, calls that always leave within 30 seconds of entering exclude each other. */
  lemma MutualExclusion(start: int, acts: seq<Action>)
    requires IsRun(start, acts) && NoAcquireErrors(acts) && AlwaysPunctual(start, acts)
    ensures AlwaysExclusive(start, acts)
  {
    ExclusionWithoutErrors(start, acts);
    forall i | 0 <= i < |acts| ensures !EntersBesideOverrun(Run(start, acts[..i]), acts[i]) {
      assert Punctual(Run(start, acts[..i]));
    }
  }

  /**
   Such a run: after an overrun the key expires, a second call enters beside the first, and the first's
   release deletes the second's key, so that a third enters too.
   */
  lemma OverrunBreaksExclusion(id: string) returns (acts: seq<Action>)
    ensures IsRun(0, acts) && NoAcquireErrors(acts)
    ensures Evaluating(Run(0, acts), 2, id) && Evaluating(Run(0, acts), 3, id)
    ensures !Exclusive(Run(0, acts[..3]))
  {
    acts := [Enter(1, id), Tick(TTL), Enter(2, id), Leave(1, true), Enter(3, id)];
    RunSteps(acts);
    var w1, w2 := Run(0, acts[..1]), Run(0, acts[..2]);
    var w3, w4 := Run(0, acts[..3]), Run(0, acts[..4]);
    assert w1.keys == map[id := TTL] && w2.now == TTL;
    assert 1 in w3.active && 2 in w3.active && 3 !in w4.active;
    forall i | 0 <= i < |acts| ensures Enabled(Run(0, acts[..i]), acts[i]) {
      assert i == 0 || i == 1 || i == 2 || i == 3 || i == 4;
    }
  }

  /** And one with a failed lock operation: a call that could not ask evaluates beside the holder. */
  lemma AcquireErrorBreaksExclusion(id: string, took: bool)
    ensures var acts := [Enter(1, id), EnterOnError(2, id, took)];
            IsRun(0, acts) && AlwaysPunctual(0, acts) && !Exclusive(Run(0, acts))
  {
    var acts := [Enter(1, id), EnterOnError(2, id, took)];
    RunSteps(acts);
    var w := Run(0, acts);
    assert 1 in w.active && 2 in w.active;
    forall i | 0 <= i <= |acts| ensures Punctual(Run(0, acts[..i])) {
      assert i == 0 || i == 1 || i == 2;
    }
  }

  lemma {:induction false} RunSteps(acts: seq<Action>)
    ensures forall i :: 0 <= i < |acts| ==> Run(0, acts[..i + 1]) == Step(Run(0, acts[..i]), acts[i])
    ensures Run(0, acts[..0]) == World(0, map[], map[]) && acts[..|acts|] == acts
  {
    forall i | 0 <= i < |acts| ensures Run(0, acts[..i + 1]) == Step(Run(0, acts[..i]), acts[i]) {
      assert acts[..i + 1][..i] == acts[..i];
    }
  }
}
