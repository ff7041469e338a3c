/** Bounded bypass and dispatch counts of the round-robin selection. */
module SchedulerFairness {
  import opened Prelude
  import opened Counts
  import opened Scheduler
  import opened SchedulerRuns

  /** Picking anyone else brings the cursor strictly closer. */
  lemma Closer(slots: seq<ThreadSlot>, cursor: nat, id: nat, i: nat)
    requires Nearest(slots, cursor, id) && i < |slots| && slots[i].state == Runnable && id != i
    ensures Distance(id, i, |slots|) < Distance(cursor, i, |slots|)
  {
    assert Distance(cursor, id, |slots|) <= Distance(cursor, i, |slots|);
  }

  // ----- Bounded bypass -----

  /** A joiner that is handed the processor ahead of its turn. */
  predicate HandsOff(t: Threads, op: ThreadOp)
    requires t.current < |t.slots|
  {
    op.Exit? && t.current != 0 && t.slots[t.current].state == Running && t.slots[t.current].joiner.Some?
  }

  /** The idle table an operation selects from, if it selects at all. */
  function Contenders(t: Threads, op: ThreadOp): Option<(Threads, nat)>
    requires t.current < |t.slots| && t.cursor < |t.slots|
  {
    var running := t.slots[t.current].state == Running;
    match op
    case Yield(now) => if running then Some((Put(t, t.current, Runnable), now)) else None
    case Sleep(wakeAt, now) => if running then Some((Put(t, t.current, Sleeping(wakeAt)), now)) else None
    case Reselect(now) => if running then None else Some((t, now))
    case Join(target, now) =>
      if JoinCurrent(t, target, now).1 == Blocked then
        var linked := t.(slots := t.slots[target := t.slots[target].(joiner := Some(t.current))]);
        Some((Put(linked, t.current, JoinBlocked(target)), now))
      else None
    case Exit(code, now) => if running && t.current != 0 then Some((Stopped(t, code), now)) else None
    case ExitOwner(owner, now) =>
      if ExitProcess(t, owner, now).1.Some? && Purged(t.slots, owner)[t.current].state == Empty
      then Some((t.(slots := Purged(t.slots, owner)), now)) else None
    case _ => None
  }

  lemma ContendersSelect(t: Threads, op: ThreadOp)
    requires t.current < |t.slots| && t.cursor < |t.slots| && !HandsOff(t, op)
    ensures match Contenders(t, op)
            case None => Step(t, op).cursor == t.cursor
            case Some((u, now)) => u.cursor == t.cursor && |u.slots| == |t.slots| && Step(t, op) == Select(u, now, None).0
  {
    hide Select;
    hide FirstEmpty;
  }

  /** Did the operation dispatch a thread by going round? */
  predicate Dispatches(t: Threads, op: ThreadOp)
    requires t.current < |t.slots| && t.cursor < |t.slots|
  {
    match Contenders(t, op)
    case None => false
    case Some((u, now)) => u.cursor < |u.slots| && Select(u, now, None).1.Some?
  }

  function DispatchCount(t: Threads, ops: seq<ThreadOp>): nat
    requires Inv(t)
    decreases |ops|
  {
    if ops == [] then 0 else StepInv(t, ops[0]); (if Dispatches(t, ops[0]) then 1 else 0) + DispatchCount(Step(t, ops[0]), ops[1..])
  }

  /** Thread `i` is Runnable now and after every operation, and nobody is handed the
      processor out of turn. */
  predicate KeptWaiting(t: Threads, ops: seq<ThreadOp>, i: nat)
    requires Inv(t)
    decreases |ops|
  {
    && i < |t.slots| && t.slots[i].state == Runnable
    && (ops == [] || (StepInv(t, ops[0]); !HandsOff(t, ops[0]) && KeptWaiting(Step(t, ops[0]), ops[1..], i)))
  }

  lemma PassedOver(t: Threads, op: ThreadOp, i: nat)
    requires Inv(t) && !HandsOff(t, op) && i < |t.slots| && i < |Step(t, op).slots| && Step(t, op).slots[i].state == Runnable
    ensures Step(t, op).cursor < |t.slots| == |Step(t, op).slots|
    ensures Dispatches(t, op) ==> Distance(Step(t, op).cursor, i, |t.slots|) < Distance(t.cursor, i, |t.slots|)
    ensures !Dispatches(t, op) ==> Step(t, op).cursor == t.cursor
  {
    StepInv(t, op);
    hide Contenders;
    hide TableOk;
    hide Step;
    ContendersSelect(t, op);
    match Contenders(t, op) {
      case None =>
      case Some((u, now)) =>
        var w := WakeExpired(u.slots, now);
        PickRange(w, u.cursor);
        PickNearest(w, u.cursor, 1);
        var next := Select(u, now, None).1;
        if next.Some? {
          assert w[i].state == Runnable && next.value != i;
          Closer(w, u.cursor, next.value, i);
        }
    }
  }

  /** However the run goes, a thread that stays Runnable is passed over fewer times
      than its distance from the cursor, so fewer times than there are threads. */
  lemma {:induction false} BoundedBypass(t: Threads, ops: seq<ThreadOp>, i: nat)
    requires Inv(t) && KeptWaiting(t, ops, i)
    ensures DispatchCount(t, ops) < Distance(t.cursor, i, |t.slots|) <= |t.slots|
    decreases |ops|
  {
    hide TableOk;
    hide Dispatches;
    hide Step;
    hide HandsOff;
    if ops != [] {
      StepInv(t, ops[0]);
      PassedOver(t, ops[0], i);
      BoundedBypass(Step(t, ops[0]), ops[1..], i);
    }
  }

  // ----- Dispatch counts -----

  predicate Active(t: Threads, i: nat) {
    i < |t.slots| && (t.slots[i].state == Runnable || t.slots[i].state == Running)
  }

  /** The current thread runs and no deadline has passed. */
  predicate Steady(t: Threads, now: nat) {
    && Inv(t) && t.slots[t.current].state == Running
    && forall k :: 0 <= k < |t.slots| && t.slots[k].state.Sleeping? ==> t.slots[k].state.wakeAt > now
  }

  predicate AllSteady(t: Threads, nows: seq<nat>) {
    forall k :: 0 <= k < |nows| ==> Steady(t, nows[k])
  }

  lemma YieldStep(t: Threads, now: nat)
    requires Steady(t, now)
    ensures var t' := YieldCurrent(t, now).0;
            && Inv(t') && |t'.slots| == |t.slots| && t'.slots[t'.current].state == Running
            && (forall k :: Active(t', k) <==> Active(t, k))
            && (forall k :: 0 <= k < |t.slots| ==> (t'.slots[k].state.Sleeping? <==> t.slots[k].state.Sleeping?))
            && (forall k :: 0 <= k < |t.slots| && t.slots[k].state.Sleeping? ==> t'.slots[k].state == t.slots[k].state)
            && Active(t, t'.cursor)
            && (forall k :: Active(t, k) ==> Distance(t.cursor, t'.cursor, |t.slots|) <= Distance(t.cursor, k, |t.slots|))
  {
    YieldInv(t, now);
    hide TableOk;
    var u := Put(t, t.current, Runnable);
    var w := WakeExpired(u.slots, now);
    PickRange(w, u.cursor);
    PickNearest(w, u.cursor, 1);
    assert w[t.current].state == Runnable;
  }

  function IsOne(i: nat): nat -> nat {
    (x: nat) => if x == i then 1 else 0
  }

  function Count(picks: seq<nat>, i: nat): nat {
    Total(IsOne(i), picks)
  }

  /** The threads dispatched by yielding at the given times. */
  function Picks(t: Threads, nows: seq<nat>): seq<nat>
    requires AllSteady(t, nows)
    decreases |nows|
  {
    if nows == [] then []
    else
      assert Steady(t, nows[0]);
      StaysSteady(t, nows);
      var t' := YieldCurrent(t, nows[0]).0;
      [t'.current] + Picks(t', nows[1..])
  }

  lemma StaysSteady(t: Threads, nows: seq<nat>)
    requires nows != [] && AllSteady(t, nows)
    ensures AllSteady(YieldCurrent(t, nows[0]).0, nows[1..])
  {
    hide TableOk;
    assert Steady(t, nows[0]);
    YieldStep(t, nows[0]);
    forall k | 0 <= k < |nows[1..]|
      ensures Steady(YieldCurrent(t, nows[0]).0, nows[1..][k])
    {
      assert Steady(t, nows[k + 1]);
    }
  }

  /** Counts after `laps` full rounds from `start` and a part round up to distance `p`. */
  ghost predicate Lap(t: Threads, picks: seq<nat>, start: nat, p: nat, laps: nat) {
    && start < |t.slots| && p <= |t.slots| && t.cursor < |t.slots|
    && (p == 0 ==> t.cursor == start) && (p > 0 ==> Distance(start, t.cursor, |t.slots|) == p)
    && forall i :: Active(t, i) ==> Count(picks, i) == laps + if Distance(start, i, |t.slots|) <= p then 1 else 0
  }

  /** Distances from the cursor in terms of distances from the start of the lap. */
  lemma LapDistance(start: nat, cursor: nat, p: nat, i: nat, n: nat)
    requires start < n && cursor < n && i < n && p <= n
    requires (p == 0 ==> cursor == start) && (p > 0 ==> Distance(start, cursor, n) == p)
    ensures Distance(cursor, i, n) == if Distance(start, i, n) > p then Distance(start, i, n) - p else Distance(start, i, n) + n - p
  {
  }

  lemma NextLap(t: Threads, now: nat, picks: seq<nat>, start: nat, p: nat, laps: nat) returns (p': nat, laps': nat)
    requires Steady(t, now) && Lap(t, picks, start, p, laps)
    ensures var t' := YieldCurrent(t, now).0; Lap(t', picks + [t'.current], start, p', laps')
  {
    hide TableOk;
    hide Select;
    hide Total;
    YieldStep(t, now);
    var n := |t.slots|;
    var t' := YieldCurrent(t, now).0;
    var id := t'.cursor;
    p' := Distance(start, id, n);
    laps' := if p' > p then laps else laps + 1;
    LapDistance(start, t.cursor, p, id, n);
    forall i | Active(t', i)
      ensures Count(picks + [id], i) == laps' + if Distance(start, i, n) <= p' then 1 else 0
    {
      assert Active(t, i);
      LapDistance(start, t.cursor, p, i, n);
      OneMore(picks, id, i);
    }
  }

  lemma OneMore(picks: seq<nat>, id: nat, i: nat)
    ensures Count(picks + [id], i) == Count(picks, i) + if i == id then 1 else 0
  {
    TotalAppend(IsOne(i), picks, [id]);
    assert Total(IsOne(i), [id]) == IsOne(i)(id) + Total(IsOne(i), []) by {
      assert [id][1..] == [];
    }
  }

  lemma {:induction false} FairFrom(t: Threads, nows: seq<nat>, picks: seq<nat>, start: nat, p: nat, laps: nat, i: nat, j: nat)
    requires AllSteady(t, nows) && Lap(t, picks, start, p, laps) && Active(t, i) && Active(t, j)
    ensures Count(picks + Picks(t, nows), i) <= Count(picks + Picks(t, nows), j) + 1
    decreases |nows|
  {
    hide TableOk;
    hide Count;
    hide Select;
    if nows == [] {
      assert picks + Picks(t, nows) == picks;
    } else {
      assert Steady(t, nows[0]);
      var t' := YieldCurrent(t, nows[0]).0;
      StaysSteady(t, nows);
      YieldStep(t, nows[0]);
      var p', laps' := NextLap(t, nows[0], picks, start, p, laps);
      FairFrom(t', nows[1..], picks + [t'.current], start, p', laps', i, j);
      assert picks + Picks(t, nows) == picks + [t'.current] + Picks(t', nows[1..]);
    }
  }

  /** Over any number of yields by a fixed set of threads, dispatch counts differ by
      at most one. */
  lemma DispatchesAreFair(t: Threads, nows: seq<nat>, i: nat, j: nat)
    requires AllSteady(t, nows) && nows != [] && Active(t, i) && Active(t, j)
    ensures -1 <= Count(Picks(t, nows), i) - Count(Picks(t, nows), j) <= 1
  {
    hide TableOk;
    assert Steady(t, nows[0]);
    assert Lap(t, [], t.cursor, 0, 0);
    FairFrom(t, nows, [], t.cursor, 0, 0, i, j);
    FairFrom(t, nows, [], t.cursor, 0, 0, j, i);
    assert [] + Picks(t, nows) == Picks(t, nows);
  }
}
