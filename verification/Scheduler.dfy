/** The cooperative user-thread scheduler: a fixed slot table, the current thread
    and the round-robin cursor. */
module Scheduler {
  import opened Prelude

  const INIT_PROCESS_ID: nat := 1

  datatype ThreadState =
    | Empty
    | Runnable
    | Running
    | Sleeping(wakeAt: nat)
    | ChannelBlocked
    | JoinBlocked(target: nat)
    | Zombie(exitCode: nat)

  /** `joiner` is `None` for the reserved id 255; thread ids stay below it. */
  datatype ThreadSlot = ThreadSlot(state: ThreadState, joiner: Option<nat>, detached: bool, owner: nat)

  const EMPTY_SLOT := ThreadSlot(Empty, None, false, INIT_PROCESS_ID)

  datatype Threads = Threads(slots: seq<ThreadSlot>, current: nat, cursor: nat)

  function Initial(n: nat): Threads
    requires n > 0
  {
    Threads(seq(n, i => if i == 0 then EMPTY_SLOT.(state := Running) else EMPTY_SLOT), 0, 0)
  }

  function Put(t: Threads, i: nat, state: ThreadState): Threads
    requires i < |t.slots|
  {
    t.(slots := t.slots[i := t.slots[i].(state := state)])
  }

  function Vacate(t: Threads, i: nat): Threads
    requires i < |t.slots|
  {
    t.(slots := t.slots[i := EMPTY_SLOT])
  }

  // ----- Selection -----

  predicate Expired(s: ThreadState, now: nat) {
    s.Sleeping? && s.wakeAt <= now
  }

  function WakeExpired(slots: seq<ThreadSlot>, now: nat): (r: seq<ThreadSlot>)
    ensures |r| == |slots|
    ensures forall i :: 0 <= i < |slots| ==> r[i] == if Expired(slots[i].state, now) then slots[i].(state := Runnable) else slots[i]
  {
    seq(|slots|, i requires 0 <= i < |slots| => if Expired(slots[i].state, now) then slots[i].(state := Runnable) else slots[i])
  }

  /** Round trip length from `from` forward to `to`, between 1 and `n`. */
  function Distance(from: nat, to: nat, n: nat): nat
    requires from < n && to < n
  {
    if to > from then to - from else to + n - from
  }

  function At(cursor: nat, offset: nat, n: nat): nat
    requires cursor < n && 1 <= offset <= n
  {
    (cursor + offset) % n
  }

  lemma AtDistance(cursor: nat, offset: nat, n: nat)
    requires cursor < n && 1 <= offset <= n
    ensures At(cursor, offset, n) < n && Distance(cursor, At(cursor, offset, n), n) == offset
  {
    if cursor + offset < n {
      assert At(cursor, offset, n) == cursor + offset;
    } else {
      assert At(cursor, offset, n) == cursor + offset - n;
    }
  }

  lemma DistanceAt(cursor: nat, to: nat, n: nat)
    requires cursor < n && to < n
    ensures 1 <= Distance(cursor, to, n) <= n && At(cursor, Distance(cursor, to, n), n) == to
  {
    Around(to, n);
  }

  lemma Around(x: nat, n: nat)
    requires x < n
    ensures x % n == x && (x + n) % n == x
  {
  }

  /** `id` is the Runnable thread the cursor meets first. */
  predicate Nearest(slots: seq<ThreadSlot>, cursor: nat, id: nat) {
    && cursor < |slots| && id < |slots| && slots[id].state == Runnable
    && forall k :: 0 <= k < |slots| && slots[k].state == Runnable ==> Distance(cursor, id, |slots|) <= Distance(cursor, k, |slots|)
  }

  function Pick(slots: seq<ThreadSlot>, cursor: nat, offset: nat): (r: Option<nat>)
    requires cursor < |slots| && 1 <= offset <= |slots| + 1
    ensures r.Some? ==> r.value < |slots| && slots[r.value].state == Runnable
    decreases |slots| + 1 - offset
  {
    if offset > |slots| then None
    else
      AtDistance(cursor, offset, |slots|);
      if slots[At(cursor, offset, |slots|)].state == Runnable then Some(At(cursor, offset, |slots|)) else Pick(slots, cursor, offset + 1)
  }

  lemma {:induction false} PickNearest(slots: seq<ThreadSlot>, cursor: nat, offset: nat)
    requires cursor < |slots| && 1 <= offset <= |slots| + 1
    requires forall k :: 0 <= k < |slots| && slots[k].state == Runnable ==> Distance(cursor, k, |slots|) >= offset
    ensures match Pick(slots, cursor, offset)
            case None => forall k :: 0 <= k < |slots| ==> slots[k].state != Runnable
            case Some(id) => Nearest(slots, cursor, id)
    decreases |slots| + 1 - offset
  {
    if offset > |slots| {
      forall k | 0 <= k < |slots|
        ensures slots[k].state != Runnable
      {
        DistanceAt(cursor, k, |slots|);
      }
    } else {
      AtDistance(cursor, offset, |slots|);
      if slots[At(cursor, offset, |slots|)].state != Runnable {
        forall k | 0 <= k < |slots| && slots[k].state == Runnable
          ensures Distance(cursor, k, |slots|) >= offset + 1
        {
          DistanceAt(cursor, k, |slots|);
        }
        PickNearest(slots, cursor, offset + 1);
      }
    }
  }

  function Dispatch(t: Threads, id: nat): Threads
    requires id < |t.slots|
  {
    Put(t, id, Running).(current := id, cursor := id)
  }

  function Select(t: Threads, now: nat, preferred: Option<nat>): (Threads, Option<nat>)
    requires t.cursor < |t.slots|
  {
    var w := t.(slots := WakeExpired(t.slots, now));
    if preferred.Some? && preferred.value >= |t.slots| then (w, None)
    else if preferred.Some? && w.slots[preferred.value].state == Runnable then (Dispatch(w, preferred.value), preferred)
    else match Pick(w.slots, w.cursor, 1)
      case None => (w, None)
      case Some(id) => (Dispatch(w, id), Some(id))
  }

  // ----- Operations -----

  function FirstEmpty(slots: seq<ThreadSlot>, from: nat): (r: Option<nat>)
    ensures r.Some? ==> from <= r.value < |slots| && slots[r.value].state == Empty
    ensures r.None? ==> forall k :: from <= k < |slots| ==> slots[k].state != Empty
    decreases |slots| - from
  {
    if from >= |slots| then None
    else if slots[from].state == Empty then Some(from)
    else FirstEmpty(slots, from + 1)
  }

  function AllocateFor(t: Threads, owner: nat): (Threads, Option<nat>) {
    match FirstEmpty(t.slots, 1)
    case None => (t, None)
    case Some(id) => (t.(slots := t.slots[id := ThreadSlot(Runnable, None, false, owner)]), Some(id))
  }

  predicate OwnedBy(s: ThreadSlot, owner: nat) {
    s.state != Empty && s.owner == owner
  }

  function Purged(slots: seq<ThreadSlot>, owner: nat): (r: seq<ThreadSlot>)
    ensures |r| == |slots|
    ensures forall i :: 0 <= i < |slots| ==> r[i] == if OwnedBy(slots[i], owner) then EMPTY_SLOT else slots[i]
  {
    seq(|slots|, i requires 0 <= i < |slots| => if OwnedBy(slots[i], owner) then EMPTY_SLOT else slots[i])
  }

  function ExitProcess(t: Threads, owner: nat, now: nat): (Threads, Option<Option<nat>>)
    requires t.cursor < |t.slots| && t.current < |t.slots|
  {
    if owner == INIT_PROCESS_ID || forall i :: 0 <= i < |t.slots| ==> !OwnedBy(t.slots[i], owner) then (t, None)
    else
      var p := t.(slots := Purged(t.slots, owner));
      if p.slots[p.current].state == Empty then
        var (t', next) := Select(p, now, None);
        (t', Some(next))
      else (p, Some(Some(p.current)))
  }

  function DiscardUnstarted(t: Threads, thread: nat): (Threads, bool) {
    if thread >= |t.slots| || t.slots[thread].state != Runnable || t.slots[thread].joiner.Some? then (t, false) else (Vacate(t, thread), true)
  }

  function YieldCurrent(t: Threads, now: nat): (Threads, Option<nat>)
    requires t.cursor < |t.slots| && t.current < |t.slots|
  {
    if t.slots[t.current].state != Running then (t, None) else Select(Put(t, t.current, Runnable), now, None)
  }

  function SleepCurrent(t: Threads, wakeAt: nat, now: nat): (Threads, Option<nat>)
    requires t.cursor < |t.slots| && t.current < |t.slots|
  {
    if t.slots[t.current].state != Running then (t, None) else Select(Put(t, t.current, Sleeping(wakeAt)), now, None)
  }

  function BlockCurrent(t: Threads): (Threads, bool)
    requires t.current < |t.slots|
  {
    if t.slots[t.current].state != Running then (t, false) else (Put(t, t.current, ChannelBlocked), true)
  }

  function WakeWaiter(t: Threads, thread: nat): (Threads, bool) {
    if thread >= |t.slots| || t.slots[thread].state != ChannelBlocked then (t, false) else (Put(t, thread, Runnable), true)
  }

  function AbortWait(t: Threads): (Threads, bool)
    requires t.current < |t.slots|
  {
    if t.slots[t.current].state != ChannelBlocked then (t, false) else (Put(t, t.current, Running), true)
  }

  datatype JoinOutcome = Completed(exitCode: nat) | Blocked | Invalid

  function JoinCurrent(t: Threads, target: nat, now: nat): (Threads, JoinOutcome)
    requires t.cursor < |t.slots| && t.current < |t.slots|
  {
    var caller := t.current;
    if target == 0 || target == caller || target >= |t.slots| then (t, Invalid)
    else
      var s := t.slots[target];
      if s.owner != t.slots[caller].owner || s.state == Empty || s.detached || s.joiner.Some? then (t, Invalid)
      else if s.state.Zombie? then (Vacate(t, target), Completed(s.state.exitCode))
      else if t.slots[caller].state != Running then (t, Invalid)
      else
        var linked := t.(slots := t.slots[target := s.(joiner := Some(caller))]);
        (Select(Put(linked, caller, JoinBlocked(target)), now, None).0, Blocked)
  }

  function AbortJoin(t: Threads): (Threads, Option<nat>)
    requires t.current < |t.slots|
  {
    match t.slots[t.current].state
    case JoinBlocked(target) =>
      var freed := if target < |t.slots| && t.slots[target].joiner == Some(t.current)
                   then t.(slots := t.slots[target := t.slots[target].(joiner := None)]) else t;
      (Put(freed, t.current, Running), Some(t.current))
    case _ => (t, None)
  }

  function Detach(t: Threads, target: nat): (Threads, bool)
    requires t.current < |t.slots|
  {
    if target == 0 || target >= |t.slots| then (t, false)
    else
      var s := t.slots[target];
      if s.state == Empty || s.joiner.Some? || s.owner != t.slots[t.current].owner then (t, false)
      else if s.state.Zombie? then (Vacate(t, target), true)
      else (t.(slots := t.slots[target := s.(detached := true)]), true)
  }

  datatype ExitOutcome = ExitOutcome(next: Option<nat>, woken: Option<(nat, nat)>)

  /** The table once the current thread has stopped, before anything is selected. */
  function Stopped(t: Threads, code: nat): Threads
    requires t.current < |t.slots|
  {
    var s := t.slots[t.current];
    match s.joiner
    case Some(j) =>
      var gone := Vacate(t, t.current);
      if j < |gone.slots| && gone.slots[j].state == JoinBlocked(t.current) then Put(gone, j, Runnable) else gone
    case None => if s.detached then Vacate(t, t.current) else Put(t, t.current, Zombie(code))
  }

  function ExitCurrent(t: Threads, code: nat, now: nat): (Threads, Option<ExitOutcome>)
    requires t.cursor < |t.slots| && t.current < |t.slots|
  {
    if t.current == 0 || t.slots[t.current].state != Running then (t, None)
    else
      var joiner := t.slots[t.current].joiner;
      var (t', next) := Select(Stopped(t, code), now, joiner);
      (t', Some(ExitOutcome(next, if joiner.Some? then Some((joiner.value, code)) else None)))
  }
}
