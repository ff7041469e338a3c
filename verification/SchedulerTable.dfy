/** The scheduler in place: one slot array, updated by every transition. */
module SchedulerTable {
  import opened Prelude
  import opened Scheduler
  import opened SchedulerRuns

  class BootstrapUserThreads {
    const slots: array<ThreadSlot>
    var current: nat
    var cursor: nat

    ghost function View(): Threads
      reads this, slots
    {
      Threads(slots[..], current, cursor)
    }

    ghost predicate Valid()
      reads this, slots
    {
      Inv(View())
    }

    constructor (n: nat)
      requires 0 < n <= 255
      ensures Valid() && fresh(slots) && View() == Initial(n)
    {
      slots := new ThreadSlot[n](i => if i == 0 then EMPTY_SLOT.(state := Running) else EMPTY_SLOT);
      current, cursor := 0, 0;
      new;
      assert slots[..] == Initial(n).slots;
      InitialInv(n);
    }

    method WakeSleepers(now: nat)
      modifies slots
      ensures slots[..] == WakeExpired(old(slots[..]), now)
    {
      for i := 0 to slots.Length
        invariant forall k :: 0 <= k < i ==> slots[k] == WakeExpired(old(slots[..]), now)[k]
        invariant forall k :: i <= k < slots.Length ==> slots[k] == old(slots[k])
      {
        if slots[i].state.Sleeping? && slots[i].state.wakeAt <= now {
          slots[i] := slots[i].(state := Runnable);
        }
      }
    }

    method SelectRunnable(now: nat, preferred: Option<nat>) returns (next: Option<nat>)
      requires cursor < slots.Length
      modifies this, slots
      ensures (View(), next) == Select(old(View()), now, preferred)
    {
      hide WakeExpired;
      WakeSleepers(now);
      ghost var woken := slots[..];
      if preferred.Some? {
        var index := preferred.value;
        if index >= slots.Length {
          return None;
        }
        if slots[index].state == Runnable {
          slots[index] := slots[index].(state := Running);
          current, cursor := index, index;
          return preferred;
        }
      }
      var offset := 1;
      while offset <= slots.Length
        invariant 1 <= offset <= slots.Length + 1
        invariant slots[..] == woken && current == old(current) && cursor == old(cursor)
        invariant Pick(woken, cursor, offset) == Pick(woken, cursor, 1)
      {
        var id := (cursor + offset) % slots.Length;
        if slots[id].state == Runnable {
          slots[id] := slots[id].(state := Running);
          current, cursor := id, id;
          return Some(id);
        }
        offset := offset + 1;
      }
      next := None;
    }

    method AllocateForProcess(owner: nat) returns (id: Option<nat>)
      requires Valid()
      modifies slots
      ensures Valid() && (View(), id) == AllocateFor(old(View()), owner)
    {
      AllocateInv(View(), owner);
      var i := 1;
      while i < slots.Length
        invariant 1 <= i <= slots.Length
        invariant FirstEmpty(slots[..], i) == FirstEmpty(slots[..], 1) && slots[..] == old(slots[..])
      {
        if slots[i].state == Empty {
          slots[i] := ThreadSlot(Runnable, None, false, owner);
          return Some(i);
        }
        i := i + 1;
      }
      id := None;
    }

    method Purge(owner: nat) returns (removed: bool)
      modifies slots
      ensures slots[..] == Purged(old(slots[..]), owner)
      ensures removed <==> exists k :: 0 <= k < slots.Length && OwnedBy(old(slots[..])[k], owner)
    {
      ghost var before := slots[..];
      removed := false;
      for i := 0 to slots.Length
        invariant removed <==> exists k :: 0 <= k < i && OwnedBy(before[k], owner)
        invariant forall k :: 0 <= k < i ==> slots[k] == Purged(before, owner)[k]
        invariant forall k :: i <= k < slots.Length ==> slots[k] == before[k]
      {
        if slots[i].state != Empty && slots[i].owner == owner {
          slots[i] := EMPTY_SLOT;
          removed := true;
        }
      }
    }

    method ExitOwned(owner: nat, now: nat) returns (r: Option<Option<nat>>)
      requires Valid()
      modifies this, slots
      ensures Valid() && (View(), r) == ExitProcess(old(View()), owner, now)
    {
      ghost var t := View();
      ExitProcessInv(t, owner, now);
      hide SchedulerRuns.TableOk;
      hide Select;
      if owner == INIT_PROCESS_ID {
        return None;
      }
      var removed := Purge(owner);
      if !removed {
        assert slots[..] == t.slots;
        return None;
      }
      if slots[current].state == Empty {
        var next := SelectRunnable(now, None);
        return Some(next);
      }
      r := Some(Some(current));
    }

    method YieldNow(now: nat) returns (next: Option<nat>)
      requires Valid()
      modifies this, slots
      ensures Valid() && (View(), next) == YieldCurrent(old(View()), now)
    {
      YieldInv(View(), now);
      if slots[current].state != Running {
        return None;
      }
      slots[current] := slots[current].(state := Runnable);
      next := SelectRunnable(now, None);
    }

    method SleepUntil(wakeAt: nat, now: nat) returns (next: Option<nat>)
      requires Valid()
      modifies this, slots
      ensures Valid() && (View(), next) == SleepCurrent(old(View()), wakeAt, now)
    {
      SleepInv(View(), wakeAt, now);
      if slots[current].state != Running {
        return None;
      }
      slots[current] := slots[current].(state := Sleeping(wakeAt));
      next := SelectRunnable(now, None);
    }

    method BlockOnChannel() returns (ok: bool)
      requires Valid()
      modifies slots
      ensures Valid() && (View(), ok) == BlockCurrent(old(View()))
    {
      BlockInv(View());
      if slots[current].state != Running {
        return false;
      }
      slots[current] := slots[current].(state := ChannelBlocked);
      ok := true;
    }

    method WakeChannelWaiter(thread: nat) returns (ok: bool)
      requires Valid()
      modifies slots
      ensures Valid() && (View(), ok) == WakeWaiter(old(View()), thread)
    {
      WakeInv(View(), thread);
      if thread >= slots.Length || slots[thread].state != ChannelBlocked {
        return false;
      }
      slots[thread] := slots[thread].(state := Runnable);
      ok := true;
    }

    method JoinThread(target: nat, now: nat) returns (outcome: JoinOutcome)
      requires Valid()
      modifies this, slots
      ensures Valid() && (View(), outcome) == JoinCurrent(old(View()), target, now)
    {
      JoinInv(View(), target, now);
      hide SchedulerRuns.TableOk;
      var caller := current;
      if target == 0 || target == caller || target >= slots.Length || slots[target].owner != slots[caller].owner {
        return Invalid;
      }
      var s := slots[target];
      if s.state == Empty || s.detached || s.joiner.Some? {
        return Invalid;
      }
      if s.state.Zombie? {
        slots[target] := EMPTY_SLOT;
        return Completed(s.state.exitCode);
      }
      if slots[caller].state != Running {
        return Invalid;
      }
      slots[target] := s.(joiner := Some(caller));
      slots[caller] := slots[caller].(state := JoinBlocked(target));
      var _ := SelectRunnable(now, None);
      outcome := Blocked;
    }

    /** A join that cannot make progress is taken back. */
    method AbortBlockedJoin() returns (r: Option<nat>)
      requires Valid()
      modifies slots
      ensures Valid() && (View(), r) == AbortJoin(old(View()))
    {
      AbortJoinInv(View());
      hide SchedulerRuns.TableOk;
      if !slots[current].state.JoinBlocked? {
        return None;
      }
      var target := slots[current].state.target;
      if target < slots.Length && slots[target].joiner == Some(current) {
        slots[target] := slots[target].(joiner := None);
      }
      slots[current] := slots[current].(state := Running);
      r := Some(current);
    }

    /** A wait that cannot end is taken back. */
    method AbortChannelWait() returns (ok: bool)
      requires Valid()
      modifies slots
      ensures Valid() && (View(), ok) == AbortWait(old(View()))
    {
      AbortWaitInv(View());
      hide SchedulerRuns.TableOk;
      if slots[current].state != ChannelBlocked {
        return false;
      }
      slots[current] := slots[current].(state := Running);
      ok := true;
    }

    method DetachThread(target: nat) returns (ok: bool)
      requires Valid()
      modifies slots
      ensures Valid() && (View(), ok) == Detach(old(View()), target)
    {
      DetachInv(View(), target);
      hide SchedulerRuns.TableOk;
      if target == 0 || target >= slots.Length {
        return false;
      }
      var s := slots[target];
      if s.state == Empty || s.joiner.Some? || s.owner != slots[current].owner {
        return false;
      }
      slots[target] := if s.state.Zombie? then EMPTY_SLOT else s.(detached := true);
      ok := true;
    }

    /** A thread that was allocated and never ran gives its slot back; slot 0 is never one. */
    method DiscardThread(thread: nat) returns (ok: bool)
      requires Valid() && thread != 0
      modifies slots
      ensures Valid() && (View(), ok) == DiscardUnstarted(old(View()), thread)
    {
      DiscardInv(View(), thread);
      hide SchedulerRuns.TableOk;
      if thread >= slots.Length || slots[thread].state != Runnable || slots[thread].joiner.Some? {
        return false;
      }
      slots[thread] := EMPTY_SLOT;
      ok := true;
    }

    method ExitThread(code: nat, now: nat) returns (outcome: Option<ExitOutcome>)
      requires Valid()
      modifies this, slots
      ensures Valid() && (View(), outcome) == ExitCurrent(old(View()), code, now)
    {
      ghost var t := View();
      ExitInv(t, code, now);
      hide SchedulerRuns.TableOk;
      if current == 0 || slots[current].state != Running {
        return None;
      }
      var joiner, detached := slots[current].joiner, slots[current].detached;
      if joiner.Some? {
        slots[current] := EMPTY_SLOT;
        if joiner.value < slots.Length && slots[joiner.value].state == JoinBlocked(current) {
          slots[joiner.value] := slots[joiner.value].(state := Runnable);
        }
      } else if detached {
        slots[current] := EMPTY_SLOT;
      } else {
        slots[current] := slots[current].(state := Zombie(code));
      }
      assert slots[..] == Stopped(t, code).slots;
      var next := SelectRunnable(now, joiner);
      outcome := Some(ExitOutcome(next, if joiner.Some? then Some((joiner.value, code)) else None));
    }
  }
}
