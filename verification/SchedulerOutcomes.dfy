/** What becomes of one thread over a whole run: how long it stays parked, and who
    gets its exit code. */
module SchedulerOutcomes {
  import opened Prelude
  import opened Scheduler
  import opened SchedulerRuns

  // ----- Parked threads -----

  predicate Parked(s: ThreadState) {
    s.Sleeping? || s.ChannelBlocked? || s.JoinBlocked? || s.Zombie?
  }

  /** The clock an operation selects with, if it may select. */
  function ClockOf(op: ThreadOp): Option<nat> {
    match op
    case ExitOwner(_, now) => Some(now)
    case Yield(now) => Some(now)
    case Sleep(_, now) => Some(now)
    case Reselect(now) => Some(now)
    case Join(_, now) => Some(now)
    case Exit(_, now) => Some(now)
    case _ => None
  }

  predicate SameProcess(t: Threads, i: nat)
    requires i < |t.slots| && t.current < |t.slots|
  {
    t.slots[t.current].owner == t.slots[i].owner
  }

  /** The only operations that may end what parked thread `i` is parked on: the end of its
      process, its deadline, its wake-up, the exit it waits for, or a join or detach of
      the zombie from its own process. */
  predicate Releases(t: Threads, op: ThreadOp, i: nat)
    requires i < |t.slots| && t.current < |t.slots|
  {
    || (op.ExitOwner? && op.owner == t.slots[i].owner)
    || match t.slots[i].state
       case Sleeping(wakeAt) => ClockOf(op).Some? && wakeAt <= ClockOf(op).value
       case ChannelBlocked => op == Wake(i) || (op == Abort && t.current == i)
       case JoinBlocked(target) => (op.Exit? && t.current == target) || (op == AbortBlockedJoin && t.current == i)
       case Zombie(_) => SameProcess(t, i) && ((op.Join? && op.target == i) || op == DetachThread(i))
       case _ => true
  }

  /** A selection leaves alone every thread that is not ready to run. */
  lemma SelectSpares(t: Threads, now: nat, preferred: Option<nat>, i: nat)
    requires t.cursor < |t.slots| && i < |t.slots|
    ensures |Select(t, now, preferred).0.slots| == |t.slots|
    ensures t.slots[i].state != Runnable && !Expired(t.slots[i].state, now) ==> Select(t, now, preferred).0.slots[i] == t.slots[i]
    ensures Select(t, now, preferred).1 == Some(i) ==> t.slots[i].state == Runnable || Expired(t.slots[i].state, now)
    ensures t.slots[i].state == Runnable || Expired(t.slots[i].state, now) ==>
              && Select(t, now, preferred).0.slots[i].state in {Runnable, Running}
              && Select(t, now, preferred).0.slots[i].(state := t.slots[i].state) == t.slots[i]
  {
    hide Pick;
  }

  /** What a step may do to a thread it does not release: become or stop being joined or detached. */
  predicate StillParked(before: ThreadSlot, after: ThreadSlot) {
    && after.state == before.state && after.owner == before.owner
    && (before.state.Zombie? ==> after == before)
  }

  lemma StaysParked(t: Threads, op: ThreadOp, i: nat)
    requires Inv(t) && i < |t.slots| && Parked(t.slots[i].state) && !Releases(t, op, i)
    ensures i < |Step(t, op).slots| && StillParked(t.slots[i], Step(t, op).slots[i])
  {
    hide TableOk;
    hide Parked;
    hide Releases;
    hide AllocateFor;
    hide ExitProcess;
    hide YieldCurrent;
    hide SleepCurrent;
    hide Select;
    hide JoinCurrent;
    hide AbortJoin;
    hide Detach;
    hide ExitCurrent;
    match op
    case Allocate(owner) => AllocateSpares(t, owner, i);
    case ExitOwner(owner, now) => OwnerSpares(t, owner, now, i);
    case Yield(now) => YieldSpares(t, now, i);
    case Sleep(wakeAt, now) => SleepSpares(t, wakeAt, now, i);
    case Reselect(now) => ReselectSpares(t, now, i);
    case Join(target, now) => JoinSpares(t, target, now, i);
    case AbortBlockedJoin => AbortJoinSpares(t, i);
    case DetachThread(target) => DetachSpares(t, target, i);
    case Exit(code, now) => ExitSpares(t, code, now, i);
    case _ => SimpleSpares(t, op, i);
  }

  lemma SimpleSpares(t: Threads, op: ThreadOp, i: nat)
    requires Inv(t) && i < |t.slots| && Parked(t.slots[i].state) && !Releases(t, op, i)
    requires op.Discard? || op.Block? || op.Wake? || op.Abort?
    ensures i < |Step(t, op).slots| && StillParked(t.slots[i], Step(t, op).slots[i])
  {
    hide TableOk;
  }

  lemma AllocateSpares(t: Threads, owner: nat, i: nat)
    requires i < |t.slots| && Parked(t.slots[i].state)
    ensures i < |AllocateFor(t, owner).0.slots| && StillParked(t.slots[i], AllocateFor(t, owner).0.slots[i])
  {
    hide FirstEmpty;
  }

  lemma OwnerSpares(t: Threads, owner: nat, now: nat, i: nat)
    requires Inv(t) && i < |t.slots| && Parked(t.slots[i].state) && !Releases(t, ExitOwner(owner, now), i)
    ensures i < |ExitProcess(t, owner, now).0.slots| && StillParked(t.slots[i], ExitProcess(t, owner, now).0.slots[i])
  {
    hide TableOk;
    hide Select;
    SelectSpares(t.(slots := Purged(t.slots, owner)), now, None, i);
  }

  lemma YieldSpares(t: Threads, now: nat, i: nat)
    requires Inv(t) && i < |t.slots| && Parked(t.slots[i].state) && !Releases(t, Yield(now), i)
    ensures i < |YieldCurrent(t, now).0.slots| && StillParked(t.slots[i], YieldCurrent(t, now).0.slots[i])
  {
    hide TableOk;
    hide Select;
    SelectSpares(Put(t, t.current, Runnable), now, None, i);
  }

  lemma SleepSpares(t: Threads, wakeAt: nat, now: nat, i: nat)
    requires Inv(t) && i < |t.slots| && Parked(t.slots[i].state) && !Releases(t, Sleep(wakeAt, now), i)
    ensures i < |SleepCurrent(t, wakeAt, now).0.slots| && StillParked(t.slots[i], SleepCurrent(t, wakeAt, now).0.slots[i])
  {
    hide TableOk;
    hide Select;
    SelectSpares(Put(t, t.current, Sleeping(wakeAt)), now, None, i);
  }

  lemma ReselectSpares(t: Threads, now: nat, i: nat)
    requires Inv(t) && i < |t.slots| && Parked(t.slots[i].state) && !Releases(t, Reselect(now), i)
    ensures i < |Select(t, now, None).0.slots| && StillParked(t.slots[i], Select(t, now, None).0.slots[i])
  {
    hide TableOk;
    hide Select;
    SelectSpares(t, now, None, i);
  }

  lemma AbortJoinSpares(t: Threads, i: nat)
    requires Inv(t) && i < |t.slots| && Parked(t.slots[i].state) && !Releases(t, AbortBlockedJoin, i)
    ensures i < |AbortJoin(t).0.slots| && StillParked(t.slots[i], AbortJoin(t).0.slots[i])
  {
    assert Linked(t.slots, i);
    hide TableOk;
  }

  lemma DetachSpares(t: Threads, target: nat, i: nat)
    requires Inv(t) && i < |t.slots| && Parked(t.slots[i].state) && !Releases(t, DetachThread(target), i)
    ensures i < |Detach(t, target).0.slots| && StillParked(t.slots[i], Detach(t, target).0.slots[i])
  {
    hide TableOk;
  }

  lemma JoinSpares(t: Threads, target: nat, now: nat, i: nat)
    requires Inv(t) && i < |t.slots| && Parked(t.slots[i].state) && !Releases(t, Join(target, now), i)
    ensures i < |JoinCurrent(t, target, now).0.slots| && StillParked(t.slots[i], JoinCurrent(t, target, now).0.slots[i])
  {
    hide Select;
    hide TableOk;
    if JoinCurrent(t, target, now).1.Blocked? {
      var linked := t.(slots := t.slots[target := t.slots[target].(joiner := Some(t.current))]);
      SelectSpares(Put(linked, t.current, JoinBlocked(target)), now, None, i);
    }
  }

  lemma ExitSpares(t: Threads, code: nat, now: nat, i: nat)
    requires Inv(t) && i < |t.slots| && Parked(t.slots[i].state) && !Releases(t, Exit(code, now), i)
    ensures i < |ExitCurrent(t, code, now).0.slots| && StillParked(t.slots[i], ExitCurrent(t, code, now).0.slots[i])
  {
    hide Select;
    if ExitCurrent(t, code, now).1.Some? {
      assert Linked(t.slots, t.current);
      hide TableOk;
      SelectSpares(Stopped(t, code), now, t.slots[t.current].joiner, i);
    }
  }

  /** No operation of the run releases `i`. */
  predicate NeverReleased(t: Threads, ops: seq<ThreadOp>, i: nat)
    requires Inv(t) && i < |t.slots|
    decreases |ops|
  {
    ops == [] || (StepInv(t, ops[0]); !Releases(t, ops[0], i) && NeverReleased(Step(t, ops[0]), ops[1..], i))
  }

  /** A parked thread stays exactly as parked over every run that does not release it. */
  lemma {:induction false} ParkedThroughout(t: Threads, ops: seq<ThreadOp>, i: nat)
    requires Inv(t) && i < |t.slots| && Parked(t.slots[i].state) && NeverReleased(t, ops, i)
    ensures StillParked(t.slots[i], RunFrom(t, ops).slots[i])
    decreases |ops|
  {
    hide Step;
    hide TableOk;
    hide Releases;
    hide Parked;
    if ops != [] {
      StepInv(t, ops[0]);
      StaysParked(t, ops[0], i);
      ParkedSame(t.slots[i].state, Step(t, ops[0]).slots[i].state);
      ParkedThroughout(Step(t, ops[0]), ops[1..], i);
    }
  }

  lemma ParkedSame(s: ThreadState, s': ThreadState)
    requires Parked(s) && s' == s
    ensures Parked(s')
  {
  }

  /** One step from a state that satisfies the invariant. */
  function After(t: Threads, op: ThreadOp): (r: Threads)
    requires Inv(t)
    ensures Inv(r) && |r.slots| == |t.slots|
  {
    StepInv(t, op);
    Step(t, op)
  }

  // ----- Exit codes are kept and collected -----

  /** The exit code of a thread that is neither joined nor detached waits for its joiner:
      after every run that does not reap it, a join from the same process gets exactly
      that code, and empties the slot. */
  lemma ExitCodeWaits(t: Threads, code: nat, now: nat, ops: seq<ThreadOp>, later: nat)
    requires Inv(t) && t.current != 0 && t.slots[t.current].state == Running && t.slots[t.current].joiner.None? && !t.slots[t.current].detached
    requires NeverReleased(After(t, Exit(code, now)), ops, t.current)
    requires var t' := RunFrom(After(t, Exit(code, now)), ops);
             t'.slots[t'.current].state == Running && t'.slots[t'.current].owner == t.slots[t.current].owner
    ensures var t' := RunFrom(After(t, Exit(code, now)), ops);
            && JoinCurrent(t', t.current, later).1 == Completed(code)
            && JoinCurrent(t', t.current, later).0 == t'.(slots := t'.slots[t.current := EMPTY_SLOT])
            && JoinCurrent(JoinCurrent(t', t.current, later).0, t.current, later).1 == Invalid
  {
    hide Select;
    hide TableOk;
    hide NeverReleased;
    var i := t.current;
    var t1 := After(t, Exit(code, now));
    SelectSpares(Stopped(t, code), now, None, i);
    assert t1.slots[i] == t.slots[i].(state := Zombie(code));
    ParkedThroughout(t1, ops, i);
  }

  /** A detached thread leaves nothing behind when it exits. */
  lemma DetachedLeavesNothing(t: Threads, code: nat, now: nat)
    requires Inv(t) && t.current != 0 && t.slots[t.current].state == Running && t.slots[t.current].detached
    ensures t.current < |ExitCurrent(t, code, now).0.slots| && ExitCurrent(t, code, now).0.slots[t.current] == EMPTY_SLOT
    ensures ExitCurrent(t, code, now).1.Some? && ExitCurrent(t, code, now).1.value.woken == None
  {
    hide Select;
    assert Linked(t.slots, t.current);
    SelectSpares(Stopped(t, code), now, None, t.current);
  }

  /** A join that blocks is answered by the exit it waits for: after every run that does not
      release the caller, the target's exit wakes the caller, hands it the code and runs it. */
  lemma BlockedJoinIsAnswered(t: Threads, target: nat, now: nat, ops: seq<ThreadOp>, code: nat, later: nat)
    requires Inv(t) && JoinCurrent(t, target, now).1 == Blocked
    requires NeverReleased(After(t, Join(target, now)), ops, t.current)
    requires var t' := RunFrom(After(t, Join(target, now)), ops);
             t'.current == target && t'.slots[target].state == Running
    ensures var t' := RunFrom(After(t, Join(target, now)), ops);
            var (t2, r) := ExitCurrent(t', code, later);
            && r == Some(ExitOutcome(Some(t.current), Some((t.current, code))))
            && t2.current == t.current && t2.slots[t.current].state == Running && t2.slots[target] == EMPTY_SLOT
  {
    hide Select;
    hide NeverReleased;
    var c := t.current;
    var t1 := After(t, Join(target, now));
    var linked := t.(slots := t.slots[target := t.slots[target].(joiner := Some(c))]);
    assert t1.slots[c].state == JoinBlocked(target) by {
      SelectSpares(Put(linked, c, JoinBlocked(target)), now, None, c);
    }
    ParkedThroughout(t1, ops, c);
    var t' := RunFrom(t1, ops);
    assert Waiting(t'.slots, c) && Linked(t'.slots, target);
    hide TableOk;
    JoinerRuns(t', code, later);
  }

  lemma JoinerRuns(t: Threads, code: nat, now: nat)
    requires Inv(t) && t.current != 0 && t.slots[t.current].state == Running && t.slots[t.current].joiner.Some?
    ensures var c := t.slots[t.current].joiner.value;
            var (t', r) := ExitCurrent(t, code, now);
            && r == Some(ExitOutcome(Some(c), Some((c, code)))) && c < |t'.slots| && t.current < |t'.slots|
            && t'.current == c && t'.slots[c].state == Running && t'.slots[t.current] == EMPTY_SLOT
  {
    ExitInv(t, code, now);
    StoppedIdle(t, code);
    assert Linked(t.slots, t.current);
    hide TableOk;
    hide Pick;
    SelectInv(Stopped(t, code), now, t.slots[t.current].joiner);
    SelectSpares(Stopped(t, code), now, t.slots[t.current].joiner, t.current);
  }

  // ----- Detached threads -----

  /** The slot is in use after every step of the run. */
  predicate NeverEmptied(t: Threads, ops: seq<ThreadOp>, i: nat)
    requires Inv(t) && i < |t.slots|
    decreases |ops|
  {
    t.slots[i].state != Empty && (ops == [] || (StepInv(t, ops[0]); NeverEmptied(Step(t, ops[0]), ops[1..], i)))
  }

  /** A thread does not become joinable again while its slot is in use. */
  lemma StaysDetached(t: Threads, op: ThreadOp, i: nat)
    requires Inv(t) && i < |t.slots| && t.slots[i].detached && t.slots[i].state != Empty
    requires i < |Step(t, op).slots| && Step(t, op).slots[i].state != Empty
    ensures Step(t, op).slots[i].detached
  {
    hide Select;
    hide FirstEmpty;
    hide TableOk;
    SelectFlags(i);
  }

  lemma SelectFlags(i: nat)
    ensures forall t: Threads, now, preferred :: t.cursor < |t.slots| && i < |t.slots| ==>
              && i < |Select(t, now, preferred).0.slots| && Select(t, now, preferred).0.slots[i].detached == t.slots[i].detached
              && (t.slots[i].state == Empty ==> Select(t, now, preferred).0.slots[i] == t.slots[i])
  {
    hide Pick;
  }

  lemma {:induction false} DetachedThroughout(t: Threads, ops: seq<ThreadOp>, i: nat)
    requires Inv(t) && i < |t.slots| && t.slots[i].detached && NeverEmptied(t, ops, i)
    ensures RunFrom(t, ops).slots[i].detached && RunFrom(t, ops).slots[i].state != Empty
    decreases |ops|
  {
    hide Step;
    hide TableOk;
    if ops != [] {
      StepInv(t, ops[0]);
      assert Step(t, ops[0]).slots[i].state != Empty;
      StaysDetached(t, ops[0], i);
      DetachedThroughout(Step(t, ops[0]), ops[1..], i);
    }
  }

  /** A detach that succeeds takes effect: a finished thread is reaped at once, and one still
      in use can never be joined and leaves nothing when it exits. */
  lemma DetachTakesEffect(t: Threads, target: nat, ops: seq<ThreadOp>, code: nat, now: nat)
    requires Inv(t) && Detach(t, target).1
    ensures target < |t.slots| && |After(t, DetachThread(target)).slots| == |t.slots|
    ensures t.slots[target].state.Zombie? ==> After(t, DetachThread(target)).slots[target] == EMPTY_SLOT
    ensures !t.slots[target].state.Zombie? && NeverEmptied(After(t, DetachThread(target)), ops, target) ==>
              var t' := RunFrom(After(t, DetachThread(target)), ops);
              && JoinCurrent(t', target, now).1 == Invalid
              && (t'.current == target && t'.slots[target].state == Running ==> ExitCurrent(t', code, now).0.slots[target] == EMPTY_SLOT)
  {
    hide Select;
    hide TableOk;
    var t1 := After(t, DetachThread(target));
    if !t.slots[target].state.Zombie? && NeverEmptied(t1, ops, target) {
      assert t1.slots[target].detached;
      DetachedThroughout(t1, ops, target);
      var t' := RunFrom(t1, ops);
      if t'.current == target && t'.slots[target].state == Running {
        DetachedLeavesNothing(t', code, now);
      }
    }
  }

  // ----- Sleeping and blocking -----

  /** A thread that sleeps is not run before its deadline, and at its first selection from
      then on it is ready to run or running. */
  lemma SleepsUntilDeadline(t: Threads, wakeAt: nat, now: nat, ops: seq<ThreadOp>, later: nat)
    requires Inv(t) && t.slots[t.current].state == Running && now < wakeAt
    requires NeverReleased(After(t, Sleep(wakeAt, now)), ops, t.current)
    ensures var t' := RunFrom(After(t, Sleep(wakeAt, now)), ops);
            && t'.slots[t.current].state == Sleeping(wakeAt)
            && (later < wakeAt ==> Select(t', later, None).1 != Some(t.current))
            && (wakeAt <= later ==> Select(t', later, None).0.slots[t.current].state in {Runnable, Running})
  {
    hide Select;
    hide TableOk;
    hide NeverReleased;
    SelectSpares(Put(t, t.current, Sleeping(wakeAt)), now, None, t.current);
    var t1 := After(t, Sleep(wakeAt, now));
    ParkedThroughout(t1, ops, t.current);
    SelectSpares(RunFrom(t1, ops), later, None, t.current);
  }

  // ----- New threads -----

  /** A thread is allocated whenever a slot beyond the first is empty; discarding it before
      it ran gives the table back as it was. */
  lemma AllocateThenDiscard(t: Threads, owner: nat)
    requires Inv(t)
    ensures AllocateFor(t, owner).1.Some? <==> exists k :: 0 < k < |t.slots| && t.slots[k].state == Empty
    ensures AllocateFor(t, owner).1.Some? ==>
              var (t', id) := AllocateFor(t, owner);
              && id.value < |t.slots| && t.slots[id.value].state == Empty
              && t' == t.(slots := t.slots[id.value := ThreadSlot(Runnable, None, false, owner)])
              && DiscardUnstarted(t', id.value) == (t, true)
  {
    if AllocateFor(t, owner).1.Some? {
      var (t', id) := AllocateFor(t, owner);
      assert DiscardUnstarted(t', id.value).0.slots == t.slots;
    }
  }

  /** Who may join whom: a join is answered at once by a finished thread, blocks on one that is
      not finished, and is refused for every other target. */
  lemma JoinOutcomes(t: Threads, target: nat, now: nat)
    requires Inv(t) && t.slots[t.current].state == Running
    ensures var joinable := 0 < target < |t.slots| && target != t.current && t.slots[target].state != Empty
                            && t.slots[target].owner == t.slots[t.current].owner && !t.slots[target].detached && t.slots[target].joiner.None?;
            var (t', x) := JoinCurrent(t, target, now);
            && (x == Invalid <==> !joinable)
            && (x.Completed? <==> joinable && t.slots[target].state.Zombie?)
            && (x == Invalid ==> t' == t)
            && (x == Blocked ==> |t'.slots| == |t.slots| && t'.slots[t.current].state == JoinBlocked(target) && t'.slots[target].joiner == Some(t.current))
  {
    hide Select;
    hide TableOk;
    if JoinCurrent(t, target, now).1 == Blocked {
      var linked := t.(slots := t.slots[target := t.slots[target].(joiner := Some(t.current))]);
      var waiting := Put(linked, t.current, JoinBlocked(target));
      SelectSpares(waiting, now, None, t.current);
      SelectJoiner(waiting, now, None, target);
    }
  }

  lemma SelectJoiner(t: Threads, now: nat, preferred: Option<nat>, i: nat)
    requires t.cursor < |t.slots| && i < |t.slots|
    ensures i < |Select(t, now, preferred).0.slots| && Select(t, now, preferred).0.slots[i].joiner == t.slots[i].joiner
  {
    hide Pick;
  }
}
