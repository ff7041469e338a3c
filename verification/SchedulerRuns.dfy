/** What every scheduler transition keeps, and where exit codes go. */
module SchedulerRuns {
  import opened Prelude
  import opened Scheduler

  /** A thread someone waits for: the link is two-way, inside one process, and the
      target can still exit. */
  predicate Linked(slots: seq<ThreadSlot>, i: nat)
    requires i < |slots|
  {
    slots[i].joiner.Some? ==>
      var c := slots[i].joiner.value;
      && c < |slots| && slots[c].state == JoinBlocked(i) && slots[c].owner == slots[i].owner
      && !slots[i].detached && slots[i].state != Empty && !slots[i].state.Zombie?
  }

  predicate Waiting(slots: seq<ThreadSlot>, c: nat)
    requires c < |slots|
  {
    slots[c].state.JoinBlocked? ==> slots[c].state.target < |slots| && slots[slots[c].state.target].joiner == Some(c)
  }

  /** Holds of the slots whatever the current thread is doing. */
  predicate TableOk(slots: seq<ThreadSlot>) {
    && 0 < |slots| <= 255
    && slots[0].state != Empty && !slots[0].state.Zombie? && slots[0].owner == INIT_PROCESS_ID && slots[0].joiner.None? && !slots[0].detached
    && (forall i :: 0 <= i < |slots| ==> Linked(slots, i))
    && (forall c :: 0 <= c < |slots| ==> Waiting(slots, c))
    && (forall i :: 0 <= i < |slots| && slots[i].state == Empty ==> slots[i] == EMPTY_SLOT)
  }

  predicate Inv(t: Threads) {
    && TableOk(t.slots) && t.current < |t.slots| && t.cursor == t.current
    && (forall i :: 0 <= i < |t.slots| && t.slots[i].state == Running ==> i == t.current)
  }

  /** The precondition every caller of a selection establishes first. */
  predicate Idle(t: Threads) {
    && TableOk(t.slots) && t.current < |t.slots| && t.cursor == t.current
    && (forall i :: 0 <= i < |t.slots| ==> t.slots[i].state != Running)
  }

  lemma InitialInv(n: nat)
    requires 0 < n <= 255
    ensures Inv(Initial(n))
  {
  }

  // ----- Changes that keep the join links -----

  /** States outside the join protocol and outside Empty and Zombie. */
  predicate Plain(s: ThreadState) {
    s.Runnable? || s.Running? || s.Sleeping? || s.ChannelBlocked?
  }

  lemma PutPlain(t: Threads, i: nat, s: ThreadState)
    requires TableOk(t.slots) && i < |t.slots| && Plain(s) && Plain(t.slots[i].state)
    ensures TableOk(Put(t, i, s).slots)
  {
    var u := Put(t, i, s).slots;
    forall k | 0 <= k < |u|
      ensures Linked(u, k) && Waiting(u, k)
    {
      assert Linked(t.slots, k) && Waiting(t.slots, k);
    }
  }

  lemma WokenOk(slots: seq<ThreadSlot>, now: nat)
    requires TableOk(slots)
    ensures TableOk(WakeExpired(slots, now))
  {
    var u := WakeExpired(slots, now);
    forall k | 0 <= k < |u|
      ensures Linked(u, k) && Waiting(u, k)
    {
      assert Linked(slots, k) && Waiting(slots, k);
    }
  }

  lemma SelectInv(t: Threads, now: nat, preferred: Option<nat>)
    requires Idle(t)
    ensures Inv(Select(t, now, preferred).0)
    ensures match Select(t, now, preferred).1
            case Some(id) => Select(t, now, preferred).0.current == id && Select(t, now, preferred).0.slots[id].state == Running
            case None => Idle(Select(t, now, preferred).0)
    ensures preferred.None? && Select(t, now, preferred).1.Some? ==> Nearest(WakeExpired(t.slots, now), t.cursor, Select(t, now, preferred).1.value)
    ensures preferred.None? && Select(t, now, preferred).1.None? ==> forall k :: 0 <= k < |t.slots| ==> WakeExpired(t.slots, now)[k].state != Runnable
  {
    hide TableOk;
    WokenOk(t.slots, now);
    var w := t.(slots := WakeExpired(t.slots, now));
    SomeSlots(t.slots);
    PickRange(w.slots, w.cursor);
    PickNearest(w.slots, w.cursor, 1);
    if Select(t, now, preferred).1.Some? {
      PutPlain(w, Select(t, now, preferred).1.value, Running);
    }
  }

  lemma SomeSlots(slots: seq<ThreadSlot>)
    requires TableOk(slots)
    ensures 0 < |slots| <= 255
  {
  }

  lemma PickRange(slots: seq<ThreadSlot>, cursor: nat)
    requires cursor < |slots|
    ensures forall k :: 0 <= k < |slots| ==> Distance(cursor, k, |slots|) >= 1
  {
  }

  /** Emptying a slot nobody waits for. */
  lemma VacateOk(t: Threads, i: nat)
    requires TableOk(t.slots) && 0 < i < |t.slots| && t.slots[i].joiner.None? && !t.slots[i].state.JoinBlocked?
    ensures TableOk(Vacate(t, i).slots)
  {
    var u := Vacate(t, i).slots;
    forall k | 0 <= k < |u|
      ensures Linked(u, k) && Waiting(u, k)
    {
      assert Linked(t.slots, k) && Waiting(t.slots, k);
    }
  }

  // ----- Operations -----

  lemma AllocateInv(t: Threads, owner: nat)
    requires Inv(t)
    ensures Inv(AllocateFor(t, owner).0)
  {
    var (t', id) := AllocateFor(t, owner);
    if id.Some? {
      var u := t'.slots;
      forall k | 0 <= k < |u|
        ensures Linked(u, k) && Waiting(u, k)
      {
        assert Linked(t.slots, k) && Waiting(t.slots, k);
      }
    }
  }

  lemma PurgedOk(slots: seq<ThreadSlot>, owner: nat)
    requires TableOk(slots) && owner != INIT_PROCESS_ID
    ensures TableOk(Purged(slots, owner))
  {
    var u := Purged(slots, owner);
    forall k | 0 <= k < |u|
      ensures Linked(u, k) && Waiting(u, k)
    {
      assert Linked(slots, k) && Waiting(slots, k);
      if slots[k].state.JoinBlocked? {
        assert Linked(slots, slots[k].state.target);
      }
    }
  }

  lemma ExitProcessInv(t: Threads, owner: nat, now: nat)
    requires Inv(t)
    ensures Inv(ExitProcess(t, owner, now).0)
    ensures ExitProcess(t, owner, now).1.Some? ==> forall i :: 0 <= i < |t.slots| ==> !OwnedBy(ExitProcess(t, owner, now).0.slots[i], owner)
  {
    if ExitProcess(t, owner, now).1.Some? {
      PurgedOk(t.slots, owner);
      var p := t.(slots := Purged(t.slots, owner));
      if p.slots[p.current].state == Empty {
        hide TableOk;
        SelectInv(p, now, None);
      }
    }
  }

  lemma DiscardInv(t: Threads, thread: nat)
    requires Inv(t) && thread != 0
    ensures Inv(DiscardUnstarted(t, thread).0)
  {
    if DiscardUnstarted(t, thread).1 {
      VacateOk(t, thread);
    }
  }

  lemma YieldInv(t: Threads, now: nat)
    requires Inv(t)
    ensures Inv(YieldCurrent(t, now).0)
  {
    hide TableOk;
    if t.slots[t.current].state == Running {
      PutPlain(t, t.current, Runnable);
      SelectInv(Put(t, t.current, Runnable), now, None);
    }
  }

  lemma SleepInv(t: Threads, wakeAt: nat, now: nat)
    requires Inv(t)
    ensures Inv(SleepCurrent(t, wakeAt, now).0)
  {
    hide TableOk;
    if t.slots[t.current].state == Running {
      PutPlain(t, t.current, Sleeping(wakeAt));
      SelectInv(Put(t, t.current, Sleeping(wakeAt)), now, None);
    }
  }

  lemma BlockInv(t: Threads)
    requires Inv(t)
    ensures Inv(BlockCurrent(t).0) && (BlockCurrent(t).1 ==> Idle(BlockCurrent(t).0))
  {
    hide TableOk;
    if t.slots[t.current].state == Running {
      PutPlain(t, t.current, ChannelBlocked);
    }
  }

  lemma WakeInv(t: Threads, thread: nat)
    requires Inv(t)
    ensures Inv(WakeWaiter(t, thread).0)
  {
    hide TableOk;
    if WakeWaiter(t, thread).1 {
      PutPlain(t, thread, Runnable);
    }
  }

  lemma AbortWaitInv(t: Threads)
    requires Inv(t)
    ensures Inv(AbortWait(t).0)
  {
    hide TableOk;
    if AbortWait(t).1 {
      PutPlain(t, t.current, Running);
    }
  }

  lemma JoinLinks(t: Threads, target: nat)
    requires Inv(t) && t.slots[t.current].state == Running && 0 < target < |t.slots| && target != t.current
    requires t.slots[target].owner == t.slots[t.current].owner && t.slots[target].state != Empty && !t.slots[target].state.Zombie?
    requires !t.slots[target].detached && t.slots[target].joiner.None?
    ensures Idle(Put(t.(slots := t.slots[target := t.slots[target].(joiner := Some(t.current))]), t.current, JoinBlocked(target)))
  {
    var linked := t.(slots := t.slots[target := t.slots[target].(joiner := Some(t.current))]);
    var u := Put(linked, t.current, JoinBlocked(target)).slots;
    forall k | 0 <= k < |u|
      ensures Linked(u, k) && Waiting(u, k)
    {
      assert Linked(t.slots, k) && Waiting(t.slots, k);
    }
  }

  lemma JoinInv(t: Threads, target: nat, now: nat)
    requires Inv(t)
    ensures Inv(JoinCurrent(t, target, now).0)
  {
    match JoinCurrent(t, target, now).1
    case Invalid =>
    case Completed(_) => VacateOk(t, target);
    case Blocked =>
      JoinLinks(t, target);
      hide TableOk;
      var linked := t.(slots := t.slots[target := t.slots[target].(joiner := Some(t.current))]);
      SelectInv(Put(linked, t.current, JoinBlocked(target)), now, None);
  }

  lemma AbortJoinInv(t: Threads)
    requires Inv(t)
    ensures Inv(AbortJoin(t).0)
  {
    var (t', r) := AbortJoin(t);
    if r.Some? {
      var target := t.slots[t.current].state.target;
      assert Waiting(t.slots, t.current) && Linked(t.slots, target);
      var u := t'.slots;
      forall k | 0 <= k < |u|
        ensures Linked(u, k) && Waiting(u, k)
      {
        assert Linked(t.slots, k) && Waiting(t.slots, k);
      }
    }
  }

  lemma DetachInv(t: Threads, target: nat)
    requires Inv(t)
    ensures Inv(Detach(t, target).0)
  {
    if Detach(t, target).1 {
      if t.slots[target].state.Zombie? {
        VacateOk(t, target);
      } else {
        var u := Detach(t, target).0.slots;
        forall k | 0 <= k < |u|
          ensures Linked(u, k) && Waiting(u, k)
        {
          assert Linked(t.slots, k) && Waiting(t.slots, k);
        }
      }
    }
  }

  lemma StoppedIdle(t: Threads, code: nat)
    requires Inv(t) && t.current != 0 && t.slots[t.current].state == Running
    ensures Idle(Stopped(t, code))
    ensures t.slots[t.current].joiner.Some? ==>
              var j := t.slots[t.current].joiner.value;
              j < |Stopped(t, code).slots| && Stopped(t, code).slots[j].state == Runnable
  {
    var u := Stopped(t, code).slots;
    assert Linked(t.slots, t.current);
    forall k | 0 <= k < |u|
      ensures Linked(u, k) && Waiting(u, k)
    {
      assert Linked(t.slots, k) && Waiting(t.slots, k);
    }
  }

  /** A waiting joiner runs next and gets the code; otherwise the code stays with
      the zombie, or is dropped with a detached thread. */
  lemma ExitInv(t: Threads, code: nat, now: nat)
    requires Inv(t)
    ensures Inv(ExitCurrent(t, code, now).0)
    ensures var (t', r) := ExitCurrent(t, code, now);
            r.Some? && t.slots[t.current].joiner.Some? ==>
              r.value.next == t.slots[t.current].joiner && r.value.woken == Some((t.slots[t.current].joiner.value, code))
  {
    if ExitCurrent(t, code, now).1.Some? {
      StoppedIdle(t, code);
      assert Linked(t.slots, t.current);
      hide TableOk;
      hide Stopped;
      SelectInv(Stopped(t, code), now, t.slots[t.current].joiner);
    }
  }

  // ----- Runs -----

  datatype ThreadOp =
    | Allocate(owner: nat)
    | ExitOwner(owner: nat, now: nat)
    | Discard(thread: nat)
    | Yield(now: nat)
    | Sleep(wakeAt: nat, now: nat)
    | Block
    | Wake(thread: nat)
    | Abort
    | Reselect(now: nat)
    | Join(target: nat, now: nat)
    | AbortBlockedJoin
    | DetachThread(target: nat)
    | Exit(exitCode: nat, now: nat)

  /** What the syscall layer promises: it selects only when the current thread has
      stopped running, and discards only threads it has just allocated. */
  predicate Callable(t: Threads, op: ThreadOp)
    requires t.current < |t.slots|
  {
    && (op.Reselect? ==> t.slots[t.current].state != Running)
    && (op.Discard? ==> op.thread != 0)
  }

  function Step(t: Threads, op: ThreadOp): Threads
    requires t.current < |t.slots| && t.cursor < |t.slots|
  {
    if !Callable(t, op) then t
    else match op
      case Allocate(owner) => AllocateFor(t, owner).0
      case ExitOwner(owner, now) => ExitProcess(t, owner, now).0
      case Discard(thread) => DiscardUnstarted(t, thread).0
      case Yield(now) => YieldCurrent(t, now).0
      case Sleep(wakeAt, now) => SleepCurrent(t, wakeAt, now).0
      case Block => BlockCurrent(t).0
      case Wake(thread) => WakeWaiter(t, thread).0
      case Abort => AbortWait(t).0
      case Reselect(now) => Select(t, now, None).0
      case Join(target, now) => JoinCurrent(t, target, now).0
      case AbortBlockedJoin => AbortJoin(t).0
      case DetachThread(target) => Detach(t, target).0
      case Exit(code, now) => ExitCurrent(t, code, now).0
  }

  lemma StepSize(t: Threads, op: ThreadOp)
    requires t.current < |t.slots| && t.cursor < |t.slots|
    ensures |Step(t, op).slots| == |t.slots|
  {
    hide Pick;
    hide FirstEmpty;
  }

  lemma StepInv(t: Threads, op: ThreadOp)
    requires Inv(t)
    ensures Inv(Step(t, op)) && |Step(t, op).slots| == |t.slots|
  {
    StepSize(t, op);
    hide TableOk;
    hide Select;
    hide Stopped;
    hide AllocateFor;
    hide ExitProcess;
    hide JoinCurrent;
    match op
    case Allocate(owner) => AllocateInv(t, owner);
    case ExitOwner(owner, now) => ExitProcessInv(t, owner, now);
    case Discard(thread) => if thread != 0 { DiscardInv(t, thread); }
    case Yield(now) => YieldInv(t, now);
    case Sleep(wakeAt, now) => SleepInv(t, wakeAt, now);
    case Block => BlockInv(t);
    case Wake(thread) => WakeInv(t, thread);
    case Abort => AbortWaitInv(t);
    case Reselect(now) => if t.slots[t.current].state != Running { SelectInv(t, now, None); }
    case Join(target, now) => JoinInv(t, target, now);
    case AbortBlockedJoin => AbortJoinInv(t);
    case DetachThread(target) => DetachInv(t, target);
    case Exit(code, now) => ExitInv(t, code, now);
  }

  datatype Event = Exited(thread: nat, code: nat) | Delivered(thread: nat, joiner: nat, code: nat)

  function Events(t: Threads, op: ThreadOp): seq<Event>
    requires t.current < |t.slots| && t.cursor < |t.slots|
  {
    match op
    case Join(target, now) =>
      var outcome := JoinCurrent(t, target, now).1;
      if outcome.Completed? then [Delivered(target, t.current, outcome.exitCode)] else []
    case Exit(code, now) =>
      (match ExitCurrent(t, code, now).1
       case None => []
       case Some(o) => [Exited(t.current, code)] + if o.woken.Some? then [Delivered(t.current, o.woken.value.0, o.woken.value.1)] else [])
    case _ => []
  }

  function RunFrom(t: Threads, ops: seq<ThreadOp>): (r: Threads)
    requires Inv(t)
    ensures Inv(r) && |r.slots| == |t.slots|
    decreases |ops|
  {
    if ops == [] then t else StepInv(t, ops[0]); RunFrom(Step(t, ops[0]), ops[1..])
  }

  function LogFrom(t: Threads, ops: seq<ThreadOp>, log: seq<Event>): seq<Event>
    requires Inv(t)
    decreases |ops|
  {
    if ops == [] then log else StepInv(t, ops[0]); LogFrom(Step(t, ops[0]), ops[1..], log + Events(t, ops[0]))
  }

  /** The last thing that happened to a thread id's exit code. */
  function LastFor(log: seq<Event>, thread: nat): Option<Event> {
    if log == [] then None
    else if log[|log| - 1].thread == thread then Some(log[|log| - 1])
    else LastFor(log[..|log| - 1], thread)
  }

  /** Only an exit that nobody has collected yet can be delivered. */
  predicate Justified(before: seq<Event>, e: Event) {
    e.Delivered? ==> LastFor(before, e.thread) == Some(Exited(e.thread, e.code))
  }

  predicate LogOk(log: seq<Event>) {
    forall k :: 0 <= k < |log| ==> Justified(log[..k], log[k])
  }

  predicate CodesKept(t: Threads, log: seq<Event>) {
    forall i :: 0 <= i < |t.slots| && t.slots[i].state.Zombie? ==> LastFor(log, i) == Some(Exited(i, t.slots[i].state.exitCode))
  }

  lemma LogGrows(log: seq<Event>, e: Event)
    requires LogOk(log) && Justified(log, e)
    ensures LogOk(log + [e])
    ensures forall i :: LastFor(log + [e], i) == if i == e.thread then Some(e) else LastFor(log, i)
  {
    var longer := log + [e];
    assert longer[..|longer| - 1] == log;
    forall k | 0 <= k < |longer|
      ensures Justified(longer[..k], longer[k])
    {
      assert longer[..k] == log[..k] || k == |log|;
    }
  }

  lemma SelectKeeps(i: nat)
    ensures forall t: Threads, now, preferred :: t.cursor < |t.slots| && i < |t.slots| ==>
              i < |Select(t, now, preferred).0.slots| && (Select(t, now, preferred).0.slots[i].state.Zombie? ==> Select(t, now, preferred).0.slots[i] == t.slots[i])
  {
    hide Pick;
  }

  /** A zombie is left alone until it is reaped, and only an exit makes one. */
  lemma ZombiesStay(t: Threads, op: ThreadOp, i: nat)
    requires Inv(t) && i < |t.slots| && i < |Step(t, op).slots| && Step(t, op).slots[i].state.Zombie?
    ensures || (t.slots[i].state == Step(t, op).slots[i].state && forall k :: 0 <= k < |Events(t, op)| ==> Events(t, op)[k].thread != i)
            || Events(t, op) == [Exited(i, Step(t, op).slots[i].state.exitCode)]
  {
    hide TableOk;
    hide Select;
    hide FirstEmpty;
    SelectKeeps(i);
    if op.Exit? && ExitCurrent(t, op.exitCode, op.now).1.Some? {
      assert i == t.current || t.slots[i].state == Step(t, op).slots[i].state;
    }
  }

  lemma StepCodes(t: Threads, op: ThreadOp, log: seq<Event>)
    requires Inv(t) && LogOk(log) && CodesKept(t, log)
    ensures LogOk(log + Events(t, op)) && CodesKept(Step(t, op), log + Events(t, op))
  {
    StepInv(t, op);
    hide LogOk;
    hide LastFor;
    hide Step;
    hide TableOk;
    var t' := Step(t, op);
    var events := Events(t, op);
    EventsJustified(t, op, log);
    forall i | 0 <= i < |t'.slots| && t'.slots[i].state.Zombie?
      ensures LastFor(log + events, i) == Some(Exited(i, t'.slots[i].state.exitCode))
    {
      ZombiesStay(t, op, i);
      if events == [Exited(i, t'.slots[i].state.exitCode)] {
        LogGrows(log, events[0]);
      }
    }
  }

  lemma EventsJustified(t: Threads, op: ThreadOp, log: seq<Event>)
    requires Inv(t) && LogOk(log) && CodesKept(t, log)
    ensures LogOk(log + Events(t, op))
    ensures forall i :: (forall k :: 0 <= k < |Events(t, op)| ==> Events(t, op)[k].thread != i) ==> LastFor(log + Events(t, op), i) == LastFor(log, i)
  {
    var events := Events(t, op);
    hide LogOk;
    hide LastFor;
    hide Select;
    hide TableOk;
    if |events| == 0 {
      assert log + events == log;
    } else {
      LogGrows(log, events[0]);
      if |events| == 2 {
        LogGrows(log + [events[0]], events[1]);
        assert log + events == log + [events[0]] + [events[1]];
      } else {
        assert events == [events[0]];
      }
    }
  }

  /** In every run an exit code reaches at most one joiner: each delivery is the
      first since that thread exited, and carries the code it exited with. */
  lemma {:induction false} EachCodeOnce(t: Threads, ops: seq<ThreadOp>, log: seq<Event>)
    requires Inv(t) && LogOk(log) && CodesKept(t, log)
    ensures LogOk(LogFrom(t, ops, log)) && CodesKept(RunFrom(t, ops), LogFrom(t, ops, log))
    decreases |ops|
  {
    hide LogOk;
    hide CodesKept;
    hide Step;
    if ops != [] {
      StepInv(t, ops[0]);
      StepCodes(t, ops[0], log);
      EachCodeOnce(Step(t, ops[0]), ops[1..], log + Events(t, ops[0]));
    }
  }

  /** The safety statement spelled out for every run from boot. */
  lemma EveryRun(n: nat, ops: seq<ThreadOp>)
    requires 0 < n <= 255
    ensures Inv(Initial(n))
    ensures var t := RunFrom(Initial(n), ops);
            && t.cursor == t.current < n == |t.slots|
            && t.slots[0].state != Empty && t.slots[0].owner == INIT_PROCESS_ID
            && (forall i :: 0 <= i < n && t.slots[i].state == Running ==> i == t.current)
            && (forall c, i :: 0 <= c < n && 0 <= i < n ==> (t.slots[c].state == JoinBlocked(i) <==> t.slots[i].joiner == Some(c)))
            && (forall c, i :: 0 <= c < n && 0 <= i < n && t.slots[i].joiner == Some(c) ==> t.slots[c].owner == t.slots[i].owner)
            && (forall i :: 0 <= i < n && (t.slots[i].state.Zombie? || t.slots[i].detached) ==> t.slots[i].joiner.None?)
            && LogOk(LogFrom(Initial(n), ops, []))
  {
    InitialInv(n);
    var t := RunFrom(Initial(n), ops);
    EachCodeOnce(Initial(n), ops, []);
    hide LogOk;
    forall c, i | 0 <= c < n && 0 <= i < n
      ensures t.slots[c].state == JoinBlocked(i) <==> t.slots[i].joiner == Some(c)
      ensures t.slots[i].joiner == Some(c) ==> t.slots[c].owner == t.slots[i].owner
    {
      assert Linked(t.slots, i) && Waiting(t.slots, c);
    }
    forall i | 0 <= i < n
      ensures t.slots[i].state.Zombie? || t.slots[i].detached ==> t.slots[i].joiner.None?
    {
      assert Linked(t.slots, i);
    }
  }
}
