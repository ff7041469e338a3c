/** Every syscall keeps the kernel's tables in agreement. */
module KernelSafety {
  import opened Prelude
  import opened Counts
  import opened Objects
  import opened Handles
  import opened KernelTables
  import W = Waits
  import M = IpcModel
  import L = IpcLedger
  import S = IpcSafety
  import C = IpcCollect
  import T = Scheduler
  import R = SchedulerRuns
  import X = ProcessExit

  // ----- Threads -----

  /** No slot changes hands between isolated processes, and nobody parks or wakes. */
  predicate Neutral(t: T.Threads, t': T.Threads) {
    && |t'.slots| == |t.slots|
    && forall i :: 0 <= i < |t.slots| ==>
         && Key(t'.slots[i]) == Key(t.slots[i])
         && (t'.slots[i].state == T.ChannelBlocked <==> t.slots[i].state == T.ChannelBlocked)
         && (t'.slots[i].owner == t.slots[i].owner || t'.slots[i].owner == INIT)
  }

  lemma NeutralCounts(t: T.Threads, t': T.Threads)
    requires Neutral(t, t') && Owned(t)
    ensures Owned(t') && forall pid: nat :: ThreadsOf(t', pid) == ThreadsOf(t, pid)
    ensures forall w: nat :: Parked(t', w) == Parked(t, w)
  {
    forall pid: nat
      ensures ThreadsOf(t', pid) == ThreadsOf(t, pid)
    {
      TotalSame(KeyW(pid), t'.slots, t.slots);
    }
  }

  lemma NeutralTrans(t: T.Threads, u: T.Threads, v: T.Threads)
    requires Neutral(t, u) && Neutral(u, v)
    ensures Neutral(t, v)
  {
  }

  lemma SelectNeutral(t: T.Threads, now: nat, preferred: Option<nat>)
    requires t.cursor < |t.slots|
    ensures Neutral(t, T.Select(t, now, preferred).0)
  {
    hide T.Pick;
  }

  /** Waiting for a thread either dispatches one or changes nothing that matters. */
  lemma WaitSafe(t: T.Threads, now: nat, slack: nat)
    requires R.Idle(t)
    ensures var (t', next) := SelectOrWait(t, now, slack);
            && R.Inv(t') && Neutral(t, t')
            && (next.None? ==> R.Idle(t') && t'.current == t.current)
  {
    hide R.TableOk;
    hide T.Select;
    hide Earliest;
    R.SelectInv(t, now, None);
    SelectNeutral(t, now, None);
    var (t1, next) := T.Select(t, now, None);
    if next.None? {
      UnmovedSelect(t, now);
      if Earliest(t1.slots).Some? {
        var later := Earliest(t1.slots).value + slack;
        R.SelectInv(t1, later, None);
        SelectNeutral(t1, later, None);
        UnmovedSelect(t1, later);
        NeutralTrans(t, t1, T.Select(t1, later, None).0);
      }
    }
  }

  lemma UnmovedSelect(t: T.Threads, now: nat)
    requires t.cursor < |t.slots|
    ensures T.Select(t, now, None).1.None? ==> T.Select(t, now, None).0.current == t.current
  {
  }

  /** With a sleeper around the wait always ends with a thread to run. */
  lemma SleeperEndsWait(t: T.Threads, now: nat, slack: nat)
    requires R.Idle(t) && exists k :: 0 <= k < |t.slots| && t.slots[k].state.Sleeping?
    ensures SelectOrWait(t, now, slack).1.Some?
  {
    hide R.TableOk;
    hide T.Select;
    hide Earliest;
    R.SelectInv(t, now, None);
    var (t1, next) := T.Select(t, now, None);
    if next.None? {
      SelectNothing(t, now);
      var k :| 0 <= k < |t.slots| && t.slots[k].state.Sleeping?;
      assert t1.slots[k] == T.WakeExpired(t.slots, now)[k];
      assert Earliest(t1.slots).Some?;
      LaterWakes(t1, Earliest(t1.slots).value + slack);
    }
  }

  lemma LaterWakes(t: T.Threads, later: nat)
    requires R.Idle(t) && Earliest(t.slots).Some? && Earliest(t.slots).value <= later
    ensures T.Select(t, later, None).1.Some?
  {
    hide R.TableOk;
    hide T.Select;
    hide Earliest;
    var wake := Earliest(t.slots).value;
    var j :| 0 <= j < |t.slots| && t.slots[j].state == T.Sleeping(wake);
    R.SelectInv(t, later, None);
    assert T.WakeExpired(t.slots, later)[j].state == T.Runnable;
  }

  lemma SelectNothing(t: T.Threads, now: nat)
    requires t.cursor < |t.slots| && T.Select(t, now, None).1.None?
    ensures T.Select(t, now, None).0 == t.(slots := T.WakeExpired(t.slots, now))
  {
  }

  // ----- IPC -----

  function IdKey(p: Option<M.Proc>): nat {
    if p.Some? && p.value.id != INIT then p.value.id else 0
  }

  predicate SameIds(s: M.Ipc, s': M.Ipc) {
    |s'.procs| == |s.procs| && forall i :: 0 <= i < |s.procs| ==> IdKey(s'.procs[i]) == IdKey(s.procs[i])
  }

  lemma SameIdsCount(s: M.Ipc, s': M.Ipc)
    requires SameIds(s, s')
    ensures forall pid: nat :: pid >= X.FIRST_ISOLATED_PROCESS_ID ==> ProcsOf(s', pid) == ProcsOf(s, pid)
  {
    forall pid: nat | pid >= X.FIRST_ISOLATED_PROCESS_ID
      ensures ProcsOf(s', pid) == ProcsOf(s, pid)
    {
      TotalSame(ProcW(pid), s'.procs, s.procs);
    }
  }

  lemma BootedIds(s: M.Ipc)
    ensures SameIds(s, M.Booted(s)) && M.Booted(s).regs == s.regs
  {
    hide Create;
  }

  lemma CreatePairIds(s: M.Ipc, pid: nat)
    ensures SameIds(s, M.CreatePair(s, pid).0) && M.CreatePair(s, pid).0.regs == s.regs
  {
    BootedIds(s);
    hide M.Booted;
    hide M.CreateThree;
    hide M.InsertTwo;
    hide ReleaseAll;
    hide M.FindProc;
  }

  lemma ReceiveIds(s: M.Ipc, pid: nat, endpoint: Handle)
    ensures SameIds(s, M.Receive(s, pid, endpoint).0) && M.Receive(s, pid, endpoint).0.regs == s.regs
  {
    BootedIds(s);
    hide M.Booted;
    hide M.Locate;
    hide Require;
    hide InstallAll;
    hide M.FirstInvalid;
    hide FreeCount;
    hide M.FindProc;
  }

  lemma CloseIds(s: M.Ipc, pid: nat, h: Handle)
    ensures SameIds(s, M.CloseEndpoint(s, pid, h).0) && M.CloseEndpoint(s, pid, h).0.regs == s.regs
  {
    BootedIds(s);
    hide M.Booted;
    hide M.Locate;
    hide CloseHandle;
    hide ReleaseAll;
    hide M.Garbage;
    hide M.Survivors;
    hide M.FindProc;
  }

  lemma SendIds(s: M.Ipc, pid: nat, endpoint: Handle, r: M.SendRequest)
    ensures SameIds(s, M.Send(s, pid, endpoint, r).0)
    ensures M.Send(s, pid, endpoint, r).1.Err? ==> M.Send(s, pid, endpoint, r).0.regs == s.regs
    ensures M.Send(s, pid, endpoint, r).1.Ok? ==>
              exists o :: M.Send(s, pid, endpoint, r).0.regs == M.Unwaited(s.regs, o) && M.Send(s, pid, endpoint, r).1.value == M.WokenBy(s.regs, o)
  {
    BootedIds(s);
    hide M.Booted;
    hide M.Locate;
    hide Require;
    hide CheckAll;
    hide MoveAll;
    hide M.FindProc;
    hide Total;
    hide M.Unwaited;
    hide M.WokenBy;
  }

  lemma WaitIds(s: M.Ipc, pid: nat, endpoint: Handle, waiter: nat)
    ensures var (s', r) := M.WaitReadable(s, pid, endpoint, waiter, true);
            && SameIds(s, s')
            && (r == Ok(M.IsBlocked) ==>
                  exists o :: s'.regs == W.Place(W.ClearWaiter(s.regs, waiter), W.Registration(waiter, 1, o, {W.Readable}, 0))
                              && W.Occupied(W.ClearWaiter(s.regs, waiter)) + 1 <= W.MAX_WAIT_WAKEUPS)
            && (r != Ok(M.IsBlocked) ==> s'.regs == s.regs || s'.regs == W.ClearWaiter(s.regs, waiter))
  {
    BootedIds(s);
    hide M.Booted;
    hide M.Locate;
    hide Require;
    hide M.FindProc;
    hide W.Occupied;
    hide W.Place;
    hide W.ClearWaiter;
  }

  lemma SpawnIds(s: M.Ipc, child: nat, endpoint: Handle, rights: Rights)
    ensures var (s', r) := M.Spawn(s, INIT, child, endpoint, rights);
            && s'.regs == s.regs
            && (r.Err? ==> SameIds(s, s'))
            && (r.Ok? ==> exists i :: 0 <= i < |s.procs| && |s'.procs| == |s.procs| && IdKey(s.procs[i]) == 0 && s'.procs[i].Some? && s'.procs[i].value.id == child
                            && forall k :: 0 <= k < |s.procs| && k != i ==> IdKey(s'.procs[k]) == IdKey(s.procs[k]))
  {
    BootedIds(s);
    hide M.Booted;
    hide M.Locate;
    hide Create;
    hide BeginMove;
    hide Install;
    hide M.EmptyTable;
    hide M.FindProc;
    var (s', r) := M.Spawn(s, INIT, child, endpoint, rights);
    if r.Ok? {
      var i := FirstNone(M.Booted(s).procs).value;
      assert s'.procs[i].value.id == child;
    }
  }

  lemma ExitIds(s: M.Ipc, pid: nat)
    ensures var (s', r) := M.ExitProcess(s, pid);
            && s'.regs == s.regs
            && (r.Err? ==> s' == s)
            && (r.Ok? ==> exists i :: 0 <= i < |s.procs| && s.procs[i].Some? && s.procs[i].value.id == pid && s'.procs == s.procs[i := None])
  {
    hide ReleaseAll;
    hide M.Garbage;
    hide M.Survivors;
    var (s', r) := M.ExitProcess(s, pid);
    if r.Ok? {
      var i := M.ProcIndex(s, pid).value;
      assert s'.procs == s.procs[i := None];
    }
  }

  // ----- Registrations -----

  lemma ClearedRegs(regs: W.Registrations, waiter: nat, w: nat)
    ensures Total(RegW(w), W.ClearWaiter(regs, waiter)) == if w == waiter then 0 else Total(RegW(w), regs)
  {
    var cleared := W.ClearWaiter(regs, waiter);
    if w == waiter {
      TotalZero(RegW(w), cleared);
    } else {
      TotalSame(RegW(w), cleared, regs);
    }
  }

  lemma {:induction false} PlacedRegs(regs: W.Registrations, r: W.Registration, w: nat)
    requires exists k :: 0 <= k < |regs| && regs[k].None?
    ensures Total(RegW(w), W.Place(regs, r)) == Total(RegW(w), regs) + if r.waiter == w then 1 else 0
  {
    if regs[0].None? {
      assert W.Place(regs, r)[1..] == regs[1..];
    } else {
      var k :| 0 <= k < |regs| && regs[k].None?;
      assert regs[1..][k - 1].None?;
      PlacedRegs(regs[1..], r, w);
      assert W.Place(regs, r)[1..] == W.Place(regs[1..], r);
    }
  }

  /** A notification takes exactly the woken waiters' registrations away. */
  lemma UnwaitedRegs(s: M.Ipc, o: ObjectId, w: nat)
    requires L.Quiet(s)
    ensures Total(RegW(w), M.Unwaited(s.regs, o)) + (if w in M.WokenBy(s.regs, o) then 1 else 0) == Total(RegW(w), s.regs)
  {
    var regs, left := s.regs, M.Unwaited(s.regs, o);
    assert forall i :: 0 <= i < |regs| ==> left[i] == if W.Matches(regs[i], o, {W.Readable}) then None else regs[i];
    if w in M.WokenBy(regs, o) {
      var i :| 0 <= i < |regs| && W.Matches(regs[i], o, {W.Readable}) && regs[i].value.waiter == w;
      TotalUpdate(RegW(w), regs, i, None);
      TotalSame(RegW(w), left, regs[i := None]);
    } else {
      TotalSame(RegW(w), left, regs);
    }
  }

  // ----- Steps of one table -----

  lemma ThreadStep(k: Kernel, t: T.Threads)
    requires Consistent(k) && R.Inv(t) && Neutral(k.threads, t)
    ensures Consistent(k.(threads := t))
  {
    NeutralCounts(k.threads, t);
    hide R.Inv;
    hide X.Inv;
    hide L.Inv;
    hide Neutral;
    hide Total;
    hide ThreadsOf;
    hide Parked;
    var k' := k.(threads := t);
    forall pid: nat | pid >= X.FIRST_ISOLATED_PROCESS_ID
      ensures Agree(k', pid)
    {
      assert Agree(k, pid);
    }
    forall w: nat
      ensures OneReason(k', w)
    {
      assert OneReason(k, w);
    }
  }

  lemma IpcStep(k: Kernel, s: M.Ipc)
    requires Consistent(k) && L.Inv(s)
    requires forall pid: nat :: pid >= X.FIRST_ISOLATED_PROCESS_ID ==> ProcsOf(s, pid) == ProcsOf(k.ipc, pid)
    requires forall w: nat :: RegsOf(s, w) == RegsOf(k.ipc, w)
    ensures Consistent(k.(ipc := s))
  {
    hide R.Inv;
    hide X.Inv;
    hide L.Inv;
    hide Total;
    hide ProcsOf;
    hide RegsOf;
    var k' := k.(ipc := s);
    forall pid: nat | pid >= X.FIRST_ISOLATED_PROCESS_ID
      ensures Agree(k', pid)
    {
      assert Agree(k, pid);
    }
    forall w: nat
      ensures OneReason(k', w)
    {
      assert OneReason(k, w);
    }
  }

  lemma CreatePairSafe(k: Kernel)
    requires Consistent(k)
    ensures Consistent(k.(ipc := M.CreatePair(k.ipc, Caller(k)).0))
  {
    hide L.Inv;
    hide R.TableOk;
    hide X.Inv;
    var s := M.CreatePair(k.ipc, Caller(k)).0;
    S.CreatePairInv(k.ipc, Caller(k));
    CreatePairIds(k.ipc, Caller(k));
    hide M.CreatePair;
    SameIdsCount(k.ipc, s);
    IpcStep(k, s);
  }

  lemma ReceiveSafe(k: Kernel, endpoint: Handle)
    requires Consistent(k)
    ensures Consistent(k.(ipc := M.Receive(k.ipc, Caller(k), endpoint).0))
  {
    hide L.Inv;
    hide R.TableOk;
    hide X.Inv;
    hide M.Receive;
    var s := M.Receive(k.ipc, Caller(k), endpoint).0;
    S.ReceiveInv(k.ipc, Caller(k), endpoint);
    ReceiveIds(k.ipc, Caller(k), endpoint);
    SameIdsCount(k.ipc, s);
    IpcStep(k, s);
  }

  lemma CloseSafe(k: Kernel, endpoint: Handle)
    requires Consistent(k)
    ensures Consistent(k.(ipc := M.CloseEndpoint(k.ipc, Caller(k), endpoint).0))
  {
    hide L.Inv;
    hide R.TableOk;
    hide X.Inv;
    hide M.CloseEndpoint;
    hide M.Reachable;
    var s := M.CloseEndpoint(k.ipc, Caller(k), endpoint).0;
    C.CloseInv(k.ipc, Caller(k), endpoint);
    CloseIds(k.ipc, Caller(k), endpoint);
    SameIdsCount(k.ipc, s);
    IpcStep(k, s);
  }

  lemma YieldSafe(k: Kernel, now: nat)
    requires Consistent(k)
    ensures Consistent(k.(threads := T.YieldCurrent(k.threads, now).0))
  {
    hide L.Inv;
    hide X.Inv;
    var t := k.threads;
    R.YieldInv(t, now);
    if t.slots[t.current].state == T.Running {
      var u := T.Put(t, t.current, T.Runnable);
      SelectNeutral(u, now, None);
      NeutralTrans(t, u, T.Select(u, now, None).0);
    }
    ThreadStep(k, T.YieldCurrent(t, now).0);
  }

  lemma SleepSafe(k: Kernel, wakeAt: nat, now: nat, slack: nat)
    requires Consistent(k) && k.threads.slots[k.threads.current].state == T.Running
    ensures Consistent(ThreadSleep(k, wakeAt, now, slack))
  {
    hide L.Inv;
    hide X.Inv;
    hide T.Select;
    hide SelectOrWait;
    var t := k.threads;
    R.SleepInv(t, wakeAt, now);
    var u := T.Put(t, t.current, T.Sleeping(wakeAt));
    R.PutPlain(t, t.current, T.Sleeping(wakeAt));
    R.SelectInv(u, now, None);
    SelectNeutral(u, now, None);
    var (t1, next) := T.SleepCurrent(t, wakeAt, now);
    NeutralTrans(t, u, t1);
    if next.None? {
      WaitSafe(t1, now, slack);
      NeutralTrans(t, t1, SelectOrWait(t1, now, slack).0);
    }
    ThreadStep(k, ThreadSleep(k, wakeAt, now, slack).threads);
  }

  lemma CreateThreadSafe(k: Kernel, detached: bool, tlsOk: bool)
    requires Consistent(k) && Caller(k) == INIT
    ensures Consistent(ThreadCreate(k, detached, tlsOk))
  {
    hide L.Inv;
    hide X.Inv;
    hide T.FirstEmpty;
    var t := k.threads;
    R.AllocateInv(t, INIT);
    var (t1, id) := T.AllocateFor(t, INIT);
    if id.Some? {
      R.DetachInv(t1, id.value);
      var (t2, ok) := if detached then T.Detach(t1, id.value) else (t1, true);
      R.DiscardInv(t2, id.value);
      hide R.Inv;
      assert Neutral(t, t1) && Neutral(t, t2) && Neutral(t, T.DiscardUnstarted(t2, id.value).0);
      ThreadStep(k, ThreadCreate(k, detached, tlsOk).threads);
    }
  }

  lemma DetachSafe(k: Kernel, target: nat)
    requires Consistent(k) && Caller(k) == INIT
    ensures Consistent(k.(threads := T.Detach(k.threads, target).0))
  {
    hide L.Inv;
    hide X.Inv;
    R.DetachInv(k.threads, target);
    ThreadStep(k, T.Detach(k.threads, target).0);
  }

  lemma JoinNeutral(t: T.Threads, target: nat, now: nat)
    requires R.Inv(t) && t.slots[t.current].owner == INIT
    ensures Neutral(t, T.JoinCurrent(t, target, now).0)
    ensures T.JoinCurrent(t, target, now).1 == T.Blocked && T.JoinCurrent(t, target, now).0.current == t.current ==> R.Idle(T.JoinCurrent(t, target, now).0)
  {
    hide T.Select;
    if T.JoinCurrent(t, target, now).1 == T.Blocked {
      var linked := t.(slots := t.slots[target := t.slots[target].(joiner := Some(t.current))]);
      var u := T.Put(linked, t.current, T.JoinBlocked(target));
      R.JoinLinks(t, target);
      R.SelectInv(u, now, None);
      SelectNeutral(u, now, None);
      NeutralTrans(t, u, T.Select(u, now, None).0);
      PickedRunnable(u, now);
    }
  }

  lemma PickedRunnable(t: T.Threads, now: nat)
    requires t.cursor < |t.slots|
    ensures T.Select(t, now, None).1.Some? ==>
              var id := T.Select(t, now, None).1.value;
              id < |t.slots| && (t.slots[id].state == T.Runnable || t.slots[id].state.Sleeping?)
  {
  }

  lemma AbortJoinNeutral(t: T.Threads)
    requires t.current < |t.slots|
    ensures Neutral(t, T.AbortJoin(t).0)
  {
  }

  lemma JoinSafe(k: Kernel, target: nat, now: nat, slack: nat)
    requires Consistent(k) && Caller(k) == INIT
    ensures Consistent(ThreadJoin(k, target, now, slack))
  {
    hide L.Inv;
    hide X.Inv;
    hide R.TableOk;
    hide T.JoinCurrent;
    hide SelectOrWait;
    hide T.AbortJoin;
    var t := k.threads;
    R.JoinInv(t, target, now);
    JoinNeutral(t, target, now);
    var (t1, outcome) := T.JoinCurrent(t, target, now);
    if outcome == T.Blocked && t1.current == t.current {
      WaitSafe(t1, now, slack);
      var (t2, next) := SelectOrWait(t1, now, slack);
      NeutralTrans(t, t1, t2);
      R.AbortJoinInv(t2);
      AbortJoinNeutral(t2);
      NeutralTrans(t, t2, T.AbortJoin(t2).0);
    }
    ThreadStep(k, ThreadJoin(k, target, now, slack).threads);
  }

  lemma ExitNeutral(t: T.Threads, code: nat, now: nat)
    requires R.Inv(t) && t.slots[t.current].owner == INIT
    ensures Neutral(t, T.ExitCurrent(t, code, now).0)
    ensures T.ExitCurrent(t, code, now).1.Some? && T.ExitCurrent(t, code, now).1.value.next.None? ==> R.Idle(T.ExitCurrent(t, code, now).0)
  {
    hide T.Select;
    if T.ExitCurrent(t, code, now).1.Some? {
      R.StoppedIdle(t, code);
      var u := T.Stopped(t, code);
      R.SelectInv(u, now, t.slots[t.current].joiner);
      SelectNeutral(u, now, t.slots[t.current].joiner);
      NeutralTrans(t, u, T.Select(u, now, t.slots[t.current].joiner).0);
    }
  }

  lemma ExitThreadSafe(k: Kernel, code: nat, now: nat, slack: nat)
    requires Consistent(k) && Caller(k) == INIT
    ensures Consistent(ThreadExit(k, code, now, slack))
  {
    hide L.Inv;
    hide X.Inv;
    hide R.TableOk;
    hide T.ExitCurrent;
    hide SelectOrWait;
    var t := k.threads;
    R.ExitInv(t, code, now);
    ExitNeutral(t, code, now);
    var (t1, outcome) := T.ExitCurrent(t, code, now);
    if outcome.Some? && outcome.value.next.None? {
      WaitSafe(t1, now, slack);
      NeutralTrans(t, t1, SelectOrWait(t1, now, slack).0);
    }
    ThreadStep(k, ThreadExit(k, code, now, slack).threads);
  }

  // ----- Steps across tables -----

  /** Every count but waiter `me`'s is as before, and `me` is accounted for. */
  lemma Rechecked(k: Kernel, k': Kernel, me: nat)
    requires Consistent(k)
    requires R.Inv(k'.threads) && Owned(k'.threads) && X.Inv(k'.exits) && L.Inv(k'.ipc) && k'.children == k.children
    requires forall pid: nat :: pid >= X.FIRST_ISOLATED_PROCESS_ID ==>
               ThreadsOf(k'.threads, pid) == ThreadsOf(k.threads, pid) && LiveOf(k'.exits, pid) == LiveOf(k.exits, pid) && ProcsOf(k'.ipc, pid) == ProcsOf(k.ipc, pid)
    requires forall w: nat :: w != me ==>
               Parked(k'.threads, w) == Parked(k.threads, w) && RegsOf(k'.ipc, w) == RegsOf(k.ipc, w) && WaitsOf(k'.exits, w) == WaitsOf(k.exits, w)
    requires OneReason(k', me)
    ensures Consistent(k')
  {
    hide R.Inv;
    hide X.Inv;
    hide L.Inv;
    hide ThreadsOf;
    hide LiveOf;
    hide ProcsOf;
    hide ChildrenOf;
    hide RegsOf;
    hide WaitsOf;
    hide Parked;
    forall pid: nat | pid >= X.FIRST_ISOLATED_PROCESS_ID
      ensures Agree(k', pid)
    {
      assert Agree(k, pid);
    }
    forall w: nat
      ensures OneReason(k', w)
    {
      assert OneReason(k, w);
    }
  }

  /** Changing the state of one occupied slot changes no process's thread count. */
  lemma PutCounts(t: T.Threads, i: nat, state: T.ThreadState)
    requires i < |t.slots| && t.slots[i].state != T.Empty && state != T.Empty && Owned(t)
    ensures Owned(T.Put(t, i, state)) && forall pid: nat :: ThreadsOf(T.Put(t, i, state), pid) == ThreadsOf(t, pid)
    ensures forall w: nat :: w != i ==> Parked(T.Put(t, i, state), w) == Parked(t, w)
    ensures Parked(T.Put(t, i, state), i) == if state == T.ChannelBlocked then 1 else 0
  {
    forall pid: nat
      ensures ThreadsOf(T.Put(t, i, state), pid) == ThreadsOf(t, pid)
    {
      TotalSame(KeyW(pid), T.Put(t, i, state).slots, t.slots);
    }
  }

  /** The running thread holds no registration at all. */
  lemma RunningFree(k: Kernel)
    requires Consistent(k) && k.threads.slots[k.threads.current].state == T.Running
    ensures RegsOf(k.ipc, k.threads.current) == 0 && WaitsOf(k.exits, k.threads.current) == 0
  {
    hide R.Inv;
    hide X.Inv;
    hide L.Inv;
    assert OneReason(k, k.threads.current);
  }

  lemma WakeAllInv(t: T.Threads, woken: set<nat>)
    requires R.Inv(t)
    ensures R.Inv(WakeAll(t, woken))
  {
    var u := WakeAll(t, woken).slots;
    forall k | 0 <= k < |u|
      ensures R.Linked(u, k) && R.Waiting(u, k)
    {
      assert R.Linked(t.slots, k) && R.Waiting(t.slots, k);
    }
  }

  lemma WakeAllCounts(t: T.Threads, woken: set<nat>)
    requires Owned(t)
    ensures Owned(WakeAll(t, woken)) && forall pid: nat :: ThreadsOf(WakeAll(t, woken), pid) == ThreadsOf(t, pid)
    ensures forall w: nat :: Parked(WakeAll(t, woken), w) == if w in woken then 0 else Parked(t, w)
  {
    forall pid: nat
      ensures ThreadsOf(WakeAll(t, woken), pid) == ThreadsOf(t, pid)
    {
      TotalSame(KeyW(pid), WakeAll(t, woken).slots, t.slots);
    }
  }

  lemma SendSafe(k: Kernel, endpoint: Handle, request: M.SendRequest)
    requires Consistent(k)
    ensures Consistent(ChannelSend(k, endpoint, request))
  {
    hide R.TableOk;
    hide X.Inv;
    hide M.Send;
    hide M.Unwaited;
    hide M.WokenBy;
    hide L.Linear;
    hide Exact;
    hide L.Quiet;
    hide Total;
    var (s, r) := M.Send(k.ipc, Caller(k), endpoint, request);
    S.SendInv(k.ipc, Caller(k), endpoint, request);
    SendIds(k.ipc, Caller(k), endpoint, request);
    SameIdsCount(k.ipc, s);
    if r.Err? {
      IpcStep(k, s);
    } else {
      var o :| s.regs == M.Unwaited(k.ipc.regs, o) && r.value == M.WokenBy(k.ipc.regs, o);
      var k' := ChannelSend(k, endpoint, request);
      WakeAllInv(k.threads, r.value);
      WakeAllCounts(k.threads, r.value);
      SendAgrees(k, k', o);
    }
  }

  lemma SendAgrees(k: Kernel, k': Kernel, o: ObjectId)
    requires Consistent(k) && R.Inv(k'.threads) && Owned(k'.threads) && L.Inv(k'.ipc) && k'.exits == k.exits && k'.children == k.children
    requires k'.ipc.regs == M.Unwaited(k.ipc.regs, o)
    requires forall pid: nat :: pid >= X.FIRST_ISOLATED_PROCESS_ID ==> ProcsOf(k'.ipc, pid) == ProcsOf(k.ipc, pid) && ThreadsOf(k'.threads, pid) == ThreadsOf(k.threads, pid)
    requires forall w: nat :: Parked(k'.threads, w) == if w in M.WokenBy(k.ipc.regs, o) then 0 else Parked(k.threads, w)
    ensures Consistent(k')
  {
    hide R.Inv;
    hide X.Inv;
    hide M.Unwaited;
    hide M.WokenBy;
    hide L.Linear;
    hide Exact;
    hide L.Quiet;
    hide Total;
    forall pid: nat | pid >= X.FIRST_ISOLATED_PROCESS_ID
      ensures Agree(k', pid)
    {
      assert Agree(k, pid);
    }
    forall w: nat
      ensures OneReason(k', w)
    {
      assert OneReason(k, w);
      UnwaitedRegs(k.ipc, o, w);
    }
  }

  // ----- Waiting -----

  lemma RoomLeft(regs: W.Registrations)
    requires W.Occupied(regs) < |regs|
    ensures exists k :: 0 <= k < |regs| && regs[k].None?
  {
    if forall k :: 0 <= k < |regs| ==> regs[k].Some? {
      AllFilled(regs);
    }
  }

  lemma {:induction false} AllFilled(regs: W.Registrations)
    requires forall k :: 0 <= k < |regs| ==> regs[k].Some?
    ensures W.Occupied(regs) == |regs|
  {
    if regs != [] {
      AllFilled(regs[1..]);
    }
  }

  /** What `wait_readable` does to the registrations of a thread that has none. */
  lemma WaitRegs(s: M.Ipc, pid: nat, endpoint: Handle, me: nat)
    requires L.Inv(s) && RegsOf(s, me) == 0
    ensures var (s', r) := M.WaitReadable(s, pid, endpoint, me, true);
            forall w: nat :: RegsOf(s', w) == RegsOf(s, w) + if w == me && r == Ok(M.IsBlocked) then 1 else 0
  {
    hide L.Linear;
    hide Exact;
    hide Total;
    hide W.Place;
    hide W.Occupied;
    hide M.WaitReadable;
    WaitIds(s, pid, endpoint, me);
    var (s', r) := M.WaitReadable(s, pid, endpoint, me, true);
    var cleared := W.ClearWaiter(s.regs, me);
    if r == Ok(M.IsBlocked) {
      RoomLeft(cleared);
      var o :| s'.regs == W.Place(cleared, W.Registration(me, 1, o, {W.Readable}, 0));
      forall w: nat
        ensures RegsOf(s', w) == RegsOf(s, w) + if w == me then 1 else 0
      {
        ClearedRegs(s.regs, me, w);
        PlacedRegs(cleared, W.Registration(me, 1, o, {W.Readable}, 0), w);
      }
    } else {
      forall w: nat
        ensures RegsOf(s', w) == RegsOf(s, w)
      {
        ClearedRegs(s.regs, me, w);
      }
    }
  }

  lemma ChannelWaitSafe(k: Kernel, endpoint: Handle, now: nat, slack: nat)
    requires Consistent(k) && k.threads.slots[k.threads.current].state == T.Running
    ensures Consistent(ChannelWait(k, endpoint, now, slack))
  {
    hide R.TableOk;
    hide X.Inv;
    hide L.Inv;
    hide M.WaitReadable;
    hide SelectOrWait;
    hide Total;
    var me := k.threads.current;
    var (s, outcome) := M.WaitReadable(k.ipc, Caller(k), endpoint, me, true);
    RunningFree(k);
    S.WaitReadableInv(k.ipc, Caller(k), endpoint, me, true);
    WaitIds(k.ipc, Caller(k), endpoint, me);
    SameIdsCount(k.ipc, s);
    WaitRegs(k.ipc, Caller(k), endpoint, me);
    if outcome != Ok(M.IsBlocked) {
      IpcStep(k, s);
    } else {
      var parked := T.Put(k.threads, me, T.ChannelBlocked);
      R.BlockInv(k.threads);
      PutCounts(k.threads, me, T.ChannelBlocked);
      var k1 := k.(ipc := s, threads := parked);
      Rechecked(k, k1, me);
      WaitSafe(parked, now, slack);
      var (t, next) := SelectOrWait(parked, now, slack);
      ThreadStep(k1, t);
      if next.None? {
        ReasonDropped(k1.(threads := t));
      }
    }
  }

  /** The current thread gives up its Channel registration and runs on. */
  lemma ReasonDropped(k: Kernel)
    requires Consistent(k) && k.threads.slots[k.threads.current].state == T.ChannelBlocked && WaitsOf(k.exits, k.threads.current) == 0
    ensures Consistent(k.(ipc := M.CancelWaiter(k.ipc, k.threads.current), threads := T.AbortWait(k.threads).0))
  {
    hide X.Inv;
    hide L.Inv;
    hide R.TableOk;
    hide Total;
    var me := k.threads.current;
    var s := M.CancelWaiter(k.ipc, me);
    S.CancelInv(k.ipc, me);
    R.AbortWaitInv(k.threads);
    PutCounts(k.threads, me, T.Running);
    forall w: nat
      ensures RegsOf(s, w) == if w == me then 0 else RegsOf(k.ipc, w)
    {
      ClearedRegs(k.ipc.regs, me, w);
    }
    Rechecked(k, k.(ipc := s, threads := T.AbortWait(k.threads).0), me);
  }

  lemma WaitCounts(h: X.History, pid: nat, thread: nat)
    requires X.Inv(h)
    ensures var h' := X.Step(h, X.WaitFor(pid, thread));
            && (forall id: nat :: LiveOf(h', id) == LiveOf(h, id))
            && (forall w: nat :: WaitsOf(h', w) == WaitsOf(h, w) + if w == thread && X.Wait(h.table, pid, thread).1 == X.Blocked then 1 else 0)
  {
    hide Total;
    if X.Wait(h.table, pid, thread).1 == X.Blocked {
      var i := X.FirstWhere(X.LiveW(pid), h.table.live).value;
      var e := Some(X.LiveEntry(pid, Some(thread)));
      X.LiveChange(h.table.live, i, e);
      assert X.Step(h, X.WaitFor(pid, thread)).table.live == h.table.live[i := e];
    }
  }

  lemma CancelCounts(h: X.History, thread: nat)
    requires WaitsOf(h, thread) == 1
    ensures var h' := X.Step(h, X.Cancel(thread));
            && (forall id: nat :: LiveOf(h', id) == LiveOf(h, id))
            && (forall w: nat :: WaitsOf(h', w) == WaitsOf(h, w) - if w == thread then 1 else 0)
  {
    TotalPositive(X.WaiterW(thread), h.table.live);
    hide Total;
    var i := X.FirstWhere(X.WaiterW(thread), h.table.live).value;
    var e := Some(X.LiveEntry(h.table.live[i].value.pid, None));
    X.LiveChange(h.table.live, i, e);
    assert X.Step(h, X.Cancel(thread)).table.live == h.table.live[i := e];
  }

  lemma ProcessWaitSafe(k: Kernel, pid: nat, now: nat, slack: nat)
    requires Consistent(k) && k.threads.slots[k.threads.current].state == T.Running
    ensures Consistent(ProcessWait(k, pid, now, slack))
  {
    hide R.TableOk;
    hide X.Inv;
    hide L.Inv;
    hide X.Step;
    hide X.Wait;
    hide SelectOrWait;
    hide Total;
    var me := k.threads.current;
    RunningFree(k);
    X.WaitInv(k.exits, pid, me);
    WaitCounts(k.exits, pid, me);
    var h := X.Step(k.exits, X.WaitFor(pid, me));
    if X.Wait(k.exits.table, pid, me).1 != X.Blocked {
      assert OneReason(k, me);
      Rechecked(k, k.(exits := h), me);
    } else {
      var parked := T.Put(k.threads, me, T.ChannelBlocked);
      R.BlockInv(k.threads);
      PutCounts(k.threads, me, T.ChannelBlocked);
      var k1 := k.(exits := h, threads := parked);
      Rechecked(k, k1, me);
      WaitSafe(parked, now, slack);
      var (t, next) := SelectOrWait(parked, now, slack);
      ThreadStep(k1, t);
      if next.None? {
        WaitWithdrawn(k1.(threads := t));
      }
    }
  }

  /** The current thread withdraws its exit wait and runs on. */
  lemma WaitWithdrawn(k: Kernel)
    requires Consistent(k) && k.threads.slots[k.threads.current].state == T.ChannelBlocked && RegsOf(k.ipc, k.threads.current) == 0
    ensures Consistent(k.(exits := X.Step(k.exits, X.Cancel(k.threads.current)), threads := T.AbortWait(k.threads).0))
  {
    hide X.Inv;
    hide L.Inv;
    hide R.TableOk;
    hide Total;
    hide X.Step;
    var me := k.threads.current;
    assert OneReason(k, me);
    X.CancelInv(k.exits, me);
    CancelCounts(k.exits, me);
    R.AbortWaitInv(k.threads);
    PutCounts(k.threads, me, T.Running);
    Rechecked(k, k.(exits := X.Step(k.exits, X.Cancel(me)), threads := T.AbortWait(k.threads).0), me);
  }
}
