/** What the syscalls deliver across the tables: statuses reach their parents, sends
    reach parked readers, and a spawn that passes its checks exists everywhere. */
module KernelProgress {
  import opened Prelude
  import opened Counts
  import opened Objects
  import opened Handles
  import opened KernelTables
  import opened KernelSafety
  import opened KernelLifecycle
  import W = Waits
  import M = IpcModel
  import L = IpcLedger
  import S = IpcSafety
  import Q = IpcRuns
  import T = Scheduler
  import R = SchedulerRuns
  import X = ProcessExit
  import Y = ExitOutcomes
  import Z = SchedulerOutcomes

  // ----- Exit statuses -----

  lemma StatusKept(k: Kernel, c: Syscall, r: X.ExitRecord)
    requires k.threads.current < |k.threads.slots| && k.threads.cursor < |k.threads.slots|
    requires Some(r) in k.exits.table.records && (c.WaitProcess? ==> c.pid != r.pid)
    ensures Some(r) in Step(k, c).exits.table.records
  {
    hide X.Step;
    hide SelectOrWait;
    hide M.Spawn;
    hide M.Send;
    hide M.WaitReadable;
    hide X.Wait;
    hide T.AllocateFor;
    hide T.ExitProcess;
    match c
    case Spawn(imageOk, endpoint, rights, now) =>
      Y.RecordStays(k.exits, X.Spawn, r);
    case WaitProcess(pid, now, slack) =>
      var me := k.threads.current;
      Y.RecordStays(k.exits, X.WaitFor(pid, me), r);
      Y.RecordStays(X.Step(k.exits, X.WaitFor(pid, me)), X.Cancel(me), r);
    case Die(code, kind, now, slack) =>
      Y.RecordStays(k.exits, X.Exit(Caller(k), code, kind), r);
    case _ =>
  }

  lemma {:induction false} StatusKeptThroughout(k: Kernel, calls: seq<Syscall>, r: X.ExitRecord)
    requires Consistent(k) && Some(r) in k.exits.table.records
    requires forall n :: 0 <= n < |calls| && calls[n].WaitProcess? ==> calls[n].pid != r.pid
    ensures Some(r) in Run(k, calls).exits.table.records
    decreases |calls|
  {
    hide Step;
    if calls != [] {
      StatusKept(k, calls[0], r);
      StepSafe(k, calls[0]);
      StatusKeptThroughout(Step(k, calls[0]), calls[1..], r);
    }
  }

  /** However a process ends, and whatever the system does afterwards, the first wait for
      it gets its exit code and kind. */
  lemma StatusReachesWaiter(k: Kernel, code: nat, kind: X.ExitKind, now: nat, slack: nat, calls: seq<Syscall>, thread: nat)
    requires Consistent(k) && k.threads.slots[k.threads.current].state == T.Running && Caller(k) != INIT
    requires forall n :: 0 <= n < |calls| && calls[n].WaitProcess? ==> calls[n].pid != Caller(k)
    ensures Consistent(Step(k, Die(code, kind, now, slack)))
    ensures X.Wait(Run(Step(k, Die(code, kind, now, slack)), calls).exits.table, Caller(k), thread).1
            == X.Ready(X.ExitRecord(Caller(k), code, kind))
  {
    hide X.Wait;
    hide X.Inv;
    hide L.Inv;
    hide R.TableOk;
    hide Agree;
    hide OneReason;
    hide Terminate;
    StepSafe(k, Die(code, kind, now, slack));
    TerminateRemoves(k, code, kind, now, slack);
    var k1 := Terminate(k, code, kind, now, slack);
    var r := X.ExitRecord(Caller(k), code, kind);
    StatusKeptThroughout(k1, calls, r);
    Y.RecordFound(Run(k1, calls).exits, r, thread);
  }

  // ----- Parked readers -----

  /** A send that gives a parked reader something to read makes its thread runnable. */
  lemma SendUnparks(k: Kernel, endpoint: Handle, request: M.SendRequest, n: nat, j: nat)
    requires Consistent(k) && n < |k.ipc.regs| && k.ipc.regs[n].Some?
    requires var (s', x) := M.Send(k.ipc, Caller(k), endpoint, request);
             && x.Ok? && j < |s'.chans| && M.HasEndpoint(s'.chans[j], k.ipc.regs[n].value.target)
             && M.Inbound(s'.chans[j].value, k.ipc.regs[n].value.target) != []
    ensures var w := k.ipc.regs[n].value.waiter;
            w < |ChannelSend(k, endpoint, request).threads.slots| && ChannelSend(k, endpoint, request).threads.slots[w].state == T.Runnable
  {
    hide L.Linear;
    hide L.ProcShape;
    hide L.ChanShape;
    hide Exact;
    hide M.Inbound;
    hide R.TableOk;
    hide X.Inv;
    var w := k.ipc.regs[n].value.waiter;
    assert OneReason(k, w);
    TotalPositive(RegW(w), k.ipc.regs);
    assert RegW(w)(k.ipc.regs[n]) > 0;
    hide Total;
    var (s', x) := M.Send(k.ipc, Caller(k), endpoint, request);
    S.SendInv(k.ipc, Caller(k), endpoint, request);
    Q.SendNotifies(k.ipc, Caller(k), endpoint, request);
    var o :| s'.regs == M.Unwaited(k.ipc.regs, o) && x.value == M.WokenBy(k.ipc.regs, o);
    hide M.Send;
    hide M.Unwaited;
    hide M.WokenBy;
    Q.QuietWakes(k.ipc, s', o, n, j);
  }

  // ----- Spawn -----

  /** A spawn whose reservation, image, endpoint and thread slot are all there makes the
      process: in every table once, under the reserved identity. */
  lemma SpawnCreates(k: Kernel, endpoint: Handle, rights: Rights, now: nat)
    requires Consistent(k) && X.Reserve(k.exits.table).Ok? && FREE_SLOT in k.children
    requires M.Spawn(k.ipc, INIT, k.exits.table.next, endpoint, rights).1.Ok?
    requires exists i :: 0 < i < |k.threads.slots| && k.threads.slots[i].state == T.Empty
    ensures var pid, k' := k.exits.table.next, ProcessSpawn(k, true, endpoint, rights, now);
            && LiveOf(k'.exits, pid) == ProcsOf(k'.ipc, pid) == ChildrenOf(k'.children, pid) == ThreadsOf(k'.threads, pid) == 1
            && (exists i :: 0 <= i < |k'.threads.slots| && k'.threads.slots[i] == T.ThreadSlot(T.Runnable, None, false, pid))
            && k'.ipc == M.Spawn(k.ipc, INIT, pid, endpoint, rights).0
  {
    hide M.Spawn;
    hide L.Inv;
    hide R.TableOk;
    hide X.Inv;
    hide OneReason;
    var pid := k.exits.table.next;
    NextUnused(k);
    TotalPositive(X.IdW(pid), k.children);
    TotalPositive(X.IdW(FREE_SLOT), k.children);
    var i :| 0 <= i < |k.children| && k.children[i] == FREE_SLOT;
    assert X.IdW(FREE_SLOT)(k.children[i]) > 0;
    hide Total;
    CommitsNow(k.exits);
    SpawnSafe(k, true, endpoint, rights, now);
    var k' := ProcessSpawn(k, true, endpoint, rights, now);
    var t := T.AllocateFor(k.threads, pid);
    assert t.0.slots[t.1.value] == T.ThreadSlot(T.Runnable, None, false, pid);
    CommitCounts(k.exits);
    assert Agree(k', pid);
  }

  // ----- Threads of init -----

  /** Idling, too, leaves alone every thread that is not ready to run. */
  lemma IdleSpares(t: T.Threads, now: nat, slack: nat, i: nat)
    requires t.cursor < |t.slots| && i < |t.slots| && t.slots[i].state != T.Runnable && !t.slots[i].state.Sleeping?
    ensures i < |SelectOrWait(t, now, slack).0.slots| && SelectOrWait(t, now, slack).0.slots[i] == t.slots[i]
  {
    hide T.Select;
    hide Earliest;
    Z.SelectSpares(t, now, None, i);
    var t1 := T.Select(t, now, None).0;
    if t1.cursor < |t1.slots| && Earliest(t1.slots).Some? {
      Z.SelectSpares(t1, Earliest(t1.slots).value + slack, None, i);
    }
  }

  /** The exit call keeps the code of a thread that is neither joined nor detached. */
  lemma ExitCallKeepsCode(k: Kernel, code: nat, now: nat, slack: nat)
    requires Consistent(k) && k.threads.slots[k.threads.current].state == T.Running && Caller(k) == INIT && k.threads.current != 0
    requires k.threads.slots[k.threads.current].joiner.None? && !k.threads.slots[k.threads.current].detached
    ensures var me, t' := k.threads.current, Step(k, ExitThread(code, now, slack)).threads;
            me < |t'.slots| && t'.slots[me] == k.threads.slots[me].(state := T.Zombie(code))
  {
    hide L.Inv;
    hide X.Inv;
    hide R.TableOk;
    hide T.Select;
    hide SelectOrWait;
    hide Agree;
    hide OneReason;
    var me := k.threads.current;
    var stopped := T.Stopped(k.threads, code);
    Z.SelectSpares(stopped, now, None, me);
    var t := T.ExitCurrent(k.threads, code, now).0;
    if t.cursor < |t.slots| {
      IdleSpares(t, now, slack, me);
    }
  }

  /** The join call collects a waiting code at once and empties the slot. */
  lemma JoinCallCollects(k: Kernel, target: nat, code: nat, now: nat, slack: nat)
    requires Consistent(k) && k.threads.slots[k.threads.current].state == T.Running && Caller(k) == INIT
    requires 0 < target < |k.threads.slots| && k.threads.slots[target].state == T.Zombie(code)
    requires k.threads.slots[target].owner == INIT && k.threads.slots[target].joiner.None? && !k.threads.slots[target].detached
    ensures T.JoinCurrent(k.threads, target, now).1 == T.Completed(code)
    ensures Step(k, Join(target, now, slack)) == k.(threads := k.threads.(slots := k.threads.slots[target := T.EMPTY_SLOT]))
  {
    hide L.Inv;
    hide X.Inv;
    hide R.TableOk;
    hide SelectOrWait;
    hide Agree;
    hide OneReason;
  }

  /** Thread creation makes one runnable thread of init, detached exactly if asked, whenever a
      slot is free and its memory can be set up. */
  lemma CreateCallMakes(k: Kernel, detached: bool)
    requires Consistent(k) && k.threads.slots[k.threads.current].state == T.Running && Caller(k) == INIT
    requires exists i :: 0 < i < |k.threads.slots| && k.threads.slots[i].state == T.Empty
    ensures var k' := Step(k, CreateThread(detached, true));
            exists i :: 0 < i < |k.threads.slots| && k.threads.slots[i].state == T.Empty
                        && k' == k.(threads := k.threads.(slots := k.threads.slots[i := T.ThreadSlot(T.Runnable, None, detached, INIT)]))
  {
    hide L.Inv;
    hide X.Inv;
    hide R.TableOk;
    hide Agree;
    hide OneReason;
    var (t, id) := T.AllocateFor(k.threads, INIT);
    var i := id.value;
    assert 0 < i < |k.threads.slots| && k.threads.slots[i].state == T.Empty;
    var slot := T.ThreadSlot(T.Runnable, None, detached, INIT);
    assert t.slots[i := slot] == k.threads.slots[i := slot];
  }

  /** The sleep call parks the caller until its deadline, unless that has passed by the time
      something is selected. */
  lemma SleepCallParks(k: Kernel, wakeAt: nat, now: nat, slack: nat)
    requires Consistent(k) && k.threads.slots[k.threads.current].state == T.Running && now < wakeAt
    ensures var me, t' := k.threads.current, Step(k, Sleep(wakeAt, now, slack)).threads;
            && me < |t'.slots| && t'.slots[me].state in {T.Sleeping(wakeAt), T.Runnable, T.Running}
            && (T.SleepCurrent(k.threads, wakeAt, now).1.Some? ==> t'.slots[me].state == T.Sleeping(wakeAt) && t'.current != me)
  {
    hide L.Inv;
    hide X.Inv;
    hide R.TableOk;
    hide T.Select;
    hide Agree;
    hide OneReason;
    var me := k.threads.current;
    var asleep := T.Put(k.threads, me, T.Sleeping(wakeAt));
    Z.SelectSpares(asleep, now, None, me);
    var (t, next) := T.SleepCurrent(k.threads, wakeAt, now);
    R.PutPlain(k.threads, me, T.Sleeping(wakeAt));
    R.SelectInv(asleep, now, None);
    if next.None? {
      Z.SelectSpares(t, now, None, me);
      var t1 := T.Select(t, now, None).0;
      if t1.cursor < |t1.slots| && Earliest(t1.slots).Some? {
        Z.SelectSpares(t1, Earliest(t1.slots).value + slack, None, me);
      }
    }
  }

  /** The process wait call collects a recorded status at once; for a live process nobody
      waits for it parks the caller as that process's waiter if another thread can take over,
      and otherwise leaves no wait behind. */
  lemma WaitCallDoes(k: Kernel, pid: nat, now: nat, slack: nat)
    requires Consistent(k) && k.threads.slots[k.threads.current].state == T.Running && Caller(k) == INIT
    ensures var me, k' := k.threads.current, Step(k, WaitProcess(pid, now, slack));
            match X.Wait(k.exits.table, pid, me).1
            case Ready(record) =>
              && record.pid == pid && Some(record) in k.exits.table.records && Some(record) !in k'.exits.table.records
              && k'.exits.consumed == k.exits.consumed + [record] && k'.threads == k.threads
            case Blocked =>
              if SelectOrWait(T.BlockCurrent(k.threads).0, now, slack).1.Some? then
                && Some(X.LiveEntry(pid, Some(me))) in k'.exits.table.live
                && me < |k'.threads.slots| && k'.threads.slots[me].state == T.ChannelBlocked
              else WaitsOf(k'.exits, me) == 0 && k'.threads.current == me
            case Invalid => k'.threads == k.threads && k'.exits.table == k.exits.table
  {
    hide L.Inv;
    hide X.Inv;
    hide R.TableOk;
    hide SelectOrWait;
    hide Agree;
    hide OneReason;
    var me := k.threads.current;
    match X.Wait(k.exits.table, pid, me).1
    case Ready(record) => TakenRecord(k.exits, pid, me);
    case Blocked => ParkedCaller(k, pid, now, slack);
    case Invalid =>
  }

  lemma TakenRecord(h: X.History, pid: nat, thread: nat)
    requires X.Inv(h) && X.Wait(h.table, pid, thread).1.Ready?
    ensures var r := X.Wait(h.table, pid, thread).1.record;
            r.pid == pid && Some(r) in h.table.records && Some(r) !in X.Step(h, X.WaitFor(pid, thread)).table.records
  {
    hide X.Inv;
    var k := X.FirstWhere(X.RecordW(pid), h.table.records).value;
    var r := h.table.records[k].value;
    assert Some(r) in h.table.records;
    Y.RecordFound(h, r, thread);
  }

  lemma ParkedCaller(k: Kernel, pid: nat, now: nat, slack: nat)
    requires Consistent(k) && k.threads.slots[k.threads.current].state == T.Running
    requires X.Wait(k.exits.table, pid, k.threads.current).1 == X.Blocked
    ensures var me, k' := k.threads.current, ProcessWait(k, pid, now, slack);
            if SelectOrWait(T.BlockCurrent(k.threads).0, now, slack).1.Some? then
              && Some(X.LiveEntry(pid, Some(me))) in k'.exits.table.live
              && me < |k'.threads.slots| && k'.threads.slots[me].state == T.ChannelBlocked
            else WaitsOf(k'.exits, me) == 0 && k'.threads.current == me
  {
    hide L.Inv;
    hide X.Inv;
    hide R.TableOk;
    hide SelectOrWait;
    hide Total;
    var me := k.threads.current;
    var parked := T.BlockCurrent(k.threads).0;
    R.BlockInv(k.threads);
    WaitSafe(parked, now, slack);
    IdleSpares(parked, now, slack, me);
    var (t, next) := SelectOrWait(parked, now, slack);
    var h := X.Step(k.exits, X.WaitFor(pid, me));
    var i := X.FirstWhere(X.LiveW(pid), k.exits.table.live).value;
    assert h.table.live[i] == Some(X.LiveEntry(pid, Some(me)));
    if next.None? {
      RunningFree(k);
      WaitCounts(k.exits, pid, me);
      CancelCounts(h, me);
      assert ProcessWait(k, pid, now, slack).exits == X.Step(h, X.Cancel(me));
      assert ProcessWait(k, pid, now, slack).threads == T.AbortWait(t).0;
    } else {
      assert ProcessWait(k, pid, now, slack).exits == h && ProcessWait(k, pid, now, slack).threads == t;
    }
  }

  /** A thread whose memory cannot be set up leaves no trace. */
  lemma CreateCallFails(k: Kernel, detached: bool)
    requires Consistent(k) && k.threads.slots[k.threads.current].state == T.Running && Caller(k) == INIT
    ensures Step(k, CreateThread(detached, false)) == k
  {
    hide L.Inv;
    hide X.Inv;
    hide Agree;
    hide OneReason;
    var (t, id) := T.AllocateFor(k.threads, INIT);
    if id.Some? {
      assert k.threads.slots[id.value] == T.EMPTY_SLOT;
      hide R.TableOk;
      var t1 := if detached then T.Detach(t, id.value).0 else t;
      assert T.DiscardUnstarted(t1, id.value).0.slots == k.threads.slots;
    }
  }

  /** Yielding hands the processor to another thread whenever one is runnable. */
  lemma YieldCallSwitches(k: Kernel, now: nat, i: nat)
    requires Consistent(k) && k.threads.slots[k.threads.current].state == T.Running
    requires i < |k.threads.slots| && k.threads.slots[i].state == T.Runnable
    ensures var t' := Step(k, Yield(now)).threads;
            && t'.current != k.threads.current && k.threads.current < |t'.slots| && t'.slots[k.threads.current].state == T.Runnable
            && t'.current < |t'.slots| && t'.slots[t'.current].state == T.Running
  {
    hide L.Inv;
    hide X.Inv;
    hide R.TableOk;
    hide T.Select;
    hide Agree;
    hide OneReason;
    var me := k.threads.current;
    var u := T.Put(k.threads, me, T.Runnable);
    R.PutPlain(k.threads, me, T.Runnable);
    R.SelectInv(u, now, None);
    Z.SelectSpares(u, now, None, me);
    assert T.WakeExpired(u.slots, now)[i].state == T.Runnable;
  }

  /** The detach call reaps a finished thread of init and marks any other. */
  lemma DetachCallDoes(k: Kernel, target: nat)
    requires Consistent(k) && k.threads.slots[k.threads.current].state == T.Running && Caller(k) == INIT
    requires 0 < target < |k.threads.slots| && k.threads.slots[target].state != T.Empty
    requires k.threads.slots[target].owner == INIT && k.threads.slots[target].joiner.None?
    ensures var s, t' := k.threads.slots[target], Step(k, Detach(target)).threads;
            |t'.slots| == |k.threads.slots| && t'.slots[target] == if s.state.Zombie? then T.EMPTY_SLOT else s.(detached := true)
  {
    hide L.Inv;
    hide X.Inv;
    hide R.TableOk;
    hide Agree;
    hide OneReason;
  }
}
