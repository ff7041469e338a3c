/** Process creation and termination, and the agreement of the tables over whole runs. */
module KernelLifecycle {
  import opened Prelude
  import opened Counts
  import opened Handles
  import opened KernelTables
  import opened KernelSafety
  import M = IpcModel
  import L = IpcLedger
  import S = IpcSafety
  import C = IpcCollect
  import T = Scheduler
  import R = SchedulerRuns
  import X = ProcessExit

  function Is(pid: nat, id: nat): nat {
    if pid == id then 1 else 0
  }

  /** All four tables move by the same amount for every process, and the reasons
      for parking still add up. */
  lemma Reagreed(k: Kernel, k': Kernel)
    requires Consistent(k)
    requires R.Inv(k'.threads) && Owned(k'.threads) && X.Inv(k'.exits) && L.Inv(k'.ipc) && |k'.children| == X.MAX_LIVE
    requires forall pid: nat :: pid >= X.FIRST_ISOLATED_PROCESS_ID ==> Agree(k', pid)
    requires forall w: nat :: Parked(k'.threads, w) + (WaitsOf(k.exits, w) - WaitsOf(k'.exits, w)) == Parked(k.threads, w)
    requires forall w: nat :: RegsOf(k'.ipc, w) == RegsOf(k.ipc, w)
    ensures Consistent(k')
  {
    hide R.Inv;
    hide X.Inv;
    hide L.Inv;
    hide Total;
    forall w: nat
      ensures OneReason(k', w)
    {
      assert OneReason(k, w);
    }
  }

  // ----- Termination -----

  lemma ReleasedCounts(children: seq<nat>, pid: nat, id: nat)
    requires pid >= X.FIRST_ISOLATED_PROCESS_ID && id >= X.FIRST_ISOLATED_PROCESS_ID && ChildrenOf(children, pid) == 1
    ensures |Released(children, pid)| == |children|
    ensures ChildrenOf(Released(children, pid), id) == ChildrenOf(children, id) - Is(pid, id)
  {
    TotalPositive(X.IdW(pid), children);
    var i := X.FirstWhere(X.IdW(pid), children).value;
    TotalUpdate(X.IdW(id), children, i, FREE_SLOT);
  }

  /** A process known to the manager is found and removed. */
  lemma ExitCounts(s: M.Ipc, pid: nat, id: nat)
    requires L.Inv(s) && pid != INIT && ProcsOf(s, pid) == 1
    ensures ProcsOf(Collected(s, pid), id) == ProcsOf(s, id) - Is(pid, id)
  {
    TotalPositive(ProcW(pid), s.procs);
    ProcFound(s, pid);
    ExitIds(s, pid);
    var i :| 0 <= i < |s.procs| && s.procs[i].Some? && s.procs[i].value.id == pid && Collected(s, pid).procs == s.procs[i := None];
    TotalUpdate(ProcW(id), s.procs, i, None);
  }

  lemma ProcFound(s: M.Ipc, pid: nat)
    requires L.Inv(s) && pid != INIT && exists i :: 0 <= i < |s.procs| && ProcW(pid)(s.procs[i]) > 0
    ensures M.ExitProcess(s, pid).1.Ok?
  {
    hide L.Linear;
    hide L.Quiet;
    hide L.ChanShape;
    hide M.Collect;
    hide Total;
    var i :| 0 <= i < |s.procs| && ProcW(pid)(s.procs[i]) > 0;
    assert s.procs[0].Some?;
    assert M.FindProc(s.procs, pid).Some?;
  }

  lemma RecordCounts(h: X.History, pid: nat, code: nat, kind: X.ExitKind)
    requires LiveOf(h, pid) == 1
    ensures var h' := X.Step(h, X.Exit(pid, code, kind));
            var waiter := X.RecordExit(h.table, pid, code, kind).1;
            && (forall id: nat :: LiveOf(h', id) == LiveOf(h, id) - Is(pid, id))
            && (forall w: nat :: WaitsOf(h', w) == WaitsOf(h, w) - if waiter == Some(w) then 1 else 0)
  {
    TotalPositive(X.LiveW(pid), h.table.live);
    hide Total;
    var i := X.FirstWhere(X.LiveW(pid), h.table.live).value;
    X.LiveChange(h.table.live, i, None);
    assert X.Step(h, X.Exit(pid, code, kind)).table.live == h.table.live[i := None];
  }

  /** The only thread of a process is the one its exit removes. */
  lemma PurgeOne(t: T.Threads, pid: nat)
    requires t.current < |t.slots| && T.OwnedBy(t.slots[t.current], pid) && pid >= X.FIRST_ISOLATED_PROCESS_ID && ThreadsOf(t, pid) == 1
    ensures T.Purged(t.slots, pid) == t.slots[t.current := T.EMPTY_SLOT]
  {
    forall i | 0 <= i < |t.slots| && i != t.current
      ensures !T.OwnedBy(t.slots[i], pid)
    {
      TotalTwo(KeyW(pid), t.slots, i, t.current);
    }
  }

  lemma VacateCounts(t: T.Threads, pid: nat)
    requires t.current < |t.slots| && T.OwnedBy(t.slots[t.current], pid) && pid >= X.FIRST_ISOLATED_PROCESS_ID && Owned(t)
    requires t.slots[t.current].state != T.ChannelBlocked
    ensures var t' := T.Vacate(t, t.current);
            && Owned(t')
            && (forall id: nat :: id >= X.FIRST_ISOLATED_PROCESS_ID ==> ThreadsOf(t', id) == ThreadsOf(t, id) - Is(pid, id))
            && (forall w: nat :: Parked(t', w) == Parked(t, w))
  {
    forall id: nat | id >= X.FIRST_ISOLATED_PROCESS_ID
      ensures ThreadsOf(T.Vacate(t, t.current), id) == ThreadsOf(t, id) - Is(pid, id)
    {
      TotalUpdate(KeyW(id), t.slots, t.current, T.EMPTY_SLOT);
    }
  }

  /** Waking the waiter, if any, then dropping the exiting thread and finding
      something else to run. */
  ghost function AfterExit(t: T.Threads, waiter: Option<nat>, pid: nat, now: nat, slack: nat): T.Threads
    requires t.current < |t.slots| && t.cursor < |t.slots|
  {
    var woken := if waiter.Some? then T.WakeWaiter(t, waiter.value).0 else t;
    var (gone, next) := T.ExitProcess(woken, pid, now);
    if (next.Some? && next.value.Some?) || gone.cursor >= |gone.slots| then gone else SelectOrWait(gone, now, slack).0
  }

  lemma ThreadsAfterExit(t: T.Threads, waiter: Option<nat>, pid: nat, now: nat, slack: nat)
    requires R.Inv(t) && Owned(t) && t.slots[t.current].state == T.Running && t.slots[t.current].owner == pid
    requires pid >= X.FIRST_ISOLATED_PROCESS_ID && ThreadsOf(t, pid) == 1 && (waiter.Some? ==> Parked(t, waiter.value) == 1)
    ensures var t' := AfterExit(t, waiter, pid, now, slack);
            && R.Inv(t') && Owned(t')
            && (forall id: nat :: id >= X.FIRST_ISOLATED_PROCESS_ID ==> ThreadsOf(t', id) == ThreadsOf(t, id) - Is(pid, id))
            && (forall w: nat :: Parked(t', w) == Parked(t, w) - if waiter == Some(w) then 1 else 0)
  {
    hide T.Select;
    hide SelectOrWait;
    hide Total;
    var woken := if waiter.Some? then T.WakeWaiter(t, waiter.value).0 else t;
    if waiter.Some? {
      R.WakeInv(t, waiter.value);
      PutCounts(t, waiter.value, T.Runnable);
    }
    PurgeOne(woken, pid);
    VacateCounts(woken, pid);
    var p := T.Vacate(woken, woken.current);
    R.ExitProcessInv(woken, pid, now);
    R.PurgedOk(woken.slots, pid);
    SelectNeutral(p, now, None);
    var (gone, next) := T.ExitProcess(woken, pid, now);
    assert T.OwnedBy(woken.slots[woken.current], pid);
    assert (gone, next) == (T.Select(p, now, None).0, Some(T.Select(p, now, None).1));
    NeutralCounts(p, gone);
    R.SelectInv(p, now, None);
    if next.value.None? {
      WaitSafe(gone, now, slack);
      NeutralCounts(gone, SelectOrWait(gone, now, slack).0);
    }
  }

  lemma TerminateSafe(k: Kernel, code: nat, kind: X.ExitKind, now: nat, slack: nat)
    requires Consistent(k) && k.threads.slots[k.threads.current].state == T.Running && Caller(k) != INIT
    ensures Consistent(Terminate(k, code, kind, now, slack))
  {
    hide L.Inv;
    hide X.Inv;
    hide X.Step;
    hide ThreadsOf;
    hide LiveOf;
    hide ChildrenOf;
    hide WaitsOf;
    hide X.RecordExit;
    hide Total;
    hide R.TableOk;
    hide T.ExitProcess;
    hide SelectOrWait;
    var pid, me := Caller(k), k.threads.current;
    OneOfEach(k);
    RunningFree(k);
    var s := M.CancelWaiter(k.ipc, me);
    S.CancelInv(k.ipc, me);
    C.ExitInv(s, pid);
    ExitIds(s, pid);
    forall w: nat
      ensures RegsOf(s, w) == RegsOf(k.ipc, w)
    {
      ClearedRegs(k.ipc.regs, me, w);
    }
    var waiter := X.RecordExit(k.exits.table, pid, code, kind).1;
    X.ExitKeepsStatus(k.exits, pid, code, kind);
    RecordCounts(k.exits, pid, code, kind);
    if waiter.Some? {
      assert OneReason(k, waiter.value);
    }
    ThreadsAfterExit(k.threads, waiter, pid, now, slack);
    var k' := Terminate(k, code, kind, now, slack);
    assert k'.threads == AfterExit(k.threads, waiter, pid, now, slack);
    forall id: nat | id >= X.FIRST_ISOLATED_PROCESS_ID
      ensures Agree(k', id)
    {
      GoneEverywhere(k, k', s, pid, id);
    }
    ReleasedCounts(k.children, pid, pid);
    Reagreed(k, k');
  }

  lemma GoneEverywhere(k: Kernel, k': Kernel, s: M.Ipc, pid: nat, id: nat)
    requires Agree(k, id) && Agree(k, pid) && LiveOf(k.exits, pid) == 1 && L.Inv(s) && s.procs == k.ipc.procs
    requires pid >= X.FIRST_ISOLATED_PROCESS_ID && id >= X.FIRST_ISOLATED_PROCESS_ID
    requires k'.ipc == Collected(s, pid) && k'.children == Released(k.children, pid)
    requires LiveOf(k'.exits, id) == LiveOf(k.exits, id) - Is(pid, id) && ThreadsOf(k'.threads, id) == ThreadsOf(k.threads, id) - Is(pid, id)
    ensures Agree(k', id)
  {
    hide L.Inv;
    hide Total;
    hide Collected;
    hide Released;
    ReleasedCounts(k.children, pid, id);
    ExitCounts(s, pid, id);
  }

  /** The running isolated process has exactly one entry everywhere. */
  lemma OneOfEach(k: Kernel)
    requires Consistent(k) && k.threads.slots[k.threads.current].state == T.Running && Caller(k) != INIT
    ensures Caller(k) >= X.FIRST_ISOLATED_PROCESS_ID
    ensures LiveOf(k.exits, Caller(k)) == 1 && ProcsOf(k.ipc, Caller(k)) == 1 && ChildrenOf(k.children, Caller(k)) == 1 && ThreadsOf(k.threads, Caller(k)) == 1
  {
    hide L.Inv;
    hide R.TableOk;
    var pid := Caller(k);
    TotalUpdate(KeyW(pid), k.threads.slots, k.threads.current, T.EMPTY_SLOT);
    hide Total;
    assert Agree(k, pid);
    assert X.Places(k.exits, pid) <= 1;
  }

  // ----- Creation -----

  lemma {:induction false} ReleaseClaimed(children: seq<nat>, slot: nat, pid: nat)
    requires slot < |children| && children[slot] == FREE_SLOT && pid != FREE_SLOT && ChildrenOf(children, pid) == 0
    ensures Released(children[slot := pid], pid) == children
  {
    forall k | 0 <= k < |children|
      ensures children[k] != pid
    {
      TotalUpdate(X.IdW(pid), children, k, children[k]);
    }
    var claimed := children[slot := pid];
    assert X.IdW(pid)(claimed[slot]) > 0;
    assert X.FirstWhere(X.IdW(pid), claimed) == Some(slot);
  }

  lemma SpawnedProcs(s: M.Ipc, child: nat, endpoint: Handle, rights: Rights, id: nat)
    requires child >= X.FIRST_ISOLATED_PROCESS_ID && id >= X.FIRST_ISOLATED_PROCESS_ID
    ensures var (s', r) := M.Spawn(s, INIT, child, endpoint, rights);
            ProcsOf(s', id) == ProcsOf(s, id) + if r.Ok? then Is(child, id) else 0
  {
    hide M.Spawn;
    SpawnIds(s, child, endpoint, rights);
    var (s', r) := M.Spawn(s, INIT, child, endpoint, rights);
    if r.Err? {
      SameIdsCount(s, s');
    } else {
      var i :| 0 <= i < |s.procs| && |s'.procs| == |s.procs| && IdKey(s.procs[i]) == 0 && s'.procs[i].Some? && s'.procs[i].value.id == child
               && forall k :: 0 <= k < |s.procs| && k != i ==> IdKey(s'.procs[k]) == IdKey(s.procs[k]);
      TotalUpdate(ProcW(id), s.procs, i, s'.procs[i]);
      TotalSame(ProcW(id), s'.procs, s.procs[i := s'.procs[i]]);
    }
  }

  lemma AllocatedCounts(t: T.Threads, pid: nat)
    requires Owned(t) && pid >= X.FIRST_ISOLATED_PROCESS_ID
    ensures var (t', id) := T.AllocateFor(t, pid);
            && Owned(t')
            && (forall q: nat :: q >= X.FIRST_ISOLATED_PROCESS_ID ==> ThreadsOf(t', q) == ThreadsOf(t, q) + if id.Some? then Is(pid, q) else 0)
            && (forall w: nat :: Parked(t', w) == Parked(t, w))
  {
    var (t', id) := T.AllocateFor(t, pid);
    if id.Some? {
      forall q: nat | q >= X.FIRST_ISOLATED_PROCESS_ID
        ensures ThreadsOf(t', q) == ThreadsOf(t, q) + Is(pid, q)
      {
        TotalUpdate(KeyW(q), t.slots, id.value, t'.slots[id.value]);
      }
    }
  }

  lemma CommitCounts(h: X.History)
    requires X.Reserve(h.table).Ok? && X.CommitSpawn(h.table, h.table.next).1
    ensures var h' := X.Step(h, X.Spawn);
            && (forall id: nat :: LiveOf(h', id) == LiveOf(h, id) + Is(h.table.next, id))
            && (forall w: nat :: WaitsOf(h', w) == WaitsOf(h, w))
  {
    hide Total;
    var i := FirstNone(h.table.live).value;
    var e := Some(X.LiveEntry(h.table.next, None));
    X.LiveChange(h.table.live, i, e);
    assert X.Step(h, X.Spawn).table.live == h.table.live[i := e];
  }

  /** Nothing anywhere mentions an id that has not been handed out. */
  lemma NextUnused(k: Kernel)
    requires Consistent(k)
    ensures var pid := k.exits.table.next;
            pid >= X.FIRST_ISOLATED_PROCESS_ID && LiveOf(k.exits, pid) == 0 && ProcsOf(k.ipc, pid) == 0 && ChildrenOf(k.children, pid) == 0
  {
    hide L.Inv;
    hide R.Inv;
    hide Total;
    assert X.Places(k.exits, k.exits.table.next) == 0;
    assert Agree(k, k.exits.table.next);
  }

  lemma SpawnSafe(k: Kernel, imageOk: bool, endpoint: Handle, rights: Rights, now: nat)
    requires Consistent(k)
    ensures Consistent(ProcessSpawn(k, imageOk, endpoint, rights, now))
  {
    hide L.Inv;
    hide R.TableOk;
    hide X.Inv;
    hide M.Spawn;
    hide Total;
    hide T.AllocateFor;
    hide X.CommitSpawn;
    hide Released;
    if X.Reserve(k.exits.table).Ok? && imageOk {
      var pid := k.exits.table.next;
      var free := X.FirstWhere(X.IdW(FREE_SLOT), k.children);
      NextUnused(k);
      if free.Some? && X.FirstWhere(X.IdW(pid), k.children).None? {
        var (s, r) := M.Spawn(k.ipc, INIT, pid, endpoint, rights);
        S.SpawnInv(k.ipc, INIT, pid, endpoint, rights);
        SpawnIds(k.ipc, pid, endpoint, rights);
        forall id: nat | id >= X.FIRST_ISOLATED_PROCESS_ID
          ensures ProcsOf(s, id) == ProcsOf(k.ipc, id) + if r.Ok? then Is(pid, id) else 0
        {
          SpawnedProcs(k.ipc, pid, endpoint, rights, id);
        }
        ReleaseClaimed(k.children, free.value, pid);
        if r.Err? {
          IpcStep(k, s);
        } else if T.AllocateFor(k.threads, pid).1.None? {
          C.ExitInv(s, pid);
          ExitIds(s, pid);
          forall id: nat | id >= X.FIRST_ISOLATED_PROCESS_ID
            ensures ProcsOf(Collected(s, pid), id) == ProcsOf(k.ipc, id)
          {
            ExitCounts(s, pid, id);
          }
          IpcStep(k, Collected(s, pid));
        } else {
          Created(k, free.value, s);
        }
      }
    }
  }

  lemma CommitsNow(h: X.History)
    requires X.Inv(h) && X.Reserve(h.table).Ok?
    ensures X.CommitSpawn(h.table, h.table.next).1
  {
    X.ReservedCommits(h.table);
  }

  lemma Created(k: Kernel, slot: nat, s: M.Ipc)
    requires Consistent(k) && X.Reserve(k.exits.table).Ok? && slot < |k.children| && k.children[slot] == FREE_SLOT
    requires L.Inv(s) && s.regs == k.ipc.regs
    requires forall id: nat :: id >= X.FIRST_ISOLATED_PROCESS_ID ==> ProcsOf(s, id) == ProcsOf(k.ipc, id) + Is(k.exits.table.next, id)
    requires T.AllocateFor(k.threads, k.exits.table.next).1.Some?
    ensures X.CommitSpawn(k.exits.table, k.exits.table.next).1
    ensures var pid := k.exits.table.next;
            Consistent(Kernel(T.AllocateFor(k.threads, pid).0, X.Step(k.exits, X.Spawn), s, k.children[slot := pid]))
  {
    hide L.Inv;
    hide R.Inv;
    hide X.Inv;
    hide Total;
    hide T.AllocateFor;
    hide ThreadsOf;
    hide LiveOf;
    hide ProcsOf;
    hide WaitsOf;
    hide Parked;
    hide X.CommitSpawn;
    var pid := k.exits.table.next;
    NextUnused(k);
    CommitsNow(k.exits);
    X.SpawnInv(k.exits);
    R.AllocateInv(k.threads, pid);
    CommitCounts(k.exits);
    AllocatedCounts(k.threads, pid);
    hide X.Step;
    var k' := Kernel(T.AllocateFor(k.threads, pid).0, X.Step(k.exits, X.Spawn), s, k.children[slot := pid]);
    forall id: nat | id >= X.FIRST_ISOLATED_PROCESS_ID
      ensures Agree(k', id)
    {
      assert Agree(k, id);
      TotalUpdate(X.IdW(id), k.children, slot, pid);
    }
    Reagreed(k, k');
  }

  // ----- Whole runs -----

  lemma BootAgrees(n: nat, id: nat)
    requires 0 < n <= 255
    ensures id >= X.FIRST_ISOLATED_PROCESS_ID ==> Agree(BootKernel(n), id)
    ensures OneReason(BootKernel(n), id)
  {
    var k := BootKernel(n);
    if id >= X.FIRST_ISOLATED_PROCESS_ID {
      TotalZero(X.LiveW(id), k.exits.table.live);
      TotalZero(ProcW(id), k.ipc.procs);
      TotalZero(X.IdW(id), k.children);
      TotalZero(KeyW(id), k.threads.slots);
    }
    TotalZero(RegW(id), k.ipc.regs);
    TotalZero(X.WaiterW(id), k.exits.table.live);
  }

  lemma BootConsistent(n: nat)
    requires 0 < n <= 255
    ensures Consistent(BootKernel(n))
  {
    hide L.Inv;
    hide X.Inv;
    hide R.Inv;
    hide Agree;
    hide OneReason;
    R.InitialInv(n);
    X.EmptyInv();
    S.InitInv();
    forall id: nat
      ensures id >= X.FIRST_ISOLATED_PROCESS_ID ==> Agree(BootKernel(n), id)
      ensures OneReason(BootKernel(n), id)
    {
      BootAgrees(n, id);
    }
  }

  lemma StepSafe(k: Kernel, c: Syscall)
    requires Consistent(k)
    ensures Consistent(Step(k, c))
  {
    hide L.Inv;
    hide X.Inv;
    hide R.TableOk;
    hide ProcessSpawn;
    hide ProcessWait;
    hide Terminate;
    hide ChannelSend;
    hide ChannelWait;
    hide ThreadSleep;
    hide ThreadCreate;
    hide ThreadJoin;
    hide ThreadExit;
    hide Agree;
    hide OneReason;
    var running := k.threads.slots[k.threads.current].state == T.Running;
    var init := Caller(k) == INIT;
    match c
    case Spawn(imageOk, endpoint, rights, now) => SpawnSafe(k, imageOk, endpoint, rights, now);
    case WaitProcess(pid, now, slack) => if running { ProcessWaitSafe(k, pid, now, slack); }
    case Die(code, kind, now, slack) => if running && !init { TerminateSafe(k, code, kind, now, slack); }
    case CreateChannel => CreatePairSafe(k);
    case Send(endpoint, request) => SendSafe(k, endpoint, request);
    case Receive(endpoint) => ReceiveSafe(k, endpoint);
    case Close(endpoint) => CloseSafe(k, endpoint);
    case WaitReadable(endpoint, now, slack) => if running { ChannelWaitSafe(k, endpoint, now, slack); }
    case Yield(now) => YieldSafe(k, now);
    case Sleep(wakeAt, now, slack) => if running { SleepSafe(k, wakeAt, now, slack); }
    case CreateThread(detached, tlsOk) => if init { CreateThreadSafe(k, detached, tlsOk); }
    case Join(target, now, slack) => if init { JoinSafe(k, target, now, slack); }
    case Detach(target) => if init { DetachSafe(k, target); }
    case ExitThread(code, now, slack) => if init { ExitThreadSafe(k, code, now, slack); }
  }

  ghost function Run(k: Kernel, calls: seq<Syscall>): (r: Kernel)
    requires Consistent(k)
    ensures Consistent(r)
    decreases |calls|
  {
    if calls == [] then k else StepSafe(k, calls[0]); Run(Step(k, calls[0]), calls[1..])
  }

  /** Each isolated process is in all four tables once or in none of them, every
      other thread belongs to init, and a thread is blocked on a wait exactly when it
      holds one registration, of one kind. */
  ghost predicate InStep(k: Kernel) {
    && (forall pid: nat :: pid >= X.FIRST_ISOLATED_PROCESS_ID ==>
          LiveOf(k.exits, pid) == ProcsOf(k.ipc, pid) == ChildrenOf(k.children, pid) == ThreadsOf(k.threads, pid) <= 1)
    && (forall i :: 0 <= i < |k.threads.slots| && k.threads.slots[i].state != T.Empty ==>
          k.threads.slots[i].owner == INIT || LiveOf(k.exits, k.threads.slots[i].owner) == 1)
    && (forall w: nat ::
          RegsOf(k.ipc, w) + WaitsOf(k.exits, w) == if w < |k.threads.slots| && k.threads.slots[w].state == T.ChannelBlocked then 1 else 0)
  }

  lemma ConsistentInStep(k: Kernel)
    requires Consistent(k)
    ensures InStep(k)
  {
    hide L.Inv;
    hide R.TableOk;
    forall i | 0 <= i < |k.threads.slots|
      ensures KeyW(k.threads.slots[i].owner)(k.threads.slots[i]) <= ThreadsOf(k.threads, k.threads.slots[i].owner)
    {
      TotalUpdate(KeyW(k.threads.slots[i].owner), k.threads.slots, i, k.threads.slots[i]);
    }
    hide Total;
    forall pid: nat | pid >= X.FIRST_ISOLATED_PROCESS_ID
      ensures LiveOf(k.exits, pid) == ProcsOf(k.ipc, pid) == ChildrenOf(k.children, pid) == ThreadsOf(k.threads, pid) <= 1
    {
      assert Agree(k, pid);
      assert X.Places(k.exits, pid) <= 1;
    }
    forall w: nat
      ensures RegsOf(k.ipc, w) + WaitsOf(k.exits, w) == (if w < |k.threads.slots| && k.threads.slots[w].state == T.ChannelBlocked then 1 else 0)
    {
      assert OneReason(k, w);
    }
  }

  /** A process that ends is in no table any more, and its status is kept for a waiter. */
  lemma TerminateRemoves(k: Kernel, code: nat, kind: X.ExitKind, now: nat, slack: nat)
    requires Consistent(k) && k.threads.slots[k.threads.current].state == T.Running && Caller(k) != INIT
    ensures var k' := Terminate(k, code, kind, now, slack);
            var pid := Caller(k);
            && LiveOf(k'.exits, pid) == ProcsOf(k'.ipc, pid) == ChildrenOf(k'.children, pid) == ThreadsOf(k'.threads, pid) == 0
            && Some(X.ExitRecord(pid, code, kind)) in k'.exits.table.records
  {
    hide L.Inv;
    hide X.Inv;
    hide X.Step;
    hide R.TableOk;
    hide T.ExitProcess;
    hide SelectOrWait;
    var pid := Caller(k);
    OneOfEach(k);
    TotalPositive(X.LiveW(pid), k.exits.table.live);
    hide Total;
    X.ExitKeepsStatus(k.exits, pid, code, kind);
    RecordCounts(k.exits, pid, code, kind);
    TerminateSafe(k, code, kind, now, slack);
    ConsistentInStep(Terminate(k, code, kind, now, slack));
  }

  /** After every sequence of syscalls and contained faults the tables are in step. */
  lemma TablesAgree(n: nat, calls: seq<Syscall>)
    requires 0 < n <= 255
    ensures Consistent(BootKernel(n)) && InStep(Run(BootKernel(n), calls))
  {
    hide Consistent;
    BootConsistent(n);
    ConsistentInStep(Run(BootKernel(n), calls));
  }
}
