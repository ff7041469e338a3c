/** The syscall layer over its tables: threads, exit records, the IPC manager and
    the child address-space slots. */
module KernelTables {
  import opened Prelude
  import opened Counts
  import opened Objects
  import opened Handles
  import W = Waits
  import M = IpcModel
  import L = IpcLedger
  import T = Scheduler
  import R = SchedulerRuns
  import X = ProcessExit

  const INIT: nat := T.INIT_PROCESS_ID
  const FREE_SLOT: nat := 0

  /** `children` names the process that claimed each child slot, 0 if none. */
  datatype Kernel = Kernel(threads: T.Threads, exits: X.History, ipc: M.Ipc, children: seq<nat>)

  function BootKernel(n: nat): Kernel
    requires n > 0
  {
    Kernel(T.Initial(n), X.History(X.Empty(), [], [], []), M.InitState(), seq(X.MAX_LIVE, _ => FREE_SLOT))
  }

  // ----- Waiting for something to run -----

  function Earliest(slots: seq<T.ThreadSlot>): (r: Option<nat>)
    ensures r.None? <==> forall k :: 0 <= k < |slots| ==> !slots[k].state.Sleeping?
    ensures r.Some? ==> exists k :: 0 <= k < |slots| && slots[k].state == T.Sleeping(r.value)
    ensures r.Some? ==> forall k :: 0 <= k < |slots| && slots[k].state.Sleeping? ==> r.value <= slots[k].state.wakeAt
  {
    if slots == [] then None
    else
      var rest := Earliest(slots[1..]);
      assert forall k :: 0 < k < |slots| ==> slots[k] == slots[1..][k - 1];
      if slots[0].state.Sleeping? && (rest.None? || slots[0].state.wakeAt <= rest.value) then
        assert slots[0].state == T.Sleeping(slots[0].state.wakeAt);
        Some(slots[0].state.wakeAt)
      else
        assert rest.Some? ==> exists k :: 0 <= k < |slots[1..]| && slots[1..][k].state == T.Sleeping(rest.value);
        assert forall k :: 0 <= k < |slots[1..]| ==> slots[1..][k] == slots[k + 1];
        rest
  }

  /** `select_runnable` or else `wait_until_runnable`: idle past the earliest deadline
      (by `slack` ticks at most) if anyone sleeps. */
  function SelectOrWait(t: T.Threads, now: nat, slack: nat): (T.Threads, Option<nat>)
    requires t.cursor < |t.slots|
  {
    var (t1, next) := T.Select(t, now, None);
    if next.Some? then (t1, next)
    else if Earliest(t1.slots).None? || t1.cursor >= |t1.slots| then (t1, None)
    else T.Select(t1, Earliest(t1.slots).value + slack, None)
  }

  // ----- Syscalls -----

  function Caller(k: Kernel): nat
    requires k.threads.current < |k.threads.slots|
  {
    k.threads.slots[k.threads.current].owner
  }

  function Released(children: seq<nat>, pid: nat): seq<nat> {
    match X.FirstWhere(X.IdW(pid), children)
    case None => children
    case Some(i) => children[i := FREE_SLOT]
  }

  ghost function ProcessSpawn(k: Kernel, imageOk: bool, endpoint: Handle, rights: Rights, now: nat): Kernel
    requires k.threads.current < |k.threads.slots| && k.threads.cursor < |k.threads.slots|
  {
    match X.Reserve(k.exits.table)
    case Err(_) => k
    case Ok(pid) =>
      match X.FirstWhere(X.IdW(FREE_SLOT), k.children)
      case None => k
      case Some(slot) =>
        if !imageOk || X.FirstWhere(X.IdW(pid), k.children).Some? then k
        else
          var claimed := k.children[slot := pid];
          match M.Spawn(k.ipc, INIT, pid, endpoint, rights)
          case (ipc, Err(_)) => k.(ipc := ipc, children := Released(claimed, pid))
          case (ipc, Ok(_)) =>
            match T.AllocateFor(k.threads, pid)
            case (_, None) => Undone(k, ipc, claimed, pid)
            case (threads, Some(_)) =>
              if X.CommitSpawn(k.exits.table, pid).1 then
                Kernel(threads, X.Step(k.exits, X.Spawn), ipc, claimed)
              else Undone(k.(threads := T.ExitProcess(threads, pid, now).0), ipc, claimed, pid)
  }

  /** A half-made process is taken back. */
  ghost function Undone(k: Kernel, ipc: M.Ipc, claimed: seq<nat>, pid: nat): Kernel {
    k.(ipc := Collected(ipc, pid), children := Released(claimed, pid))
  }

  ghost function Collected(ipc: M.Ipc, pid: nat): M.Ipc {
    M.ExitProcess(ipc, pid).0
  }

  /** `SYS_PROCESS_EXIT` of an isolated process, or a fault contained in it. */
  ghost function Terminate(k: Kernel, code: nat, kind: X.ExitKind, now: nat, slack: nat): Kernel
    requires k.threads.current < |k.threads.slots| && k.threads.cursor < |k.threads.slots|
  {
    var pid, me := Caller(k), k.threads.current;
    var ipc := Collected(M.CancelWaiter(k.ipc, me), pid);
    var waiter := X.RecordExit(k.exits.table, pid, code, kind).1;
    var woken := if waiter.Some? then T.WakeWaiter(k.threads, waiter.value).0 else k.threads;
    var (gone, next) := T.ExitProcess(woken, pid, now);
    var threads := if (next.Some? && next.value.Some?) || gone.cursor >= |gone.slots| then gone else SelectOrWait(gone, now, slack).0;
    Kernel(threads, X.Step(k.exits, X.Exit(pid, code, kind)), ipc, Released(k.children, pid))
  }

  function ProcessWait(k: Kernel, pid: nat, now: nat, slack: nat): Kernel
    requires k.threads.current < |k.threads.slots| && k.threads.cursor < |k.threads.slots|
  {
    var me := k.threads.current;
    var k1 := k.(exits := X.Step(k.exits, X.WaitFor(pid, me)));
    if X.Wait(k.exits.table, pid, me).1 != X.Blocked then k1
    else
      var (parked, ok) := T.BlockCurrent(k.threads);
      if !ok then k1.(exits := X.Step(k1.exits, X.Cancel(me)))
      else
        var (t, next) := SelectOrWait(parked, now, slack);
        if next.Some? || t.current >= |t.slots| then k1.(threads := t)
        else k1.(exits := X.Step(k1.exits, X.Cancel(me)), threads := T.AbortWait(t).0)
  }

  function ChannelWait(k: Kernel, endpoint: Handle, now: nat, slack: nat): Kernel
    requires k.threads.current < |k.threads.slots| && k.threads.cursor < |k.threads.slots|
  {
    var me := k.threads.current;
    var (parked, ok) := T.BlockCurrent(k.threads);
    var (ipc, outcome) := M.WaitReadable(k.ipc, Caller(k), endpoint, me, ok);
    if outcome != Ok(M.IsBlocked) then k.(ipc := ipc)
    else
      var (t, next) := SelectOrWait(parked, now, slack);
      if next.Some? || t.current >= |t.slots| || t.cursor >= |t.slots| then k.(ipc := ipc, threads := t)
      else
        var (restored, aborted) := T.AbortWait(t);
        k.(ipc := M.CancelWaiter(ipc, me), threads := if aborted then restored else T.Select(t, now, None).0)
  }

  /** Make every blocked thread of the set runnable. */
  function WakeAll(t: T.Threads, woken: set<nat>): T.Threads {
    t.(slots := seq(|t.slots|, i requires 0 <= i < |t.slots| =>
      if i in woken && t.slots[i].state == T.ChannelBlocked then t.slots[i].(state := T.Runnable) else t.slots[i]))
  }

  function ChannelSend(k: Kernel, endpoint: Handle, request: M.SendRequest): Kernel
    requires k.threads.current < |k.threads.slots|
  {
    match M.Send(k.ipc, Caller(k), endpoint, request)
    case (ipc, Err(_)) => k.(ipc := ipc)
    case (ipc, Ok(woken)) => k.(ipc := ipc, threads := WakeAll(k.threads, woken))
  }

  function ThreadCreate(k: Kernel, detached: bool, tlsOk: bool): Kernel
    requires k.threads.current < |k.threads.slots|
  {
    match T.AllocateFor(k.threads, Caller(k))
    case (_, None) => k
    case (t, Some(id)) =>
      var (t1, ok) := if detached && t.current < |t.slots| then T.Detach(t, id) else (t, true);
      if !ok || !tlsOk then k.(threads := T.DiscardUnstarted(t1, id).0) else k.(threads := t1)
  }

  function ThreadJoin(k: Kernel, target: nat, now: nat, slack: nat): Kernel
    requires k.threads.current < |k.threads.slots| && k.threads.cursor < |k.threads.slots|
  {
    var (t, outcome) := T.JoinCurrent(k.threads, target, now);
    if outcome != T.Blocked || t.current != k.threads.current || t.cursor >= |t.slots| then k.(threads := t)
    else
      var (t1, next) := SelectOrWait(t, now, slack);
      if next.Some? || t1.current >= |t1.slots| then k.(threads := t1) else k.(threads := T.AbortJoin(t1).0)
  }

  function ThreadExit(k: Kernel, code: nat, now: nat, slack: nat): Kernel
    requires k.threads.current < |k.threads.slots| && k.threads.cursor < |k.threads.slots|
  {
    var (t, outcome) := T.ExitCurrent(k.threads, code, now);
    if outcome.None? || outcome.value.next.Some? || t.cursor >= |t.slots| then k.(threads := t)
    else k.(threads := SelectOrWait(t, now, slack).0)
  }

  function ThreadSleep(k: Kernel, wakeAt: nat, now: nat, slack: nat): Kernel
    requires k.threads.current < |k.threads.slots| && k.threads.cursor < |k.threads.slots|
  {
    var (t, next) := T.SleepCurrent(k.threads, wakeAt, now);
    if next.Some? || t.cursor >= |t.slots| then k.(threads := t) else k.(threads := SelectOrWait(t, now, slack).0)
  }

  datatype Syscall =
    | Spawn(imageOk: bool, endpoint: Handle, rights: Rights, now: nat)
    | WaitProcess(pid: nat, now: nat, slack: nat)
    | Die(code: nat, kind: X.ExitKind, now: nat, slack: nat)
    | CreateChannel
    | Send(endpoint: Handle, request: M.SendRequest)
    | Receive(endpoint: Handle)
    | Close(endpoint: Handle)
    | WaitReadable(endpoint: Handle, now: nat, slack: nat)
    | Yield(now: nat)
    | Sleep(wakeAt: nat, now: nat, slack: nat)
    | CreateThread(detached: bool, tlsOk: bool)
    | Join(target: nat, now: nat, slack: nat)
    | Detach(target: nat)
    | ExitThread(code: nat, now: nat, slack: nat)

  /** Calls only init may make; an isolated process reaches none of them. */
  predicate InitOnly(c: Syscall) {
    c.Spawn? || c.WaitProcess? || c.CreateThread? || c.Join? || c.Detach? || c.ExitThread?
  }

  /** One syscall, or one contained fault, of the running thread. */
  ghost function Step(k: Kernel, c: Syscall): Kernel
    requires k.threads.current < |k.threads.slots| && k.threads.cursor < |k.threads.slots|
  {
    if k.threads.slots[k.threads.current].state != T.Running then k
    else if Caller(k) == INIT && c.Die? then k
    else if Caller(k) != INIT && InitOnly(c) then k
    else match c
      case Spawn(imageOk, endpoint, rights, now) => ProcessSpawn(k, imageOk, endpoint, rights, now)
      case WaitProcess(pid, now, slack) => ProcessWait(k, pid, now, slack)
      case Die(code, kind, now, slack) => Terminate(k, code, kind, now, slack)
      case CreateChannel => k.(ipc := M.CreatePair(k.ipc, Caller(k)).0)
      case Send(endpoint, request) => ChannelSend(k, endpoint, request)
      case Receive(endpoint) => k.(ipc := M.Receive(k.ipc, Caller(k), endpoint).0)
      case Close(endpoint) => k.(ipc := M.CloseEndpoint(k.ipc, Caller(k), endpoint).0)
      case WaitReadable(endpoint, now, slack) => ChannelWait(k, endpoint, now, slack)
      case Yield(now) => k.(threads := T.YieldCurrent(k.threads, now).0)
      case Sleep(wakeAt, now, slack) => ThreadSleep(k, wakeAt, now, slack)
      case CreateThread(detached, tlsOk) => ThreadCreate(k, detached, tlsOk)
      case Join(target, now, slack) => ThreadJoin(k, target, now, slack)
      case Detach(target) => k.(threads := T.Detach(k.threads, target).0)
      case ExitThread(code, now, slack) => ThreadExit(k, code, now, slack)
  }

  // ----- What the tables must agree on -----

  /** The isolated process a thread slot belongs to, 0 for init and for empty slots. */
  function Key(s: T.ThreadSlot): nat {
    if s.state == T.Empty || s.owner == INIT then 0 else s.owner
  }

  function KeyW(pid: nat): T.ThreadSlot -> nat {
    (s: T.ThreadSlot) => if Key(s) == pid then 1 else 0
  }

  function ProcW(pid: nat): Option<M.Proc> -> nat {
    (p: Option<M.Proc>) => if p.Some? && p.value.id == pid then 1 else 0
  }

  function RegW(w: nat): Option<W.Registration> -> nat {
    (r: Option<W.Registration>) => if r.Some? && r.value.waiter == w then 1 else 0
  }

  function ThreadsOf(t: T.Threads, pid: nat): nat {
    Total(KeyW(pid), t.slots)
  }

  function LiveOf(h: X.History, pid: nat): nat {
    Total(X.LiveW(pid), h.table.live)
  }

  function ProcsOf(s: M.Ipc, pid: nat): nat {
    Total(ProcW(pid), s.procs)
  }

  function ChildrenOf(children: seq<nat>, pid: nat): nat {
    Total(X.IdW(pid), children)
  }

  function RegsOf(s: M.Ipc, w: nat): nat {
    Total(RegW(w), s.regs)
  }

  function WaitsOf(h: X.History, w: nat): nat {
    Total(X.WaiterW(w), h.table.live)
  }

  function Parked(t: T.Threads, w: nat): nat {
    if w < |t.slots| && t.slots[w].state == T.ChannelBlocked then 1 else 0
  }

  /** One exit-table entry, one IPC process, one child slot and one thread, or none of them. */
  predicate Agree(k: Kernel, pid: nat) {
    LiveOf(k.exits, pid) == ProcsOf(k.ipc, pid) == ChildrenOf(k.children, pid) == ThreadsOf(k.threads, pid)
  }

  /** A parked thread holds exactly one registration of either kind; nobody else holds any. */
  predicate OneReason(k: Kernel, w: nat) {
    Parked(k.threads, w) == RegsOf(k.ipc, w) + WaitsOf(k.exits, w)
  }

  predicate Owned(t: T.Threads) {
    forall i :: 0 <= i < |t.slots| ==> t.slots[i].owner >= INIT
  }

  ghost predicate Consistent(k: Kernel) {
    && R.Inv(k.threads) && Owned(k.threads) && X.Inv(k.exits) && L.Inv(k.ipc) && |k.children| == X.MAX_LIVE
    && (forall pid: nat :: pid >= X.FIRST_ISOLATED_PROCESS_ID ==> Agree(k, pid))
    && (forall w: nat :: OneReason(k, w))
  }
}
