/** The processor is never left idle while a thread could run or will wake: after every
    sequence of calls the current thread runs, or no thread is runnable or sleeping. */
module KernelAwake {
  import opened Prelude
  import opened Counts
  import opened Handles
  import opened KernelTables
  import opened KernelSafety
  import opened KernelLifecycle
  import M = IpcModel
  import L = IpcLedger
  import T = Scheduler
  import R = SchedulerRuns
  import X = ProcessExit
  import Z = SchedulerOutcomes

  predicate Runs(t: T.Threads) {
    t.current < |t.slots| && t.slots[t.current].state == T.Running
  }

  predicate Awake(t: T.Threads) {
    Runs(t) || forall i :: 0 <= i < |t.slots| ==> t.slots[i].state != T.Runnable && !t.slots[i].state.Sleeping?
  }

  /** A selection that finds nothing leaves nothing runnable. */
  lemma SelectRuns(t: T.Threads, now: nat, preferred: Option<nat>)
    requires R.Idle(t)
    ensures T.Select(t, now, preferred).1.Some? ==> Runs(T.Select(t, now, preferred).0)
    ensures preferred.None? && T.Select(t, now, preferred).1.None? ==>
              forall i :: 0 <= i < |t.slots| ==> i < |T.Select(t, now, preferred).0.slots| && T.Select(t, now, preferred).0.slots[i].state != T.Runnable
  {
    hide R.TableOk;
    hide T.Select;
    R.SelectInv(t, now, preferred);
    if preferred.None? && T.Select(t, now, preferred).1.None? {
      SelectNothing(t, now);
    }
  }

  /** Idling ends with a thread running, or with nobody left to wait for. */
  lemma IdleAwake(t: T.Threads, now: nat, slack: nat)
    requires R.Idle(t)
    ensures Awake(SelectOrWait(t, now, slack).0)
    ensures SelectOrWait(t, now, slack).1.Some? ==> Runs(SelectOrWait(t, now, slack).0)
  {
    hide R.TableOk;
    hide T.Select;
    hide Earliest;
    R.SelectInv(t, now, None);
    SelectRuns(t, now, None);
    var (t1, next) := T.Select(t, now, None);
    if next.None? {
      SelectNothing(t, now);
      if Earliest(t1.slots).Some? {
        LaterWakes(t1, Earliest(t1.slots).value + slack);
        SelectRuns(t1, Earliest(t1.slots).value + slack, None);
      }
    }
  }

  // ----- Calls -----

  lemma YieldAwake(t: T.Threads, now: nat)
    requires R.Inv(t) && Runs(t)
    ensures Runs(T.YieldCurrent(t, now).0)
  {
    hide R.TableOk;
    hide T.Select;
    var u := T.Put(t, t.current, T.Runnable);
    R.PutPlain(t, t.current, T.Runnable);
    SelectRuns(u, now, None);
    Z.SelectSpares(u, now, None, t.current);
    R.SelectInv(u, now, None);
  }

  lemma SleepAwake(k: Kernel, wakeAt: nat, now: nat, slack: nat)
    requires R.Inv(k.threads) && Runs(k.threads)
    ensures Awake(ThreadSleep(k, wakeAt, now, slack).threads)
  {
    hide R.TableOk;
    hide T.Select;
    hide SelectOrWait;
    hide Awake;
    var t := k.threads;
    var u := T.Put(t, t.current, T.Sleeping(wakeAt));
    R.PutPlain(t, t.current, T.Sleeping(wakeAt));
    R.SelectInv(u, now, None);
    SelectRuns(u, now, None);
    var (t1, next) := T.SleepCurrent(t, wakeAt, now);
    RunsAwake(t1);
    if next.None? {
      IdleAwake(t1, now, slack);
    }
  }

  lemma RunsAwake(t: T.Threads)
    ensures Runs(t) ==> Awake(t)
  {
  }

  /** A thread that parks but finds nobody to take over runs on. */
  lemma ParkAwake(t: T.Threads, now: nat, slack: nat)
    requires R.Inv(t) && Runs(t)
    ensures var parked := T.BlockCurrent(t).0;
            && T.BlockCurrent(t).1 && R.Idle(parked)
            && var (t', next) := SelectOrWait(parked, now, slack);
               && R.Inv(t') && (next.Some? ==> Runs(t')) && (next.None? ==> T.AbortWait(t').1 && Runs(T.AbortWait(t').0))
  {
    hide R.TableOk;
    hide T.Select;
    hide SelectOrWait;
    hide Awake;
    R.BlockInv(t);
    var parked := T.BlockCurrent(t).0;
    WaitSafe(parked, now, slack);
    IdleAwake(parked, now, slack);
    var (t', next) := SelectOrWait(parked, now, slack);
    if next.None? {
      assert t'.current == t.current && t'.slots[t.current].state == T.ChannelBlocked;
    }
  }

  lemma ProcessWaitAwake(k: Kernel, pid: nat, now: nat, slack: nat)
    requires R.Inv(k.threads) && Runs(k.threads)
    ensures Runs(ProcessWait(k, pid, now, slack).threads)
  {
    hide R.TableOk;
    hide SelectOrWait;
    hide X.Step;
    hide X.Wait;
    ParkAwake(k.threads, now, slack);
    var parked := T.BlockCurrent(k.threads).0;
    var (t, next) := SelectOrWait(parked, now, slack);
    if X.Wait(k.exits.table, pid, k.threads.current).1 == X.Blocked {
      assert ProcessWait(k, pid, now, slack).threads == if next.Some? then t else T.AbortWait(t).0;
    } else {
      assert ProcessWait(k, pid, now, slack).threads == k.threads;
    }
  }

  lemma ChannelWaitAwake(k: Kernel, endpoint: Handle, now: nat, slack: nat)
    requires R.Inv(k.threads) && Runs(k.threads)
    ensures Runs(ChannelWait(k, endpoint, now, slack).threads)
  {
    hide R.TableOk;
    hide SelectOrWait;
    hide M.WaitReadable;
    hide M.CancelWaiter;
    ParkAwake(k.threads, now, slack);
    var (parked, ok) := T.BlockCurrent(k.threads);
    var (t, next) := SelectOrWait(parked, now, slack);
    if M.WaitReadable(k.ipc, Caller(k), endpoint, k.threads.current, ok).1 == Ok(M.IsBlocked) {
      assert ChannelWait(k, endpoint, now, slack).threads == if next.Some? then t else T.AbortWait(t).0;
    } else {
      assert ChannelWait(k, endpoint, now, slack).threads == k.threads;
    }
  }

  lemma JoinAwake(k: Kernel, target: nat, now: nat, slack: nat)
    requires R.Inv(k.threads) && Runs(k.threads) && Caller(k) == INIT
    ensures Runs(ThreadJoin(k, target, now, slack).threads)
  {
    hide R.TableOk;
    hide SelectOrWait;
    hide T.Select;
    hide Awake;
    var t := k.threads;
    var (t1, outcome) := T.JoinCurrent(t, target, now);
    if outcome == T.Blocked {
      JoinNeutral(t, target, now);
      R.JoinLinks(t, target);
      var linked := t.(slots := t.slots[target := t.slots[target].(joiner := Some(t.current))]);
      var u := T.Put(linked, t.current, T.JoinBlocked(target));
      R.SelectInv(u, now, None);
      SelectRuns(u, now, None);
      Z.SelectSpares(u, now, None, t.current);
      UnmovedSelect(u, now);
      if t1.current == t.current {
        WaitSafe(t1, now, slack);
        IdleAwake(t1, now, slack);
        var (t2, next) := SelectOrWait(t1, now, slack);
        if next.None? {
          JoinerKept(t1, now, slack);
        }
      }
    }
  }

  /** Waiting does not touch a thread blocked in a join. */
  lemma JoinerKept(t: T.Threads, now: nat, slack: nat)
    requires R.Idle(t) && t.slots[t.current].state.JoinBlocked?
    ensures t.current < |SelectOrWait(t, now, slack).0.slots| && SelectOrWait(t, now, slack).0.slots[t.current] == t.slots[t.current]
  {
    hide R.TableOk;
    hide T.Select;
    hide Earliest;
    Z.SelectSpares(t, now, None, t.current);
    var t1 := T.Select(t, now, None).0;
    if t1.cursor < |t1.slots| && Earliest(t1.slots).Some? {
      Z.SelectSpares(t1, Earliest(t1.slots).value + slack, None, t.current);
    }
  }

  lemma ExitAwake(k: Kernel, code: nat, now: nat, slack: nat)
    requires R.Inv(k.threads) && Runs(k.threads) && Caller(k) == INIT
    ensures Awake(ThreadExit(k, code, now, slack).threads)
  {
    hide R.TableOk;
    hide SelectOrWait;
    hide T.Select;
    hide Awake;
    var t := k.threads;
    RunsAwake(t);
    var (t1, outcome) := T.ExitCurrent(t, code, now);
    if outcome.Some? {
      ExitNeutral(t, code, now);
      R.StoppedIdle(t, code);
      SelectRuns(T.Stopped(t, code), now, t.slots[t.current].joiner);
      RunsAwake(t1);
      if outcome.value.next.None? {
        IdleAwake(t1, now, slack);
      }
    }
  }

  lemma TerminateAwake(k: Kernel, code: nat, kind: X.ExitKind, now: nat, slack: nat)
    requires Consistent(k) && Runs(k.threads) && Caller(k) != INIT
    ensures Awake(Terminate(k, code, kind, now, slack).threads)
  {
    hide L.Inv;
    hide X.Inv;
    hide X.RecordExit;
    hide X.Step;
    hide R.TableOk;
    hide SelectOrWait;
    hide T.Select;
    hide Awake;
    hide M.CancelWaiter;
    hide Collected;
    hide Total;
    var pid := Caller(k);
    OneOfEach(k);
    var waiter := X.RecordExit(k.exits.table, pid, code, kind).1;
    var woken := if waiter.Some? then T.WakeWaiter(k.threads, waiter.value).0 else k.threads;
    if waiter.Some? {
      R.WakeInv(k.threads, waiter.value);
    }
    assert T.OwnedBy(woken.slots[woken.current], pid);
    R.PurgedOk(woken.slots, pid);
    var p := woken.(slots := T.Purged(woken.slots, pid));
    R.SelectInv(p, now, None);
    SelectRuns(p, now, None);
    var gone := T.Select(p, now, None).0;
    RunsAwake(gone);
    if T.Select(p, now, None).1.None? {
      IdleAwake(gone, now, slack);
    }
  }

  lemma SpawnAwake(k: Kernel, imageOk: bool, endpoint: Handle, rights: Rights, now: nat)
    requires Consistent(k) && Runs(k.threads)
    ensures Runs(ProcessSpawn(k, imageOk, endpoint, rights, now).threads)
  {
    hide L.Inv;
    hide X.Inv;
    hide R.TableOk;
    hide M.Spawn;
    hide T.FirstEmpty;
    hide Collected;
    hide Released;
    hide Total;
    if X.Reserve(k.exits.table).Ok? {
      CommitsNow(k.exits);
    }
  }

  lemma CreateAwake(k: Kernel, detached: bool, tlsOk: bool)
    requires R.Inv(k.threads) && Runs(k.threads)
    ensures Runs(ThreadCreate(k, detached, tlsOk).threads)
  {
    hide R.TableOk;
    hide T.FirstEmpty;
  }

  lemma StepAwake(k: Kernel, c: Syscall)
    requires Consistent(k) && Awake(k.threads)
    ensures Awake(Step(k, c).threads)
  {
    hide L.Inv;
    hide X.Inv;
    hide R.TableOk;
    hide Agree;
    hide OneReason;
    hide ProcessSpawn;
    hide ProcessWait;
    hide Terminate;
    hide ChannelWait;
    hide ThreadSleep;
    hide ThreadCreate;
    hide ThreadJoin;
    hide ThreadExit;
    hide T.YieldCurrent;
    hide M.Send;
    hide Awake;
    RunsAwake(Step(k, c).threads);
    if Runs(k.threads) {
      var init := Caller(k) == INIT;
      match c
      case Spawn(imageOk, endpoint, rights, now) => SpawnAwake(k, imageOk, endpoint, rights, now);
      case WaitProcess(pid, now, slack) => ProcessWaitAwake(k, pid, now, slack);
      case Die(code, kind, now, slack) => if !init { TerminateAwake(k, code, kind, now, slack); }
      case WaitReadable(endpoint, now, slack) => ChannelWaitAwake(k, endpoint, now, slack);
      case Yield(now) => YieldAwake(k.threads, now);
      case Sleep(wakeAt, now, slack) => SleepAwake(k, wakeAt, now, slack);
      case CreateThread(detached, tlsOk) => CreateAwake(k, detached, tlsOk);
      case Join(target, now, slack) => if init { JoinAwake(k, target, now, slack); }
      case ExitThread(code, now, slack) => if init { ExitAwake(k, code, now, slack); }
      case _ =>
    }
  }

  lemma {:induction false} RunAwake(k: Kernel, calls: seq<Syscall>)
    requires Consistent(k) && Awake(k.threads)
    ensures Awake(Run(k, calls).threads)
    decreases |calls|
  {
    hide Step;
    hide Consistent;
    hide Awake;
    if calls != [] {
      StepRunnable(k);
      StepAwake(k, calls[0]);
      StepSafe(k, calls[0]);
      RunAwake(Step(k, calls[0]), calls[1..]);
    }
  }

  lemma StepRunnable(k: Kernel)
    requires Consistent(k)
    ensures k.threads.current < |k.threads.slots| && k.threads.cursor < |k.threads.slots|
  {
    hide L.Inv;
    hide X.Inv;
  }

  /** After every sequence of system calls and contained faults from boot. */
  lemma NeverStalls(n: nat, calls: seq<Syscall>)
    requires 0 < n <= 255
    ensures Consistent(BootKernel(n)) && Awake(Run(BootKernel(n), calls).threads)
  {
    hide Consistent;
    BootConsistent(n);
    assert Runs(BootKernel(n).threads);
    RunAwake(BootKernel(n), calls);
  }
}
