/** What holds over every run of the IPC manager. */
module IpcRuns {
  import opened Prelude
  import opened Counts
  import opened Objects
  import opened Handles
  import opened Waits
  import opened IpcModel
  import opened IpcLedger
  import opened IpcSafety
  import opened IpcCollect

  /** One call into the manager; nothing about its arguments is trusted. */
  datatype Op =
    | DoCreatePair(pid: nat)
    | DoSpawn(parent: nat, child: nat, source: Handle, rights: Rights)
    | DoSend(pid: nat, endpoint: Handle, request: SendRequest)
    | DoReceive(pid: nat, endpoint: Handle)
    | DoWait(pid: nat, endpoint: Handle, waiter: nat, blocks: bool)
    | DoCancel(waiter: nat)
    | DoClose(pid: nat, endpoint: Handle)
    | DoExit(pid: nat)

  ghost function Step(s: Ipc, op: Op): Ipc {
    match op
    case DoCreatePair(pid) => CreatePair(s, pid).0
    case DoSpawn(parent, child, source, rights) => Spawn(s, parent, child, source, rights).0
    case DoSend(pid, endpoint, request) => Send(s, pid, endpoint, request).0
    case DoReceive(pid, endpoint) => Receive(s, pid, endpoint).0
    case DoWait(pid, endpoint, waiter, blocks) => WaitReadable(s, pid, endpoint, waiter, blocks).0
    case DoCancel(waiter) => IpcModel.CancelWaiter(s, waiter)
    case DoClose(pid, endpoint) => CloseEndpoint(s, pid, endpoint).0
    case DoExit(pid) => ExitProcess(s, pid).0
  }

  /** The state after a run from power-on. */
  ghost function Run(ops: seq<Op>): Ipc {
    if ops == [] then InitState() else Step(Run(ops[..|ops| - 1]), ops[|ops| - 1])
  }

  lemma EvolvedRefl(slots: Slots)
    ensures Evolved(slots, slots)
  {
  }

  lemma StepInv(s: Ipc, op: Op)
    requires Inv(s)
    ensures Inv(Step(s, op))
    ensures Evolved(s.reg, Step(s, op).reg)
  {
    hide Linear;
    hide Exact;
    hide Quiet;
    hide ChanShape;
    hide ProcShape;
    hide Booted;
    hide CreatePair;
    hide Spawn;
    hide Send;
    hide Receive;
    hide WaitReadable;
    hide CloseEndpoint;
    hide ExitProcess;
    EvolvedRefl(s.reg);
    BootedInv(s);
    match op
    case DoCreatePair(pid) => CreatePairInv(s, pid); EvolvedTrans(s.reg, Booted(s).reg, Step(s, op).reg);
    case DoSpawn(parent, child, source, rights) => SpawnInv(s, parent, child, source, rights); EvolvedTrans(s.reg, Booted(s).reg, Step(s, op).reg);
    case DoSend(pid, endpoint, request) => SendInv(s, pid, endpoint, request);
    case DoReceive(pid, endpoint) => ReceiveInv(s, pid, endpoint);
    case DoWait(pid, endpoint, waiter, blocks) => WaitReadableInv(s, pid, endpoint, waiter, blocks);
    case DoCancel(waiter) => CancelInv(s, waiter);
    case DoClose(pid, endpoint) => CloseInv(s, pid, endpoint); EvolvedTrans(s.reg, Booted(s).reg, Step(s, op).reg);
    case DoExit(pid) => ExitInv(s, pid);
  }

  lemma {:induction false} RunInv(ops: seq<Op>)
    ensures Inv(Run(ops))
  {
    hide Inv;
    hide Step;
    if ops == [] {
      InitInv();
    } else {
      RunInv(ops[..|ops| - 1]);
      StepInv(Run(ops[..|ops| - 1]), ops[|ops| - 1]);
    }
  }

  /** After any run each reference count is exactly the manager's own reference
      plus the handle entries plus the escrow tokens, nothing held is dead,
      nothing live is unheld, and every endpoint has at most one holder. */
  lemma ExactAccounting(ops: seq<Op>, o: ObjectId)
    ensures var s := Run(ops);
            && (Live(s.reg, o) <==> CreatorRefs(s, o) + HandleRefs(s, o) + EscrowRefs(s, o) > 0)
            && (Live(s.reg, o) ==> s.reg[o.slot].references == CreatorRefs(s, o) + HandleRefs(s, o) + EscrowRefs(s, o))
            && HandleRefs(s, o) + EscrowRefs(s, o) <= 1 && CreatorRefs(s, o) <= 1
            && (HandleRefs(s, o) + EscrowRefs(s, o) == 1 ==> exists j :: 0 <= j < |s.chans| && HasEndpoint(s.chans[j], o))
  {
    hide Run;
    hide Total;
    RunInv(ops);
    var s := Run(ops);
    UnheldDead(s.reg, LedgerOf(s), o);
    assert LedgerOf(s)(o) == CreatorRefs(s, o) + HandleRefs(s, o) + EscrowRefs(s, o);
    if Live(s.reg, o) {
      assert IdAt(s.reg, o.slot) == o;
    }
  }

  /** The manager's memory is bounded: no run outgrows three processes of 64 handles, 16
      Channels of eight messages each way, 128 objects and eight waits. */
  lemma Bounded(ops: seq<Op>)
    ensures var s := Run(ops);
            && |s.procs| == 3 && |s.chans| == 16 && |s.reg| == 128 && |s.regs| == 8
            && (forall i :: 0 <= i < 3 && s.procs[i].Some? ==> |s.procs[i].value.table| == 64)
            && (forall j :: 0 <= j < 16 && s.chans[j].Some? ==> |s.chans[j].value.toA| <= 8 && |s.chans[j].value.toB| <= 8)
            && (forall j, k :: 0 <= j < 16 && s.chans[j].Some? && 0 <= k < |s.chans[j].value.toA| ==>
                  |s.chans[j].value.toA[k].tokens| <= 4 && |s.chans[j].value.toA[k].payload| <= 128)
            && (forall j, k :: 0 <= j < 16 && s.chans[j].Some? && 0 <= k < |s.chans[j].value.toB| ==>
                  |s.chans[j].value.toB[k].tokens| <= 4 && |s.chans[j].value.toB[k].payload| <= 128)
  {
    hide Run;
    hide Linear;
    hide Exact;
    RunInv(ops);
  }

  /** After any run a waiter is registered only where there is nothing to read, and
      only once. */
  lemma NoLostWakeup(ops: seq<Op>, i: nat, j: nat)
    requires i < MAX_WAIT_ITEMS && j < CHANNEL_CAPACITY
    ensures var s := Run(ops);
            && |s.regs| == MAX_WAIT_ITEMS && |s.chans| == CHANNEL_CAPACITY
            && (s.regs[i].Some? && HasEndpoint(s.chans[j], s.regs[i].value.target) ==>
                  Inbound(s.chans[j].value, s.regs[i].value.target) == [])
            && (forall k :: 0 <= k < MAX_WAIT_ITEMS && k != i && s.regs[i].Some? && s.regs[k].Some? ==> s.regs[k].value.waiter != s.regs[i].value.waiter)
  {
    hide Run;
    hide Linear;
    hide Exact;
    RunInv(ops);
  }

  /** What a send takes off the registrations is what it wakes. */
  lemma SendNotifies(s: Ipc, pid: nat, endpoint: Handle, r: SendRequest)
    requires Send(s, pid, endpoint, r).1.Ok?
    ensures exists o :: Send(s, pid, endpoint, r).0.regs == Unwaited(s.regs, o) && Send(s, pid, endpoint, r).1.value == WokenBy(s.regs, o)
  {
    hide Locate;
    hide MoveAll;
    hide CheckAll;
    hide Require;
    hide Unwaited;
    hide WokenBy;
    hide Total;
    var s0 := Booted(s);
    assert s0.regs == s.regs;
    hide Booted;
    var i := ProcIndex(s0, pid).value;
    var (j, e) := Locate(s0, i, endpoint).value;
    var o := Peer(s0.chans[j].value, e);
    assert Send(s, pid, endpoint, r).0.regs == Unwaited(s.regs, o) && Send(s, pid, endpoint, r).1.value == WokenBy(s.regs, o);
  }

  /** In every run, a send that gives a waiting endpoint something to read hands its
      waiter out to be made ready, and ends that wait. */
  lemma SendWakes(ops: seq<Op>, pid: nat, endpoint: Handle, r: SendRequest, k: nat, j: nat)
    requires Send(Run(ops), pid, endpoint, r).1.Ok? && k < |Run(ops).regs| && Run(ops).regs[k].Some?
    requires var s' := Send(Run(ops), pid, endpoint, r).0;
             && j < |s'.chans| && HasEndpoint(s'.chans[j], Run(ops).regs[k].value.target)
             && Inbound(s'.chans[j].value, Run(ops).regs[k].value.target) != []
    ensures Run(ops).regs[k].value.waiter in Send(Run(ops), pid, endpoint, r).1.value
    ensures forall n :: 0 <= n < |Send(Run(ops), pid, endpoint, r).0.regs| && Send(Run(ops), pid, endpoint, r).0.regs[n].Some? ==>
              Send(Run(ops), pid, endpoint, r).0.regs[n].value.waiter != Run(ops).regs[k].value.waiter
  {
    hide Run;
    hide Linear;
    hide Exact;
    hide Inbound;
    var s := Run(ops);
    RunInv(ops);
    SendInv(s, pid, endpoint, r);
    SendNotifies(s, pid, endpoint, r);
    hide Send;
    hide Unwaited;
    hide WokenBy;
    hide Quiet;
    var s' := Send(s, pid, endpoint, r).0;
    var o :| s'.regs == Unwaited(s.regs, o) && Send(s, pid, endpoint, r).1.value == WokenBy(s.regs, o);
    QuietWakes(s, s', o, k, j);
  }

  /** Between two quiet states, a registration whose endpoint became readable was notified. */
  lemma QuietWakes(s: Ipc, s': Ipc, o: ObjectId, k: nat, j: nat)
    requires Quiet(s) && Quiet(s') && s'.regs == Unwaited(s.regs, o) && k < |s.regs| && s.regs[k].Some?
    requires j < |s'.chans| && HasEndpoint(s'.chans[j], s.regs[k].value.target) && Inbound(s'.chans[j].value, s.regs[k].value.target) != []
    ensures s.regs[k].value.waiter in WokenBy(s.regs, o)
    ensures forall n :: 0 <= n < |s'.regs| && s'.regs[n].Some? ==> s'.regs[n].value.waiter != s.regs[k].value.waiter
  {
    hide Inbound;
    assert s'.regs[k].None?;
    var n :| 0 <= n < |s.regs| && Matches(s.regs[n], o, {Readable}) && KeyOf(s.regs[n].value) == KeyOf(s.regs[k].value);
  }

  // ----- Identifiers and handles never come back -----

  lemma {:induction false} RunEvolved(ops: seq<Op>, n: nat)
    requires n <= |ops|
    ensures Evolved(Run(ops[..n]).reg, Run(ops).reg)
    decreases |ops| - n
  {
    hide Step;
    if n == |ops| {
      assert ops[..n] == ops;
      EvolvedRefl(Run(ops).reg);
    } else {
      var next := ops[..n + 1];
      RunInv(ops[..n]);
      assert next[..|next| - 1] == ops[..n];
      StepInv(Run(ops[..n]), ops[n]);
      RunEvolved(ops, n + 1);
      EvolvedTrans(Run(ops[..n]).reg, Run(next).reg, Run(ops).reg);
    }
  }

  /** An identifier that was live and then was not is never live again. */
  lemma IdNeverLiveAgain(ops: seq<Op>, m: nat, n: nat, o: ObjectId)
    requires m <= n <= |ops|
    requires Live(Run(ops[..m]).reg, o) && !Live(Run(ops[..n]).reg, o)
    ensures !Live(Run(ops).reg, o)
  {
    hide Run;
    RunInv(ops[..m]);
    RunInv(ops[..n]);
    RunInv(ops);
    assert ops[..n][..m] == ops[..m];
    RunEvolved(ops[..n], m);
    RunEvolved(ops, n);
    IdsNeverReturn(Run(ops[..m]).reg, Run(ops[..n]).reg, o);
    IdsNeverReturn(Run(ops[..n]).reg, Run(ops).reg, o);
  }
}
