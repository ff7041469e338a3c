/** Each Channel is two FIFO sequences: what an endpoint receives is what its
    peer sent, in order, with the same header, payload, sender and capabilities. */
module IpcFifo {
  import opened Prelude
  import opened Counts
  import opened Objects
  import opened Handles
  import opened Waits
  import opened IpcModel
  import opened IpcLedger
  import opened IpcSafety
  import opened IpcCollect
  import opened IpcRuns
  import IpcRights

  /** The message a successful send enqueues. */
  function Outgoing(s: Ipc, i: nat, r: SendRequest): Message
    requires i < |s.procs| && s.procs[i].Some? && WellFormed(r)
  {
    Message(s.procs[i].value.id, r.header, r.payload[..r.payloadLen], MoveAll(s.procs[i].value.table, s.reg, Dispositions(r)).1)
  }

  /** What one step sends at endpoint `e`. */
  ghost function SentBy(s: Ipc, op: Op, e: ObjectId): seq<Message> {
    if op.DoSend? && Send(s, op.pid, op.endpoint, op.request).1.Ok? then
      var s0 := Booted(s);
      var i := ProcIndex(s0, op.pid).value;
      if Locate(s0, i, op.endpoint).value.1 == e then [Outgoing(s0, i, op.request)] else []
    else []
  }

  /** What one step receives at endpoint `e`. */
  ghost function ReceivedBy(s: Ipc, op: Op, e: ObjectId): seq<Message> {
    if op.DoReceive? && Receive(s, op.pid, op.endpoint).1.Ok? && Receive(s, op.pid, op.endpoint).1.value.Some? then
      var s0 := Booted(s);
      var (j, at) := Locate(s0, ProcIndex(s0, op.pid).value, op.endpoint).value;
      if at == e then [Inbound(s0.chans[j].value, e)[0]] else []
    else []
  }

  ghost function SentLog(ops: seq<Op>, e: ObjectId): seq<Message> {
    if ops == [] then [] else SentLog(ops[..|ops| - 1], e) + SentBy(Run(ops[..|ops| - 1]), ops[|ops| - 1], e)
  }

  ghost function ReceivedLog(ops: seq<Op>, e: ObjectId): seq<Message> {
    if ops == [] then [] else ReceivedLog(ops[..|ops| - 1], e) + ReceivedBy(Run(ops[..|ops| - 1]), ops[|ops| - 1], e)
  }

  // ----- One step -----

  /** Queue contents plus what is sent equals what is received plus the new contents, both ways. */
  ghost predicate Balanced(s: Ipc, op: Op, c: Chan, c': Chan) {
    && c'.a == c.a && c'.b == c.b
    && c.toB + SentBy(s, op, c.a) == ReceivedBy(s, op, c.b) + c'.toB
    && c.toA + SentBy(s, op, c.b) == ReceivedBy(s, op, c.a) + c'.toA
  }

  lemma SameQueues(s: Ipc, op: Op, c: Chan)
    requires SentBy(s, op, c.a) == SentBy(s, op, c.b) == ReceivedBy(s, op, c.a) == ReceivedBy(s, op, c.b) == []
    ensures Balanced(s, op, c, c)
  {
  }

  lemma SendStep(s: Ipc, op: Op, j: nat)
    requires IpcLedger.Ready(s) && op.DoSend? && j < |s.chans| && s.chans[j].Some?
    ensures |Step(s, op).chans| == |s.chans| && Step(s, op).chans[j].Some?
    ensures Balanced(s, op, s.chans[j].value, Step(s, op).chans[j].value)
  {
    hide Quiet;
    hide ChanShape;
    hide ProcShape;
    hide Exact;
    hide Linear;
    hide Total;
    hide FindProc;
    hide Locate;
    hide MoveAll;
    hide CheckAll;
    hide Require;
    hide Unwaited;
    var c := s.chans[j].value;
    if Send(s, op.pid, op.endpoint, op.request).1.Ok? {
      var i := ProcIndex(s, op.pid).value;
      var (k, e) := Locate(s, i, op.endpoint).value;
      CreatorsDiffer(s, j, j);
      CreatorsDiffer(s, j, k);
      if k != j {
        assert !HasEndpoint(s.chans[j], e);
        SameQueues(s, op, c);
      }
    } else {
      SameQueues(s, op, c);
    }
  }

  lemma ReceiveStep(s: Ipc, op: Op, j: nat)
    requires IpcLedger.Ready(s) && op.DoReceive? && j < |s.chans| && s.chans[j].Some?
    ensures |Step(s, op).chans| == |s.chans| && Step(s, op).chans[j].Some?
    ensures Balanced(s, op, s.chans[j].value, Step(s, op).chans[j].value)
  {
    hide Quiet;
    hide ChanShape;
    hide ProcShape;
    hide Exact;
    hide Linear;
    hide Total;
    hide FindProc;
    hide Locate;
    hide InstallAll;
    hide FreeCount;
    hide Require;
    var c := s.chans[j].value;
    var x := Receive(s, op.pid, op.endpoint).1;
    if x.Ok? && x.value.Some? {
      var i := ProcIndex(s, op.pid).value;
      var (k, e) := Locate(s, i, op.endpoint).value;
      CreatorsDiffer(s, j, j);
      CreatorsDiffer(s, j, k);
      if k != j {
        assert !HasEndpoint(s.chans[j], e);
        SameQueues(s, op, c);
      } else {
        assert Inbound(c, e) == [Inbound(c, e)[0]] + Inbound(c, e)[1..];
      }
    } else {
      SameQueues(s, op, c);
    }
  }

  /** The other operations leave a Channel alone, drop it, or add a new empty one. */
  lemma OtherStep(s: Ipc, op: Op, j: nat)
    requires IpcLedger.Ready(s) && !op.DoSend? && !op.DoReceive? && j < |s.chans|
    ensures |Step(s, op).chans| == |s.chans|
    ensures Step(s, op).chans[j].Some? ==>
              || Step(s, op).chans[j] == s.chans[j]
              || (&& s.chans[j].None? && Step(s, op).chans[j].value.toB == [] && Step(s, op).chans[j].value.toA == []
                  && !Live(s.reg, Step(s, op).chans[j].value.a) && !Spent(s.reg, Step(s, op).chans[j].value.a)
                  && !Live(s.reg, Step(s, op).chans[j].value.b) && !Spent(s.reg, Step(s, op).chans[j].value.b))
  {
    hide Quiet;
    hide ChanShape;
    hide ProcShape;
    hide Exact;
    hide Linear;
    hide Total;
    hide FindProc;
    hide Locate;
    hide Create;
    hide CreateThree;
    hide InsertTwo;
    hide FirstNone;
    hide ReleaseAll;
    hide Release;
    hide Garbage;
    hide Reachable;
    hide BeginMove;
    hide Install;
    hide WaitReadable;
    match op {
      case DoCreatePair(pid) =>
        if CreateThree(s.reg).1.Ok? {
          IpcRights.CreatedFresh(s.reg, LedgerOf(s));
        }
      case DoWait(q, h, w, blocks) => WaitReadableInv(s, q, h, w, blocks);
      case _ =>
    }
  }

  lemma StepFifo(s: Ipc, op: Op, j: nat)
    requires IpcLedger.Ready(s) && j < |s.chans|
    ensures |Step(s, op).chans| == |s.chans|
    ensures Step(s, op).chans[j].Some? ==>
              || (s.chans[j].Some? && Balanced(s, op, s.chans[j].value, Step(s, op).chans[j].value))
              || (&& s.chans[j].None? && Step(s, op).chans[j].value.toB == [] && Step(s, op).chans[j].value.toA == []
                  && !op.DoSend? && !op.DoReceive?
                  && !Live(s.reg, Step(s, op).chans[j].value.a) && !Spent(s.reg, Step(s, op).chans[j].value.a)
                  && !Live(s.reg, Step(s, op).chans[j].value.b) && !Spent(s.reg, Step(s, op).chans[j].value.b))
  {
    hide Inv;
    hide Step;
    hide Receive;
    hide Send;
    if op.DoSend? || op.DoReceive? {
      if s.chans[j].Some? {
        if op.DoSend? { SendStep(s, op, j); } else { ReceiveStep(s, op, j); }
      } else {
        StaysEmpty(s, op, j);
      }
    } else {
      OtherStep(s, op, j);
      if Step(s, op).chans[j].Some? && Step(s, op).chans[j] == s.chans[j] {
        SameQueues(s, op, s.chans[j].value);
      }
    }
  }

  lemma StaysEmpty(s: Ipc, op: Op, j: nat)
    requires IpcLedger.Ready(s) && (op.DoSend? || op.DoReceive?) && j < |s.chans| && s.chans[j].None?
    ensures |Step(s, op).chans| == |s.chans| && Step(s, op).chans[j].None?
  {
    hide Quiet;
    hide ChanShape;
    hide ProcShape;
    hide Exact;
    hide Linear;
    hide Total;
    hide FindProc;
    hide Locate;
    hide MoveAll;
    hide CheckAll;
    hide Require;
    hide Unwaited;
    hide InstallAll;
    hide FreeCount;
  }

  // ----- Whole runs -----

  /** Only identifiers the registry has known appear in the logs. */
  lemma {:induction false} LogsKnown(ops: seq<Op>, e: ObjectId)
    ensures SentLog(ops, e) != [] || ReceivedLog(ops, e) != [] ==> Live(Run(ops).reg, e) || Spent(Run(ops).reg, e)
  {
    hide Step;
    if ops != [] {
      var before, op := ops[..|ops| - 1], ops[|ops| - 1];
      LogsKnown(before, e);
      RunInv(before);
      var s := Run(before);
      if SentBy(s, op, e) != [] || ReceivedBy(s, op, e) != [] {
        LocatedLive(s, op, e);
      }
      KnownPersists(s, op, e);
    }
  }

  lemma KnownPersists(s: Ipc, op: Op, e: ObjectId)
    requires Inv(s)
    ensures Live(s.reg, e) || Spent(s.reg, e) ==> Live(Step(s, op).reg, e) || Spent(Step(s, op).reg, e)
  {
    hide Step;
    hide Linear;
    hide Quiet;
    StepInv(s, op);
    IdsNeverReturn(s.reg, Step(s, op).reg, e);
  }

  lemma LocatedLive(s: Ipc, op: Op, e: ObjectId)
    requires Inv(s) && (SentBy(s, op, e) != [] || ReceivedBy(s, op, e) != [])
    ensures Live(s.reg, e)
  {
    hide Quiet;
    hide ChanShape;
    hide Exact;
    hide Linear;
    hide Total;
    hide FindProc;
    hide FindChan;
    BootedInv(s);
    var s0 := Booted(s);
    var i := ProcIndex(s0, op.pid).value;
    assert Locate(s0, i, op.endpoint).value.1 == e;
    assert Resolves(s0.procs[i].value.table, op.endpoint);
    if s.procs[0].None? {
      BootedFresh(s);
      assert false;
    }
  }

  /** In every run and for every live Channel: what one endpoint sent is what the
      other received followed by what is still queued. */
  lemma {:induction false} FifoOrder(ops: seq<Op>, j: nat)
    requires j < |Run(ops).chans| && Run(ops).chans[j].Some?
    ensures var c := Run(ops).chans[j].value;
            && SentLog(ops, c.a) == ReceivedLog(ops, c.b) + c.toB
            && SentLog(ops, c.b) == ReceivedLog(ops, c.a) + c.toA
  {
    hide Step;
    hide Balanced;
    hide Linear;
    hide Exact;
    hide Quiet;
    hide ProcShape;
    hide SentBy;
    hide ReceivedBy;
    hide Booted;
    if ops != [] {
      var before, op := ops[..|ops| - 1], ops[|ops| - 1];
      var s := Run(before);
      RunInv(before);
      StepInv(s, op);
      UnbootedSame(s, op);
      StepFifo(Booted(s), op, j);
      var c' := Run(ops).chans[j].value;
      if Booted(s).chans[j].Some? && Balanced(Booted(s), op, Booted(s).chans[j].value, c') {
        FifoOrder(before, j);
        assert ops == before + [op];
        BalancedMeans(s, op, s.chans[j].value, c');
        Extend(before, op, c'.a, c'.b, s.chans[j].value.toB, c'.toB);
        Extend(before, op, c'.b, c'.a, s.chans[j].value.toA, c'.toA);
      } else {
        assert ops == before + [op];
        FreshLogs(before, op, c'.a);
        FreshLogs(before, op, c'.b);
      }
    }
  }

  lemma UnbootedSame(s: Ipc, op: Op)
    requires Inv(s)
    ensures IpcLedger.Ready(Booted(s)) && Booted(s).chans == s.chans
    ensures forall e :: SentBy(Booted(s), op, e) == SentBy(s, op, e) && ReceivedBy(Booted(s), op, e) == ReceivedBy(s, op, e)
    ensures Step(Booted(s), op).chans == Step(s, op).chans
  {
    hide Linear;
    hide Quiet;
    hide Exact;
    hide Create;
    hide ExitProcess;
    BootedInv(s);
    if s.procs[0].None? && op.DoExit? {
      FirstStep(s, op);
    }
  }

  lemma FirstStep(s: Ipc, op: Op)
    requires Inv(s) && s.procs[0].None? && op.DoExit?
    ensures Step(Booted(s), op).chans == s.chans == Step(s, op).chans
  {
    hide Linear;
    hide Quiet;
    hide Exact;
    BootedFresh(s);
    BootedInv(s);
  }

  lemma BalancedMeans(s: Ipc, op: Op, c: Chan, c': Chan)
    requires Inv(s) && Balanced(Booted(s), op, c, c')
    ensures c'.a == c.a && c'.b == c.b
    ensures c.toB + SentBy(s, op, c.a) == ReceivedBy(s, op, c.b) + c'.toB
    ensures c.toA + SentBy(s, op, c.b) == ReceivedBy(s, op, c.a) + c'.toA
  {
    hide Inv;
    hide SentBy;
    hide ReceivedBy;
    UnbootedSame(s, op);
  }

  lemma Extend(before: seq<Op>, op: Op, from: ObjectId, to: ObjectId, q: seq<Message>, q': seq<Message>)
    requires SentLog(before, from) == ReceivedLog(before, to) + q
    requires q + SentBy(Run(before), op, from) == ReceivedBy(Run(before), op, to) + q'
    ensures SentLog(before + [op], from) == ReceivedLog(before + [op], to) + q'
  {
    hide SentBy;
    hide ReceivedBy;
    hide Run;
    assert (before + [op])[..|before + [op]| - 1] == before;
    calc {
      SentLog(before + [op], from);
      ReceivedLog(before, to) + q + SentBy(Run(before), op, from);
      ReceivedLog(before, to) + (q + SentBy(Run(before), op, from));
      ReceivedLog(before, to) + (ReceivedBy(Run(before), op, to) + q');
      ReceivedLog(before + [op], to) + q';
    }
  }

  lemma FreshLogs(before: seq<Op>, op: Op, e: ObjectId)
    requires !op.DoSend? && !op.DoReceive?
    requires !Live(Booted(Run(before)).reg, e) && !Spent(Booted(Run(before)).reg, e)
    ensures SentLog(before + [op], e) == [] && ReceivedLog(before + [op], e) == []
  {
    hide Booted;
    hide Linear;
    hide Quiet;
    RunInv(before);
    var s := Run(before);
    BootedInv(s);
    IdsNeverReturn(s.reg, Booted(s).reg, e);
    LogsKnown(before, e);
    assert (before + [op])[..|before + [op]| - 1] == before;
  }

  /** The n-th message received at an endpoint is the n-th its peer sent. */
  lemma NthReceivedIsNthSent(ops: seq<Op>, j: nat, n: nat)
    requires j < |Run(ops).chans| && Run(ops).chans[j].Some?
    ensures var c := Run(ops).chans[j].value;
            && (n < |ReceivedLog(ops, c.b)| ==> n < |SentLog(ops, c.a)| && ReceivedLog(ops, c.b)[n] == SentLog(ops, c.a)[n])
            && (n < |ReceivedLog(ops, c.a)| ==> n < |SentLog(ops, c.b)| && ReceivedLog(ops, c.a)[n] == SentLog(ops, c.b)[n])
  {
    hide Run;
    hide SentLog;
    hide ReceivedLog;
    FifoOrder(ops, j);
  }

  /** A receive hands out exactly the head message: its header, payload and kernel
      sender, and one fresh handle per escrowed capability naming just that capability. */
  lemma ReceiveDelivers(s: Ipc, pid: nat, h: Handle, k: nat)
    requires Inv(s) && Receive(s, pid, h).1.Ok? && Receive(s, pid, h).1.value.Some?
    ensures var s0 := Booted(s);
            var i := ProcIndex(s0, pid).value;
            var (j, e) := Locate(s0, i, h).value;
            var m := Inbound(s0.chans[j].value, e)[0];
            var got := Receive(s, pid, h).1.value.value;
            var t' := Receive(s, pid, h).0.procs[i].value.table;
            && got.sender == m.sender && got.header == m.header && got.payload == m.payload
            && |got.handles| == |m.tokens|
            && (k < |m.tokens| ==>
                  && Resolves(t', got.handles[k]) && t'[got.handles[k].slot].capability == Some(m.tokens[k])
                  && !Resolves(s0.procs[i].value.table, got.handles[k]))
  {
    hide Linear;
    hide Quiet;
    hide Exact;
    hide Total;
    hide FindProc;
    hide Locate;
    hide Require;
    hide InstallAll;
    hide FreeCount;
    BootedInv(s);
    var s0 := Booted(s);
    var i := ProcIndex(s0, pid).value;
    var (j, e) := Locate(s0, i, h).value;
    var m := Inbound(s0.chans[j].value, e)[0];
    InstallAllCount(s0.procs[i].value.table, m.tokens);
    if k < |m.tokens| {
      InstallAllResolve(s0.procs[i].value.table, m.tokens, k);
    }
  }

  /** The identity stamped on a message is the sending process, whatever the payload says. */
  lemma SenderIsKernelIdentity(s: Ipc, op: Op, e: ObjectId)
    requires Inv(s) && op.DoSend? && SentBy(s, op, e) != []
    ensures SentBy(s, op, e)[0].sender == op.pid
  {
    hide Linear;
    hide Quiet;
    hide Exact;
    hide Locate;
    hide MoveAll;
    hide ChannelSend;
    BootedInv(s);
  }
}
