/** Authority over whole runs: handles never come back, rights only shrink, and
    a capability without TRANSFER stays with its process until it is closed. */
module IpcRights {
  import opened Prelude
  import opened Counts
  import opened Objects
  import opened Handles
  import opened Waits
  import opened IpcModel
  import opened IpcLedger
  import opened IpcSafety
  import opened IpcCollect
  import opened IpcRuns

  function TableOf(s: Ipc, pid: nat): Option<Table> {
    match ProcIndex(s, pid)
    case None => None
    case Some(i) => Some(s.procs[i].value.table)
  }

  lemma ProcIndexAt(s: Ipc, i: nat, pid: nat)
    requires ProcShape(s) && s.procs[0].Some? && i < |s.procs|
    ensures ProcIndex(s, pid) == Some(i) <==> s.procs[i].Some? && s.procs[i].value.id == pid
  {
  }

  /** A capability without TRANSFER keeps its slot. */
  predicate KeepsBound(t: Table, t': Table) {
    |t| == |t'| && forall k :: 0 <= k < |t| && t[k].capability.Some? && Transfer !in t[k].capability.value.rights ==> t'[k] == t[k]
  }

  predicate Aging(t: Table, t': Table) {
    TableEvolved(t, t') && KeepsBound(t, t')
  }

  lemma AgingRefl(t: Table)
    ensures Aging(t, t)
  {
  }

  // ----- One step, one table -----

  lemma CreatePairTable(s: Ipc, q: nat, i: nat)
    requires IpcLedger.Ready(s) && i < |s.procs| && s.procs[i].Some?
    ensures var s' := CreatePair(s, q).0;
            && |s'.procs| == |s.procs| && s'.procs[i].Some? && s'.procs[i].value.id == s.procs[i].value.id
            && Aging(s.procs[i].value.table, s'.procs[i].value.table)
  {
    hide Linear;
    hide Quiet;
    hide ChanShape;
    hide Exact;
    hide Total;
    hide CreateThree;
    hide InsertTwo;
    hide FirstNone;
    hide FindProc;
    hide ReleaseAll;
    AgingRefl(s.procs[i].value.table);
    if ProcIndex(s, q) == Some(i) && CreateThree(s.reg).1.Ok? {
      CreateThreeExact(s.reg, LedgerOf(s));
      var (c, a, b) := CreateThree(s.reg).1.value;
      var l: Ledger := x => LedgerOf(s)(x) + One(c, x) + One(a, x) + One(b, x);
      InsertTwoTable(s.procs[i].value.table, CreateThree(s.reg).0, a, b, l, a);
    }
  }

  lemma SpawnTable(s: Ipc, parent: nat, child: nat, h: Handle, rights: Rights, i: nat)
    requires IpcLedger.Ready(s) && i < |s.procs| && s.procs[i].Some?
    ensures var s' := Spawn(s, parent, child, h, rights).0;
            && |s'.procs| == |s.procs| && s'.procs[i].Some? && s'.procs[i].value.id == s.procs[i].value.id
            && Aging(s.procs[i].value.table, s'.procs[i].value.table)
  {
    hide Linear;
    hide Quiet;
    hide ChanShape;
    hide Exact;
    hide Total;
    hide FindProc;
    hide Create;
    hide Release;
    hide Install;
    hide Locate;
    AgingRefl(s.procs[i].value.table);
    var t0, r := s.procs[0].value.table, Create(s.reg, AddressSpace).0;
    if CheckMove(t0, r, h, rights).Ok? {
      VacateEvolved(t0, h.slot);
    }
  }

  lemma SendTable(s: Ipc, q: nat, h: Handle, r: SendRequest, i: nat)
    requires IpcLedger.Ready(s) && i < |s.procs| && s.procs[i].Some?
    ensures var s' := Send(s, q, h, r).0;
            && |s'.procs| == |s.procs| && s'.procs[i].Some? && s'.procs[i].value.id == s.procs[i].value.id
            && Aging(s.procs[i].value.table, s'.procs[i].value.table)
  {
    hide Linear;
    hide Quiet;
    hide ChanShape;
    hide Exact;
    hide Total;
    hide FindProc;
    hide Locate;
    hide CheckAll;
    hide MoveAll;
    hide Movable;
    hide Require;
    hide Unwaited;
    AgingRefl(s.procs[i].value.table);
    var t0 := s.procs[i].value.table;
    if WellFormed(r) && CheckAll(t0, s.reg, Dispositions(r), 0).Ok? {
      NothingMoved(t0, s.reg, Dispositions(r));
      CheckAllMovable(t0, s.reg, Dispositions(r), 0);
      MoveAllSlots(t0, s.reg, Dispositions(r));
    }
  }

  lemma ReceiveTable(s: Ipc, q: nat, h: Handle, i: nat)
    requires IpcLedger.Ready(s) && i < |s.procs| && s.procs[i].Some?
    ensures var s' := Receive(s, q, h).0;
            && |s'.procs| == |s.procs| && s'.procs[i].Some? && s'.procs[i].value.id == s.procs[i].value.id
            && Aging(s.procs[i].value.table, s'.procs[i].value.table)
  {
    hide Linear;
    hide Quiet;
    hide ChanShape;
    hide Exact;
    hide Total;
    hide FindProc;
    hide Locate;
    hide Require;
    hide InstallAll;
    hide FreeCount;
    AgingRefl(s.procs[i].value.table);
    if ProcIndex(s, q) == Some(i) && Locate(s, i, h).Ok? {
      var (j, e) := Locate(s, i, h).value;
      if Inbound(s.chans[j].value, e) != [] {
        InstallAllSlots(s.procs[i].value.table, Inbound(s.chans[j].value, e)[0].tokens);
      }
    }
  }

  lemma CloseTable(s: Ipc, q: nat, h: Handle, i: nat)
    requires IpcLedger.Ready(s) && i < |s.procs| && s.procs[i].Some?
    ensures var s' := CloseEndpoint(s, q, h).0;
            && |s'.procs| == |s.procs| && s'.procs[i].Some? && s'.procs[i].value.id == s.procs[i].value.id
            && TableEvolved(s.procs[i].value.table, s'.procs[i].value.table)
            && (s.procs[i].value.id != q ==> s'.procs[i] == s.procs[i])
  {
    hide Linear;
    hide Quiet;
    hide ChanShape;
    hide Exact;
    hide Total;
    hide FindProc;
    hide Locate;
    hide Garbage;
    hide Survivors;
    hide ReleaseAll;
    hide Release;
    AgingRefl(s.procs[i].value.table);
    ProcIndexAt(s, i, q);
    if SlotOf(s.procs[i].value.table, h).Ok? && s.procs[i].value.table[h.slot].generation < U32_MAX {
      VacateEvolved(s.procs[i].value.table, h.slot);
    }
  }

  lemma ExitTable(s: Ipc, q: nat, i: nat)
    requires IpcLedger.Ready(s) && i < |s.procs| && s.procs[i].Some?
    ensures var s' := ExitProcess(s, q).0;
            && |s'.procs| == |s.procs|
            && s'.procs[i] == (if s.procs[i].value.id == q && q != INIT_PROCESS_ID then None else s.procs[i])
  {
    hide Linear;
    hide Quiet;
    hide ChanShape;
    hide Exact;
    hide Total;
    hide FindProc;
    hide Garbage;
    hide Survivors;
    hide ReleaseAll;
    ProcIndexAt(s, i, q);
  }

  /** Over one step a live process keeps its table, or exits. Its slots only age, and
      only its own close takes away a capability without TRANSFER. */
  lemma StepTable(s: Ipc, op: Op, pid: nat)
    requires Inv(s) && TableOf(s, pid).Some?
    ensures TableOf(Step(s, op), pid).None? ==> op == DoExit(pid) && pid != INIT_PROCESS_ID
    ensures TableOf(Step(s, op), pid).Some? ==>
              && TableEvolved(TableOf(s, pid).value, TableOf(Step(s, op), pid).value)
              && (KeepsBound(TableOf(s, pid).value, TableOf(Step(s, op), pid).value) || (op.DoClose? && op.pid == pid))
  {
    hide Linear;
    hide Quiet;
    hide ChanShape;
    hide Exact;
    hide CreatePair;
    hide Spawn;
    hide Send;
    hide Receive;
    hide WaitReadable;
    hide CloseEndpoint;
    hide ExitProcess;
    hide FindProc;
    hide TableEvolved;
    hide KeepsBound;
    var i := ProcIndex(s, pid).value;
    var s' := Step(s, op);
    ProcIndexAt(s, i, pid);
    AgingRefl(s.procs[i].value.table);
    StepInv(s, op);
    match op {
      case DoCreatePair(q) => CreatePairTable(s, q, i);
      case DoSpawn(parent, child, h, rights) => SpawnTable(s, parent, child, h, rights, i);
      case DoSend(q, h, r) => SendTable(s, q, h, r, i);
      case DoReceive(q, h) => ReceiveTable(s, q, h, i);
      case DoWait(q, h, w, blocks) => WaitReadableInv(s, q, h, w, blocks);
      case DoCancel(w) =>
      case DoClose(q, h) => CloseTable(s, q, h, i);
      case DoExit(q) => ExitTable(s, q, i); ExitInv(s, q);
    }
    if s'.procs[i].Some? {
      ProcZero(s, op);
      ProcIndexAt(s', i, pid);
    }
  }

  lemma ProcZero(s: Ipc, op: Op)
    requires Inv(s) && s.procs[0].Some?
    ensures |Step(s, op).procs| == |s.procs| && Step(s, op).procs[0].Some?
  {
    hide Linear;
    hide Quiet;
    hide ChanShape;
    hide Exact;
    hide CreatePair;
    hide Spawn;
    hide Send;
    hide Receive;
    hide WaitReadable;
    hide CloseEndpoint;
    hide ExitProcess;
    match op {
      case DoCreatePair(q) => CreatePairTable(s, q, 0);
      case DoSpawn(parent, child, h, rights) => SpawnTable(s, parent, child, h, rights, 0);
      case DoSend(q, h, r) => SendTable(s, q, h, r, 0);
      case DoReceive(q, h) => ReceiveTable(s, q, h, 0);
      case DoWait(q, h, w, blocks) => WaitReadableInv(s, q, h, w, blocks);
      case DoCancel(w) =>
      case DoClose(q, h) => CloseTable(s, q, h, 0);
      case DoExit(q) => ExitTable(s, q, 0);
    }
  }

  // ----- Whole runs, one table -----

  /** The process is live after every prefix from `m` on. */
  ghost predicate LiveSince(ops: seq<Op>, m: nat, pid: nat) {
    m <= |ops| && forall n :: m <= n <= |ops| ==> TableOf(Run(ops[..n]), pid).Some?
  }

  lemma TableEvolvedTrans(a: Table, b: Table, c: Table)
    requires TableEvolved(a, b) && TableEvolved(b, c)
    ensures TableEvolved(a, c)
  {
    forall i | 0 <= i < |a|
      ensures SlotAged(a[i], c[i])
    {
      assert SlotAged(a[i], b[i]) && SlotAged(b[i], c[i]);
    }
  }

  lemma {:induction false} RunTable(ops: seq<Op>, m: nat, n: nat, pid: nat)
    requires m <= n <= |ops| && LiveSince(ops, m, pid)
    ensures TableEvolved(TableOf(Run(ops[..m]), pid).value, TableOf(Run(ops[..n]), pid).value)
    decreases n - m
  {
    hide Step;
    hide TableOf;
    if m < n {
      RunTable(ops, m, n - 1, pid);
      RunInv(ops[..n - 1]);
      var next := ops[..n];
      assert next[..|next| - 1] == ops[..n - 1];
      StepTable(Run(ops[..n - 1]), ops[n - 1], pid);
      TableEvolvedTrans(TableOf(Run(ops[..m]), pid).value, TableOf(Run(ops[..n - 1]), pid).value, TableOf(Run(ops[..n]), pid).value);
    } else {
      assert forall k :: 0 <= k < |TableOf(Run(ops[..m]), pid).value| ==>
        SlotAged(TableOf(Run(ops[..m]), pid).value[k], TableOf(Run(ops[..m]), pid).value[k]);
    }
  }

  /** While a process lives, a handle value that stopped resolving never resolves
      again, and until then it names the capability it always named. */
  lemma HandleNeverResolvesAgain(ops: seq<Op>, m: nat, n: nat, pid: nat, h: Handle)
    requires m <= n <= |ops| && LiveSince(ops, m, pid)
    requires Resolves(TableOf(Run(ops[..m]), pid).value, h)
    ensures !Resolves(TableOf(Run(ops[..n]), pid).value, h) ==> !Resolves(TableOf(Run(ops[..|ops|]), pid).value, h)
    ensures Resolves(TableOf(Run(ops[..n]), pid).value, h) ==>
              TableOf(Run(ops[..n]), pid).value[h.slot].capability == TableOf(Run(ops[..m]), pid).value[h.slot].capability
  {
    hide Run;
    hide TableOf;
    RunTable(ops, m, n, pid);
    HandlesNeverReturn(TableOf(Run(ops[..m]), pid).value, TableOf(Run(ops[..n]), pid).value, h);
    assert LiveSince(ops, n, pid);
    RunTable(ops, n, |ops|, pid);
    HandlesNeverReturn(TableOf(Run(ops[..n]), pid).value, TableOf(Run(ops[..|ops|]), pid).value, h);
  }

  /** A capability without TRANSFER leaves its process only by that process's own close or exit. */
  lemma BoundStays(ops: seq<Op>, op: Op, pid: nat, k: nat)
    requires TableOf(Run(ops), pid).Some? && k < |TableOf(Run(ops), pid).value|
    requires TableOf(Run(ops), pid).value[k].capability.Some?
    requires Transfer !in TableOf(Run(ops), pid).value[k].capability.value.rights
    requires op != DoExit(pid) && !(op.DoClose? && op.pid == pid)
    ensures TableOf(Run(ops + [op]), pid).Some?
    ensures |TableOf(Run(ops + [op]), pid).value| == |TableOf(Run(ops), pid).value|
    ensures TableOf(Run(ops + [op]), pid).value[k] == TableOf(Run(ops), pid).value[k]
  {
    hide TableOf;
    hide Step;
    RunInv(ops);
    assert (ops + [op])[..|ops + [op]| - 1] == ops;
    StepTable(Run(ops), op, pid);
  }

  // ----- Rights only shrink -----

  predicate InTable(t: Table, c: Capability) {
    exists k :: 0 <= k < |t| && t[k].capability == Some(c)
  }

  predicate InQueue(q: seq<Message>, c: Capability) {
    exists k :: 0 <= k < |q| && c in q[k].tokens
  }

  predicate AtProc(s: Ipc, i: nat, c: Capability) {
    i < |s.procs| && s.procs[i].Some? && InTable(s.procs[i].value.table, c)
  }

  predicate AtChan(s: Ipc, j: nat, c: Capability) {
    j < |s.chans| && s.chans[j].Some? && (InQueue(s.chans[j].value.toB, c) || InQueue(s.chans[j].value.toA, c))
  }

  /** Some handle or some escrow token is this capability. */
  ghost predicate Holds(s: Ipc, c: Capability) {
    (exists i :: AtProc(s, i, c)) || (exists j :: AtChan(s, j, c))
  }

  /** `c` descends from a capability on the same object with at least its rights. */
  ghost predicate Descends(s: Ipc, c: Capability) {
    exists c0: Capability :: Holds(s, c0) && c0.target == c.target && c.rights <= c0.rights
  }

  lemma HeldDescends(s: Ipc, c: Capability)
    requires Holds(s, c)
    ensures Descends(s, c)
  {
  }

  lemma CreatePairHolds(s: Ipc, q: nat, c: Capability)
    requires IpcLedger.Ready(s) && Holds(CreatePair(s, q).0, c)
    ensures Holds(s, c) || (!Live(s.reg, c.target) && !Spent(s.reg, c.target))
  {
    hide Linear;
    hide Quiet;
    hide ChanShape;
    hide Exact;
    hide Total;
    hide CreateThree;
    hide InsertTwo;
    hide FirstNone;
    hide FindProc;
    hide ReleaseAll;
    var s' := CreatePair(s, q).0;
    if ProcIndex(s, q).Some? && FirstNone(s.chans).Some? && CreateThree(s.reg).1.Ok? {
      var i, j := ProcIndex(s, q).value, FirstNone(s.chans).value;
      CreateThreeExact(s.reg, LedgerOf(s));
      var (ch, a, b) := CreateThree(s.reg).1.value;
      CreatedFresh(s.reg, LedgerOf(s));
      var l: Ledger := x => LedgerOf(s)(x) + One(ch, x) + One(a, x) + One(b, x);
      InsertTwoTable(s.procs[i].value.table, CreateThree(s.reg).0, a, b, l, a);
      if k: nat :| AtProc(s', k, c) {
        if k == i {
          var n :| 0 <= n < |s'.procs[i].value.table| && s'.procs[i].value.table[n].capability == Some(c);
          if s.procs[i].value.table[n].capability.Some? {
            assert AtProc(s, i, c);
          }
        } else {
          assert AtProc(s, k, c);
        }
      } else {
        var k: nat :| AtChan(s', k, c);
        assert k != j;
        assert AtChan(s, k, c);
      }
    } else {
      SameHolds(s, s', c);
    }
  }

  lemma SameHolds(s: Ipc, s': Ipc, c: Capability)
    requires s'.procs == s.procs && s'.chans == s.chans && Holds(s', c)
    ensures Holds(s, c)
  {
    if i: nat :| AtProc(s', i, c) {
      assert AtProc(s, i, c);
    } else {
      var j: nat :| AtChan(s', j, c);
      assert AtChan(s, j, c);
    }
  }

  lemma CreatedFresh(reg: Slots, l: Ledger)
    requires Exact(reg, l) && CreateThree(reg).1.Ok?
    ensures var (c, a, b) := CreateThree(reg).1.value;
            !Live(reg, a) && !Spent(reg, a) && !Live(reg, b) && !Spent(reg, b)
  {
    hide Evolved;
    var (r1, c) := Create(reg, Channel);
    CreateExact(reg, Channel, l);
    var l1: Ledger := x => l(x) + One(c.value, x);
    var (r2, a) := Create(r1, ChannelEndpoint);
    CreateExact(r1, ChannelEndpoint, l1);
    var l2: Ledger := x => l1(x) + One(a.value, x);
    CreateExact(r2, ChannelEndpoint, l2);
    var b := Create(r2, ChannelEndpoint).1;
    BackwardFresh(reg, r1, a.value);
    BackwardFresh(r1, r2, b.value);
    BackwardFresh(reg, r1, b.value);
  }

  lemma BackwardFresh(before: Slots, after: Slots, o: ObjectId)
    requires Wf(before) && Wf(after) && Evolved(before, after) && !Live(after, o) && !Spent(after, o)
    ensures !Live(before, o) && !Spent(before, o)
  {
    IdsNeverReturn(before, after, o);
  }

  lemma SpawnHolds(s: Ipc, parent: nat, child: nat, h: Handle, rights: Rights, c: Capability)
    requires IpcLedger.Ready(s) && Holds(Spawn(s, parent, child, h, rights).0, c)
    ensures Descends(s, c)
  {
    hide Linear;
    hide Quiet;
    hide ChanShape;
    hide Exact;
    hide Total;
    hide FindProc;
    hide Create;
    hide Release;
    hide Locate;
    hide Descends;
    var s' := Spawn(s, parent, child, h, rights).0;
    if s'.procs == s.procs {
      SameHolds(s, s', c);
      HeldDescends(s, c);
    } else {
      var slot := FirstNone(s.procs).value;
      var t0 := s.procs[0].value.table;
      var moved := t0[h.slot].capability.value;
      assert AtProc(s, 0, moved);
      if i: nat :| AtProc(s', i, c) {
        if i == slot {
          InstalledOnly(Capability(moved.target, rights), c);
          MovedDescends(s, moved, c);
        } else {
          var n :| 0 <= n < |s'.procs[i].value.table| && s'.procs[i].value.table[n].capability == Some(c);
          assert s.procs[i].value.table[n].capability == Some(c);
          assert AtProc(s, i, c);
          HeldDescends(s, c);
        }
      } else {
        var j: nat :| AtChan(s', j, c);
        assert AtChan(s, j, c);
        HeldDescends(s, c);
      }
    }
  }

  lemma InstalledOnly(token: Capability, c: Capability)
    requires InTable(Install(EmptyTable(), token).0, c)
    ensures c == token
  {
  }

  lemma MovedDescends(s: Ipc, from: Capability, c: Capability)
    requires Holds(s, from) && from.target == c.target && c.rights <= from.rights
    ensures Descends(s, c)
  {
  }

  lemma InAppended(q: seq<Message>, m: Message, c: Capability)
    requires InQueue(q + [m], c)
    ensures InQueue(q, c) || c in m.tokens
  {
    var k :| 0 <= k < |q + [m]| && c in (q + [m])[k].tokens;
    if k < |q| {
      assert c in q[k].tokens;
    }
  }

  /** Every token a send puts in escrow descends from a handle of the sender. */
  lemma TokenDescends(s: Ipc, i: nat, ds: seq<Disposition>, c: Capability)
    requires IpcLedger.Ready(s) && i < |s.procs| && s.procs[i].Some? && Movable(s.procs[i].value.table, s.reg, ds)
    requires c in MoveAll(s.procs[i].value.table, s.reg, ds).1
    ensures Descends(s, c)
  {
    hide Linear;
    hide Quiet;
    hide ChanShape;
    hide Exact;
    hide MoveAll;
    hide Descends;
    var t := s.procs[i].value.table;
    MoveAllSlots(t, s.reg, ds);
    var k :| 0 <= k < |ds| && MoveAll(t, s.reg, ds).1[k] == c;
    var from := CheckMove(t, s.reg, ds[k].source, ds[k].rights).value;
    assert t[ds[k].source.slot].capability == Some(from);
    assert AtProc(s, i, from);
    MovedDescends(s, from, c);
  }

  lemma ChannelSendHolds(s: Ipc, i: nat, j: nat, e: ObjectId, h: Handle, r: SendRequest, c: Capability)
    requires IpcLedger.Ready(s) && i < |s.procs| && s.procs[i].Some? && j < |s.chans| && HasEndpoint(s.chans[j], e) && WellFormed(r)
    requires Holds(ChannelSend(s, i, j, e, h, r).0, c)
    ensures Descends(s, c)
  {
    hide Linear;
    hide Quiet;
    hide ChanShape;
    hide Exact;
    hide Total;
    hide MoveAll;
    hide CheckAll;
    hide Movable;
    hide Require;
    hide Unwaited;
    hide Descends;
    hide InQueue;
    var (s', x) := ChannelSend(s, i, j, e, h, r);
    var t0, ds := s.procs[i].value.table, Dispositions(r);
    if x.Err? {
      HeldDescends(s, c);
    } else {
      NothingMoved(t0, s.reg, ds);
      CheckAllMovable(t0, s.reg, ds, 0);
      MoveAllSlots(t0, s.reg, ds);
      var ch := s.chans[j].value;
      var m := Message(s.procs[i].value.id, r.header, r.payload[..r.payloadLen], MoveAll(t0, s.reg, ds).1);
      if k: nat :| AtProc(s', k, c) {
        var n :| 0 <= n < |s'.procs[k].value.table| && s'.procs[k].value.table[n].capability == Some(c);
        assert s.procs[k].value.table[n].capability == Some(c);
        assert AtProc(s, k, c);
        HeldDescends(s, c);
      } else {
        var k: nat :| AtChan(s', k, c);
        if k == j && (InQueue(ch.toB, c) || InQueue(ch.toA, c)) {
          assert AtChan(s, j, c);
          HeldDescends(s, c);
        } else if k == j {
          if e == ch.a { InAppended(ch.toB, m, c); } else { InAppended(ch.toA, m, c); }
          TokenDescends(s, i, ds, c);
        } else {
          assert AtChan(s, k, c);
          HeldDescends(s, c);
        }
      }
    }
  }

  lemma SendHolds(s: Ipc, q: nat, h: Handle, r: SendRequest, c: Capability)
    requires IpcLedger.Ready(s) && Holds(Send(s, q, h, r).0, c)
    ensures Descends(s, c)
  {
    hide Inv;
    hide ChannelSend;
    hide FindProc;
    hide Locate;
    hide WellFormed;
    hide Descends;
    if ProcIndex(s, q).Some? && WellFormed(r) && Locate(s, ProcIndex(s, q).value, h).Ok? && Send(s, q, h, r).0 != s {
      var i := ProcIndex(s, q).value;
      var (j, e) := Locate(s, i, h).value;
      ChannelSendHolds(s, i, j, e, h, r, c);
    } else {
      HeldDescends(s, c);
    }
  }

  lemma ReceiveHolds(s: Ipc, q: nat, h: Handle, c: Capability)
    requires IpcLedger.Ready(s) && Holds(Receive(s, q, h).0, c)
    ensures Holds(s, c)
  {
    hide Linear;
    hide Quiet;
    hide ChanShape;
    hide Exact;
    hide Total;
    hide FindProc;
    hide Locate;
    hide Require;
    hide InstallAll;
    hide FreeCount;
    var s' := Receive(s, q, h).0;
    if s' != s {
      var i := ProcIndex(s, q).value;
      var (j, e) := Locate(s, i, h).value;
      var ch := s.chans[j].value;
      var tokens := Inbound(ch, e)[0].tokens;
      InstallAllSlots(s.procs[i].value.table, tokens);
      if k: nat :| AtProc(s', k, c) {
        var n :| 0 <= n < |s'.procs[k].value.table| && s'.procs[k].value.table[n].capability == Some(c);
        if s.procs[k].value.table[n].capability == Some(c) {
          assert AtProc(s, k, c);
        } else {
          assert c in Inbound(ch, e)[0].tokens;
          assert InQueue(Inbound(ch, e), c);
          assert AtChan(s, j, c);
        }
      } else {
        var k: nat :| AtChan(s', k, c);
        if k == j {
          TailHolds(ch, e, c);
        }
        assert AtChan(s, k, c);
      }
    }
  }

  lemma TailHolds(ch: Chan, e: ObjectId, c: Capability)
    requires Inbound(ch, e) != [] && (InQueue(Dequeued(ch, e).toB, c) || InQueue(Dequeued(ch, e).toA, c))
    ensures InQueue(ch.toB, c) || InQueue(ch.toA, c)
  {
    var q := Inbound(ch, e);
    if InQueue(q[1..], c) {
      var k :| 0 <= k < |q[1..]| && c in q[1..][k].tokens;
      assert c in q[k + 1].tokens;
    }
  }

  lemma CloseHolds(s: Ipc, q: nat, h: Handle, c: Capability)
    requires IpcLedger.Ready(s) && Holds(CloseEndpoint(s, q, h).0, c)
    ensures Holds(s, c)
  {
    hide Linear;
    hide Quiet;
    hide ChanShape;
    hide Exact;
    hide Total;
    hide FindProc;
    hide Locate;
    hide Garbage;
    hide ReleaseAll;
    hide Release;
    hide Reachable;
    var s' := CloseEndpoint(s, q, h).0;
    if i: nat :| AtProc(s', i, c) {
      var n :| 0 <= n < |s'.procs[i].value.table| && s'.procs[i].value.table[n].capability == Some(c);
      assert s.procs[i].value.table[n].capability == Some(c);
      assert AtProc(s, i, c);
    } else {
      var j: nat :| AtChan(s', j, c);
      assert AtChan(s, j, c);
    }
  }

  lemma ExitHolds(s: Ipc, q: nat, c: Capability)
    requires IpcLedger.Ready(s) && Holds(ExitProcess(s, q).0, c)
    ensures Holds(s, c)
  {
    hide Linear;
    hide Quiet;
    hide ChanShape;
    hide Exact;
    hide Total;
    hide FindProc;
    hide Garbage;
    hide ReleaseAll;
    hide Reachable;
    var s' := ExitProcess(s, q).0;
    if i: nat :| AtProc(s', i, c) {
      assert AtProc(s, i, c);
    } else {
      var j: nat :| AtChan(s', j, c);
      assert AtChan(s, j, c);
    }
  }

  lemma BootHolds(s: Ipc, c: Capability)
    requires Inv(s) && s.procs[0].None?
    ensures !Holds(s, c) && !Holds(Booted(s), c)
  {
    hide Linear;
    hide Exact;
    hide Quiet;
    BootedFresh(s);
    assert Booted(s).chans == s.chans by { BootedInv(s); }
    assert forall k :: 0 <= k < |EmptyTable()| ==> EmptyTable()[k].capability.None?;
  }

  lemma UnbootedStep(s: Ipc, op: Op)
    requires Inv(s) && s.procs[0].None?
    ensures Step(s, op) == Step(Booted(s), op) || Step(s, op) == s
  {
    hide Linear;
    hide Exact;
    hide Quiet;
    hide Create;
    BootedInv(s);
    assert s.regs == ClearWaiter(s.regs, if op.DoCancel? then op.waiter else 0);
  }

  /** Over one step every capability descends from one of the same object with at
      least its rights, unless its object is brand new. */
  lemma StepHolds(s: Ipc, op: Op, c: Capability)
    requires Inv(s) && Holds(Step(s, op), c)
    ensures Descends(s, c) || (!Live(s.reg, c.target) && !Spent(s.reg, c.target))
  {
    hide Linear;
    hide Quiet;
    hide ChanShape;
    hide Exact;
    hide CreatePair;
    hide Spawn;
    hide Send;
    hide Receive;
    hide WaitReadable;
    hide CloseEndpoint;
    hide ExitProcess;
    hide Booted;
    hide Holds;
    hide Descends;
    if s.procs[0].None? {
      UnbootedStep(s, op);
      BootHolds(s, c);
      BootedInv(s);
      StepHoldsReady(Booted(s), op, c);
      NothingDescends(s, c);
      if !Live(Booted(s).reg, c.target) && !Spent(Booted(s).reg, c.target) {
        RegistryWf(s);
        RegistryWf(Booted(s));
        BackwardFresh(s.reg, Booted(s).reg, c.target);
      }
    } else {
      StepHoldsReady(s, op, c);
    }
  }

  lemma RegistryWf(s: Ipc)
    requires Inv(s)
    ensures Wf(s.reg)
  {
  }

  lemma NothingDescends(s: Ipc, c: Capability)
    requires Inv(s) && s.procs[0].None?
    ensures !Descends(Booted(s), c)
  {
    hide Inv;
    hide Holds;
    if c0: Capability :| Holds(Booted(s), c0) {
      BootHolds(s, c0);
    }
  }

  lemma StepHoldsReady(s: Ipc, op: Op, c: Capability)
    requires IpcLedger.Ready(s) && Holds(Step(s, op), c)
    ensures Descends(s, c) || (!Live(s.reg, c.target) && !Spent(s.reg, c.target))
  {
    hide Linear;
    hide Quiet;
    hide ChanShape;
    hide Exact;
    hide ProcShape;
    hide CreatePair;
    hide Spawn;
    hide Send;
    hide Receive;
    hide WaitReadable;
    hide CloseEndpoint;
    hide ExitProcess;
    hide Holds;
    hide Descends;
    match op {
      case DoCreatePair(q) => CreatePairHolds(s, q, c);
      case DoSpawn(parent, child, h, rights) => SpawnHolds(s, parent, child, h, rights, c);
      case DoSend(q, h, r) => SendHolds(s, q, h, r, c);
      case DoReceive(q, h) => ReceiveHolds(s, q, h, c);
      case DoWait(q, h, w, blocks) => WaitReadableInv(s, q, h, w, blocks); BootedInv(s); SameHolds(s, Step(s, op), c);
      case DoCancel(w) => SameHolds(s, Step(s, op), c);
      case DoClose(q, h) => CloseHolds(s, q, h, c);
      case DoExit(q) => ExitHolds(s, q, c);
    }
    if Holds(s, c) {
      HeldDescends(s, c);
    }
  }

  /** In every run, rights on an object's capability only shrink: whatever is held
      at the end descends from a capability with at least those rights at every
      earlier moment at which the object was already live. */
  lemma {:induction false} RightsShrink(ops: seq<Op>, m: nat, c: Capability)
    requires m <= |ops| && Holds(Run(ops), c) && Live(Run(ops[..m]).reg, c.target)
    ensures Descends(Run(ops[..m]), c)
    decreases |ops|
  {
    hide Step;
    hide Holds;
    hide Inv;
    if m == |ops| {
      assert ops[..m] == ops;
      HeldDescends(Run(ops), c);
    } else {
      var before := ops[..|ops| - 1];
      assert before[..m] == ops[..m];
      RunInv(before);
      StepHolds(Run(before), ops[|ops| - 1], c);
      StillKnown(before, m, c.target);
      var c0 :| Holds(Run(before), c0) && c0.target == c.target && c.rights <= c0.rights;
      RightsShrink(before, m, c0);
      var c1 :| Holds(Run(ops[..m]), c1) && c1.target == c0.target && c0.rights <= c1.rights;
    }
  }

  lemma StillKnown(ops: seq<Op>, m: nat, o: ObjectId)
    requires m <= |ops| && Live(Run(ops[..m]).reg, o)
    ensures Live(Run(ops).reg, o) || Spent(Run(ops).reg, o)
  {
    hide Run;
    RunInv(ops[..m]);
    RunInv(ops);
    RunEvolved(ops, m);
    IdsNeverReturn(Run(ops[..m]).reg, Run(ops).reg, o);
  }
}
