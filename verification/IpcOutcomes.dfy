/** What each manager call answers, and exactly when it succeeds. */
module IpcOutcomes {
  import opened Prelude
  import opened Counts
  import opened Objects
  import opened Handles
  import opened Waits
  import opened IpcModel
  import opened IpcLedger
  import opened IpcSafety
  import opened IpcCollect
  import opened IpcRights

  // ----- Handles handed out -----

  /** The handle of an installed capability is new, and its slot is the only one touched. */
  lemma InstallMeans(t: Table, c: Capability)
    requires TableWf(t) && Install(t, c).1.Ok?
    ensures var (t', r) := Install(t, c);
            var h := r.value;
            && h.slot < |t| == |t'| && TableWf(t') && t[h.slot].capability.None? && t' == t[h.slot := HandleSlot(h.generation, Some(c))]
            && !Resolves(t, h) && Resolves(t', h)
  {
  }

  predicate Names(t: Table, h: Handle, c: Capability) {
    Resolves(t, h) && t[h.slot].capability == Some(c)
  }

  lemma InsertTwoNames(t: Table, reg: Slots, a: ObjectId, b: ObjectId)
    requires TableWf(t) && InsertTwo(t, reg, a, b).2.Ok?
    ensures var (t', _, r) := InsertTwo(t, reg, a, b);
            var (g, h) := r.value;
            && |t'| == |t| && g.slot != h.slot && !Resolves(t, g) && !Resolves(t, h)
            && Names(t', g, Capability(a, {Read, Write, Wait, Transfer})) && Names(t', h, Capability(b, {Read, Write, Wait, Transfer}))
            && forall k :: 0 <= k < |t| && k != g.slot && k != h.slot ==> t'[k] == t[k]
  {
    hide Install;
    hide Retain;
    hide Release;
    hide CloseHandle;
    var (t1, r1, first) := Insert(t, reg, a, ENDPOINT_RIGHTS);
    InstallMeans(t, Capability(a, ENDPOINT_RIGHTS));
    InstallMeans(t1, Capability(b, ENDPOINT_RIGHTS));
  }

  /** Slot `j` holds a new, empty Channel and every other slot is as it was. */
  predicate OneNewChannel(s: Ipc, s': Ipc, j: nat) {
    && |s'.chans| == |s.chans| && j < |s.chans| && s.chans[j].None? && s'.chans[j].Some?
    && s'.chans[j].value.toA == s'.chans[j].value.toB == []
    && forall k :: 0 <= k < |s.chans| && k != j ==> s'.chans[k] == s.chans[k]
  }

  /** Two new handles, one for each end of the one new Channel, and nothing else in any table changed. */
  ghost predicate NewPair(s: Ipc, s': Ipc, pid: nat, g: Handle, h: Handle) {
    && TableOf(s, pid).Some? && TableOf(s', pid).Some?
    && var t, t' := TableOf(s, pid).value, TableOf(s', pid).value;
       && g != h && !Resolves(t, g) && !Resolves(t, h) && |t'| == |t|
       && (forall k :: 0 <= k < |t| && k != g.slot && k != h.slot ==> t'[k] == t[k])
       && (exists j: nat :: OneNewChannel(s, s', j)
                            && Names(t', g, Capability(s'.chans[j].value.a, {Read, Write, Wait, Transfer}))
                            && Names(t', h, Capability(s'.chans[j].value.b, {Read, Write, Wait, Transfer})))
       && |s'.procs| == |s.procs| && (forall k :: 0 <= k < |s.procs| && ProcIndex(s, pid) != Some(k) ==> s'.procs[k] == s.procs[k])
  }

  /** `create_pair` hands out both ends of a new Channel. */
  lemma CreatedHandles(s: Ipc, pid: nat)
    requires Inv(s) && CreatePair(s, pid).1.Ok?
    ensures var (s', r) := CreatePair(s, pid); NewPair(Booted(s), s', pid, r.value.0, r.value.1)
  {
    hide Linear;
    hide Exact;
    hide Quiet;
    hide ChanShape;
    hide CreateThree;
    hide InsertTwo;
    hide Resolves;
    hide FindProc;
    BootedInv(s);
    CreatePairInv(s, pid);
    hide Booted;
    var s0 := Booted(s);
    var (s', r) := CreatePair(s, pid);
    var i, j := ProcIndex(s0, pid).value, FirstNone(s0.chans).value;
    var (reg, made) := CreateThree(s0.reg);
    var (c, a, b) := made.value;
    InsertTwoNames(s0.procs[i].value.table, reg, a, b);
    assert OneNewChannel(s0, s', j);
    ProcIndexAt(s0, i, pid);
    ProcIndexAt(s', i, pid);
  }

  // ----- When a call succeeds -----

  /** The handle resolves, and to a capability with this right. */
  predicate Carries(t: Table, h: Handle, right: Right) {
    Resolves(t, h) && right in t[h.slot].capability.value.rights
  }

  /** A resolving handle names one endpoint of exactly one Channel. */
  lemma LocateIff(s: Ipc, i: nat, h: Handle)
    requires Inv(s) && i < |s.procs| && s.procs[i].Some?
    ensures var t := s.procs[i].value.table;
            && (Locate(s, i, h).Ok? <==> Resolves(t, h))
            && (Resolves(t, h) ==>
                  var (j, e) := Locate(s, i, h).value;
                  && e == t[h.slot].capability.value.target && HasEndpoint(s.chans[j], e)
                  && s.chans[j].value.a != s.chans[j].value.b
                  && forall k :: 0 <= k < |s.chans| && HasEndpoint(s.chans[k], e) ==> k == j)
  {
    hide Linear;
    hide Exact;
    hide Quiet;
    hide ChanShape;
    hide FindChan;
    EntryTotal(s, i, h);
    if Resolves(s.procs[i].value.table, h) {
      var (j, e) := Locate(s, i, h).value;
      CreatorsDiffer(s, j, j);
      forall k | 0 <= k < |s.chans| && HasEndpoint(s.chans[k], e)
        ensures k == j
      {
        CreatorsDiffer(s, j, k);
      }
    }
  }

  lemma RequireIff(s: Ipc, i: nat, h: Handle, right: Right)
    requires Inv(s) && i < |s.procs| && s.procs[i].Some?
    ensures Require(s.procs[i].value.table, s.reg, h, ChannelEndpoint, {right}).Ok? <==> Carries(s.procs[i].value.table, h, right)
  {
    hide Linear;
    hide Exact;
    hide Quiet;
    hide ChanShape;
    hide Locate;
    EntryTotal(s, i, h);
    if Resolves(s.procs[i].value.table, h) {
      SlotHeld(s, i, h.slot);
    }
  }

  /** One requested transfer that the sender may make. */
  predicate MayMove(t: Table, x: TransferRequest) {
    && x.reserved == 0 && x.rights.Some? && Carries(t, x.source, Transfer)
    && x.rights.value <= t[x.source.slot].capability.value.rights && x.source.generation < U32_MAX
  }

  /** The other end is still held by some handle or escrow token, and its queue has room. */
  predicate Open(s: Ipc, c: Chan, e: ObjectId) {
    || (e == c.a && HandleRefs(s, c.b) + EscrowRefs(s, c.b) > 0 && |c.toB| < MAX_QUEUE)
    || (e == c.b && HandleRefs(s, c.a) + EscrowRefs(s, c.a) > 0 && |c.toA| < MAX_QUEUE)
  }

  predicate MaySend(t: Table, r: SendRequest) {
    && r.payloadLen <= MAX_INLINE_PAYLOAD && r.transferCount <= MAX_TRANSFER_HANDLES
    && (forall k :: 0 <= k < r.transferCount ==> MayMove(t, r.transfers[k]))
    && (forall j, k :: 0 <= j < k < r.transferCount ==> r.transfers[j].source != r.transfers[k].source)
  }

  lemma MovableIff(s: Ipc, i: nat, r: SendRequest)
    requires Inv(s) && i < |s.procs| && s.procs[i].Some?
    ensures MaySend(s.procs[i].value.table, r) <==> WellFormed(r) && CheckAll(s.procs[i].value.table, s.reg, Dispositions(r), 0).Ok?
  {
    hide Linear;
    hide Exact;
    hide Quiet;
    hide ChanShape;
    hide CheckAll;
    var t := s.procs[i].value.table;
    if WellFormed(r) {
      var ds := Dispositions(r);
      CheckAllMovable(t, s.reg, ds, 0);
      forall k | 0 <= k < r.transferCount
        ensures CheckMove(t, s.reg, ds[k].source, ds[k].rights).Ok? <==> MayMove(t, r.transfers[k])
      {
        EntryTotal(s, i, ds[k].source);
      }
    }
  }

  ghost predicate CanSend(s: Ipc, pid: nat, h: Handle, r: SendRequest) {
    && TableOf(s, pid).Some?
    && var t := TableOf(s, pid).value;
       && Carries(t, h, Write) && MaySend(t, r)
       && exists j :: 0 <= j < |s.chans| && s.chans[j].Some? && Open(s, s.chans[j].value, t[h.slot].capability.value.target)
  }

  /** `send` succeeds exactly when the caller is live, its handle carries WRITE, the
      request is well formed and movable, and the peer is held with room in its queue. */
  lemma SendSucceeds(s: Ipc, pid: nat, h: Handle, r: SendRequest)
    requires Inv(s)
    ensures Send(s, pid, h, r).1.Ok? <==> CanSend(Booted(s), pid, h, r)
  {
    hide Linear;
    hide Exact;
    hide Quiet;
    hide FindProc;
    hide Require;
    hide CheckAll;
    hide MoveAll;
    hide MaySend;
    hide WellFormed;
    BootedInv(s);
    hide Booted;
    var s0 := Booted(s);
    if ProcIndex(s0, pid).Some? {
      var i := ProcIndex(s0, pid).value;
      LocateIff(s0, i, h);
      RequireIff(s0, i, h, Write);
      MovableIff(s0, i, r);
      if Locate(s0, i, h).Ok? {
        var (j, e) := Locate(s0, i, h).value;
        assert QueueShape(s0.chans[j].value.toA) && QueueShape(s0.chans[j].value.toB);
        hide Locate;
        assert Open(s0, s0.chans[j].value, e) <==>
               HandleRefs(s0, Peer(s0.chans[j].value, e)) + EscrowRefs(s0, Peer(s0.chans[j].value, e)) > 0 && |Outbound(s0.chans[j].value, e)| < MAX_QUEUE;
      }
    }
  }

  // ----- What a send moves -----

  /** What a request asks to be delivered, given the capabilities its sources name. */
  predicate Requested(t: Table, pid: nat, r: SendRequest, m: Message) {
    && m.sender == pid && m.header == r.header && r.payloadLen <= |r.payload| && m.payload == r.payload[..r.payloadLen]
    && |m.tokens| == r.transferCount <= |r.transfers|
    && forall k :: 0 <= k < r.transferCount ==>
         && r.transfers[k].rights.Some? && Resolves(t, r.transfers[k].source)
         && m.tokens[k] == Capability(t[r.transfers[k].source.slot].capability.value.target, r.transfers[k].rights.value)
  }

  /** The sources left the table and nothing else in it changed. */
  predicate Given(t: Table, t': Table, r: SendRequest) {
    && |t'| == |t| && r.transferCount <= |r.transfers|
    && (forall k :: 0 <= k < r.transferCount ==> !Resolves(t', r.transfers[k].source))
    && (forall n :: 0 <= n < |t| && (forall k :: 0 <= k < r.transferCount ==> r.transfers[k].source.slot != n) ==> t'[n] == t[n])
  }

  /** `m` went to the end of the queue that leads away from `e`, and to no other. */
  predicate Appended(s: Ipc, s': Ipc, j: nat, e: ObjectId, m: Message) {
    && |s'.chans| == |s.chans| && j < |s.chans| && s.chans[j].Some? && HasEndpoint(s.chans[j], e)
    && var c := s.chans[j].value;
       && s'.chans[j] == Some(if e == c.a then c.(toB := c.toB + [m]) else c.(toA := c.toA + [m]))
       && forall k :: 0 <= k < |s.chans| && k != j ==> s'.chans[k] == s.chans[k]
  }

  lemma {:induction false} MoveAllSpends(t: Table, reg: Slots, ds: seq<Disposition>)
    requires TableWf(t) && Movable(t, reg, ds)
    ensures forall k :: 0 <= k < |ds| ==> !Resolves(MoveAll(t, reg, ds).0, ds[k].source)
    decreases |ds|
  {
    if ds != [] {
      var t1 := BeginMove(t, reg, ds[0].source, ds[0].rights).0;
      VacateEvolved(t, ds[0].source.slot);
      MovableRest(t, reg, ds);
      MoveAllSlots(t1, reg, ds[1..]);
      MoveAllSpends(t1, reg, ds[1..]);
      HandlesNeverReturn(t1, MoveAll(t1, reg, ds[1..]).0, ds[0].source);
      assert forall k :: 0 < k < |ds| ==> ds[k] == ds[1..][k - 1];
    }
  }

  lemma MovesRequested(s: Ipc, i: nat, r: SendRequest)
    requires Inv(s) && i < |s.procs| && s.procs[i].Some? && MaySend(s.procs[i].value.table, r)
    ensures WellFormed(r)
    ensures var (t', tokens) := MoveAll(s.procs[i].value.table, s.reg, Dispositions(r));
            && Given(s.procs[i].value.table, t', r)
            && Requested(s.procs[i].value.table, s.procs[i].value.id, r, Message(s.procs[i].value.id, r.header, r.payload[..r.payloadLen], tokens))
  {
    hide Linear;
    hide Exact;
    hide Quiet;
    hide ChanShape;
    hide CheckAll;
    hide MoveAll;
    MovableIff(s, i, r);
    var t, ds := s.procs[i].value.table, Dispositions(r);
    CheckAllMovable(t, s.reg, ds, 0);
    MoveAllSlots(t, s.reg, ds);
    MoveAllSpends(t, s.reg, ds);
    forall k | 0 <= k < r.transferCount
      ensures CheckMove(t, s.reg, ds[k].source, ds[k].rights) == Ok(t[ds[k].source.slot].capability.value)
    {
      EntryTotal(s, i, ds[k].source);
    }
    var t' := MoveAll(t, s.reg, ds).0;
    forall n | 0 <= n < |t| && (forall k :: 0 <= k < r.transferCount ==> r.transfers[k].source.slot != n)
      ensures t'[n] == t[n]
    {
      assert forall k :: 0 <= k < |ds| ==> ds[k].source == r.transfers[k].source;
    }
    forall k | 0 <= k < r.transferCount
      ensures !Resolves(t', r.transfers[k].source)
    {
      assert !Resolves(t', ds[k].source);
    }
  }

  ghost predicate Sent(s: Ipc, s': Ipc, pid: nat, h: Handle, r: SendRequest) {
    && TableOf(s, pid).Some? && TableOf(s', pid).Some?
    && var t := TableOf(s, pid).value;
       && Resolves(t, h) && Given(t, TableOf(s', pid).value, r)
       && (exists j: nat, m :: Appended(s, s', j, t[h.slot].capability.value.target, m) && Requested(t, pid, r, m))
  }

  /** A successful send moves exactly what was asked: the request's header and payload, and
      each source's capability attenuated to the rights asked, to the end of one queue. */
  lemma SendDelivers(s: Ipc, pid: nat, h: Handle, r: SendRequest)
    requires Inv(s) && Send(s, pid, h, r).1.Ok?
    ensures Sent(Booted(s), Send(s, pid, h, r).0, pid, h, r)
  {
    hide Linear;
    hide Exact;
    hide Quiet;
    hide ChanShape;
    hide FindProc;
    hide Require;
    hide CheckAll;
    hide MoveAll;
    hide MaySend;
    hide Requested;
    hide Given;
    hide Unwaited;
    hide WokenBy;
    BootedInv(s);
    SendInv(s, pid, h, r);
    hide Booted;
    var s0, s' := Booted(s), Send(s, pid, h, r).0;
    var i := ProcIndex(s0, pid).value;
    LocateIff(s0, i, h);
    MovableIff(s0, i, r);
    MovesRequested(s0, i, r);
    var (j, e) := Locate(s0, i, h).value;
    var m := Message(s0.procs[i].value.id, r.header, r.payload[..r.payloadLen], MoveAll(s0.procs[i].value.table, s0.reg, Dispositions(r)).1);
    ProcIndexAt(s0, i, pid);
    ProcIndexAt(s', i, pid);
    assert Appended(s0, s', j, e, m);
  }

  // ----- try_receive and wait_readable -----

  /** `m` is the oldest message that `e` has not received. */
  predicate Oldest(c: Chan, e: ObjectId, m: Message) {
    || (e == c.a && c.toA != [] && c.toA[0] == m)
    || (e == c.b && c.toB != [] && c.toB[0] == m)
  }

  predicate Silent(c: Chan, e: ObjectId) {
    || (e == c.a && c.toA == [])
    || (e == c.b && c.toB == [])
  }

  /** The oldest message sent to an endpoint, if any. */
  ghost predicate Mail(s: Ipc, e: ObjectId, m: Message) {
    exists j :: 0 <= j < |s.chans| && s.chans[j].Some? && Oldest(s.chans[j].value, e, m)
  }

  ghost predicate NoMail(s: Ipc, e: ObjectId) {
    exists j :: 0 <= j < |s.chans| && s.chans[j].Some? && Silent(s.chans[j].value, e)
  }

  lemma MailIff(s: Ipc, i: nat, h: Handle)
    requires Inv(s) && i < |s.procs| && s.procs[i].Some? && Resolves(s.procs[i].value.table, h)
    ensures Locate(s, i, h).Ok?
    ensures var (j, e) := Locate(s, i, h).value;
            var q := Inbound(s.chans[j].value, e);
            && e == s.procs[i].value.table[h.slot].capability.value.target
            && (NoMail(s, e) <==> q == [])
            && (forall m :: Mail(s, e, m) <==> q != [] && q[0] == m)
  {
    hide Linear;
    hide Exact;
    hide Quiet;
    hide ChanShape;
    hide ProcShape;
    LocateIff(s, i, h);
    var (j, e) := Locate(s, i, h).value;
    hide Locate;
    var c, q := s.chans[j].value, Inbound(s.chans[j].value, e);
    assert Silent(c, e) <==> q == [];
    forall m
      ensures Oldest(c, e, m) <==> q != [] && q[0] == m
    {
    }
  }

  lemma TokensLive(s: Ipc, j: nat, e: ObjectId)
    requires Inv(s) && j < |s.chans| && s.chans[j].Some? && Inbound(s.chans[j].value, e) != []
    ensures FirstInvalid(s.reg, Inbound(s.chans[j].value, e)[0].tokens).None?
  {
    hide Linear;
    hide Quiet;
    hide ChanShape;
    hide ProcShape;
    hide FirstInvalid;
    var c := s.chans[j].value;
    var tokens := Inbound(c, e)[0].tokens;
    forall k | 0 <= k < |tokens|
      ensures Live(s.reg, tokens[k].target)
    {
      var o := tokens[k].target;
      assert CapabilityRefs(o)(tokens[k]) > 0;
      TotalPositive(CapabilityRefs(o), tokens);
      TotalPositive(MessageRefs(o), Inbound(c, e));
      assert MessageRefs(o)(Inbound(c, e)[0]) > 0;
      PutChanRefs(s, j, s.chans[j], o);
      assert LedgerOf(s)(o) > 0;
    }
  }

  /** `try_receive` hands a message out exactly when the handle carries READ, something was
      sent to it, and every escrowed capability fits the receiver's table. */
  lemma ReceiveSucceeds(s: Ipc, pid: nat, h: Handle)
    requires Inv(s)
    ensures var s0 := Booted(s);
            var x := Receive(s, pid, h).1;
            && (x.Ok? && x.value.Some? <==>
                  && TableOf(s0, pid).Some? && Carries(TableOf(s0, pid).value, h, Read)
                  && exists m :: Mail(s0, TableOf(s0, pid).value[h.slot].capability.value.target, m) && |m.tokens| <= FreeCount(TableOf(s0, pid).value))
            && (x == Ok(None) <==>
                  && TableOf(s0, pid).Some? && Carries(TableOf(s0, pid).value, h, Read)
                  && NoMail(s0, TableOf(s0, pid).value[h.slot].capability.value.target))
  {
    hide Linear;
    hide Exact;
    hide Quiet;
    hide ChanShape;
    hide FindProc;
    hide Require;
    hide Locate;
    hide InstallAll;
    hide FreeCount;
    hide FirstInvalid;
    hide Mail;
    hide NoMail;
    BootedInv(s);
    hide Booted;
    var s0 := Booted(s);
    if ProcIndex(s0, pid).Some? {
      var i := ProcIndex(s0, pid).value;
      LocateIff(s0, i, h);
      RequireIff(s0, i, h, Read);
      if Resolves(s0.procs[i].value.table, h) {
        MailIff(s0, i, h);
        var (j, e) := Locate(s0, i, h).value;
        if Inbound(s0.chans[j].value, e) != [] {
          TokensLive(s0, j, e);
          assert Mail(s0, e, Inbound(s0.chans[j].value, e)[0]);
        }
      }
    }
  }

  /** Registrations that belong to other waiters. */
  function OtherWaits(regs: Registrations, waiter: nat): nat {
    Occupied(ClearWaiter(regs, waiter))
  }

  /** `wait_readable` reports at once what can be read, and otherwise leaves exactly one
      registration for the waiter; both need WAIT on the handle. */
  lemma WaitSucceeds(s: Ipc, pid: nat, h: Handle, waiter: nat, blocks: bool)
    requires Inv(s)
    ensures var s0 := Booted(s);
            var (s', x) := WaitReadable(s, pid, h, waiter, blocks);
            && (x == Ok(IsReadable) <==>
                  && TableOf(s0, pid).Some? && Carries(TableOf(s0, pid).value, h, Wait)
                  && exists m :: Mail(s0, TableOf(s0, pid).value[h.slot].capability.value.target, m))
            && (x == Ok(IsBlocked) <==>
                  && TableOf(s0, pid).Some? && Carries(TableOf(s0, pid).value, h, Wait) && blocks
                  && NoMail(s0, TableOf(s0, pid).value[h.slot].capability.value.target) && OtherWaits(s0.regs, waiter) < MAX_WAIT_ITEMS)
            && (x == Ok(IsBlocked) ==>
                  && |s'.regs| == |s0.regs|
                  && (forall n :: 0 <= n < |s0.regs| && s0.regs[n].Some? && s0.regs[n].value.waiter != waiter ==> s'.regs[n] == s0.regs[n])
                  && exists k :: 0 <= k < |s'.regs| && s'.regs[k] == Some(Registration(waiter, 1, TableOf(s0, pid).value[h.slot].capability.value.target, {Readable}, 0)))
  {
    hide Linear;
    hide Exact;
    hide ChanShape;
    hide FindProc;
    hide Require;
    hide Locate;
    hide Occupied;
    hide Place;
    hide Mail;
    hide NoMail;
    BootedInv(s);
    hide Booted;
    var s0 := Booted(s);
    if ProcIndex(s0, pid).Some? {
      var i := ProcIndex(s0, pid).value;
      LocateIff(s0, i, h);
      RequireIff(s0, i, h, Wait);
      if Resolves(s0.procs[i].value.table, h) {
        MailIff(s0, i, h);
        var (j, e) := Locate(s0, i, h).value;
        if Inbound(s0.chans[j].value, e) != [] {
          assert Mail(s0, e, Inbound(s0.chans[j].value, e)[0]);
        } else if OtherWaits(s0.regs, waiter) < MAX_WAIT_ITEMS {
          var cleared, reg := ClearWaiter(s0.regs, waiter), Registration(waiter, 1, e, {Readable}, 0);
          PlaceOccupied(cleared, reg);
          var k :| 0 <= k < |cleared| && cleared[k].None? && Place(cleared, reg) == cleared[k := Some(reg)];
          assert Place(cleared, reg)[k] == Some(reg);
        }
      }
    }
  }

  // ----- close -----

  /** `close` succeeds exactly on a resolving handle whose slot has a generation left; the
      handle is then dead and no other handle of any process changed. */
  lemma CloseSucceeds(s: Ipc, pid: nat, h: Handle)
    requires Inv(s)
    ensures var s0 := Booted(s);
            var (s', x) := CloseEndpoint(s, pid, h);
            && (x.Ok? <==> TableOf(s0, pid).Some? && Resolves(TableOf(s0, pid).value, h) && h.generation < U32_MAX)
            && (x.Ok? ==>
                  && TableOf(s', pid).Some? && !Resolves(TableOf(s', pid).value, h) && |TableOf(s', pid).value| == |TableOf(s0, pid).value|
                  && (forall n :: 0 <= n < |TableOf(s0, pid).value| && n != h.slot ==> TableOf(s', pid).value[n] == TableOf(s0, pid).value[n])
                  && (forall q :: q != pid ==> TableOf(s', q) == TableOf(s0, q)))
  {
    hide Linear;
    hide Exact;
    hide Quiet;
    hide ChanShape;
    hide FindProc;
    hide Locate;
    hide CloseHandle;
    hide Survivors;
    hide Garbage;
    BootedInv(s);
    CloseInv(s, pid, h);
    hide Booted;
    var s0 := Booted(s);
    var (s', x) := CloseEndpoint(s, pid, h);
    if ProcIndex(s0, pid).Some? {
      var i := ProcIndex(s0, pid).value;
      LocateIff(s0, i, h);
      if Resolves(s0.procs[i].value.table, h) && h.generation < U32_MAX {
        VacatedInv(s0, i, h);
        ProcIndexAt(s0, i, pid);
        forall q
          ensures ProcIndex(s', q) == ProcIndex(s0, q)
        {
          SameIndex(s0, s', q);
        }
      } else {
        CloseRefused(s0.procs[i].value.table, s0.reg, h);
      }
    }
  }

  lemma CloseRefused(t: Table, reg: Slots, h: Handle)
    requires !Resolves(t, h) || h.generation == U32_MAX
    ensures CloseHandle(t, reg, h).2.Err?
  {
  }

  /** The same processes in the same slots are found alike. */
  lemma SameIndex(s: Ipc, s': Ipc, pid: nat)
    requires ProcShape(s) && ProcShape(s') && s.procs[0].Some?
    requires forall i :: 0 <= i < |s.procs| ==> (s.procs[i].Some? <==> s'.procs[i].Some?) && (s.procs[i].Some? ==> s.procs[i].value.id == s'.procs[i].value.id)
    ensures ProcIndex(s', pid) == ProcIndex(s, pid)
  {
  }

  // ----- create_pair and spawn -----

  function VacantW(): ObjectSlot -> nat {
    (x: ObjectSlot) => if Vacant(x) then 1 else 0
  }

  /** Object slots that can still be handed out. */
  function Vacancies(reg: Slots): nat {
    Total(VacantW(), reg)
  }

  lemma CreateIff(reg: Slots, kind: ObjectKind)
    ensures Create(reg, kind).1.Ok? <==> Vacancies(reg) > 0
    ensures Create(reg, kind).1.Ok? ==> Vacancies(Create(reg, kind).0) == Vacancies(reg) - 1
  {
    TotalPositive(VacantW(), reg);
    var free := FirstVacant(reg);
    if free.Some? {
      assert VacantW()(reg[free.value]) > 0;
      TotalUpdate(VacantW(), reg, free.value, reg[free.value].(kind := Some(kind), references := 1));
    }
  }

  lemma CreateThreeIff(reg: Slots)
    ensures CreateThree(reg).1.Ok? <==> Vacancies(reg) >= 3
  {
    hide Create;
    hide Release;
    CreateIff(reg, Channel);
    var r1 := Create(reg, Channel).0;
    CreateIff(r1, ChannelEndpoint);
    CreateIff(Create(r1, ChannelEndpoint).0, ChannelEndpoint);
  }

  lemma InsertIff(t: Table, reg: Slots, o: ObjectId, rights: Rights, l: Ledger)
    requires Exact(reg, l) && 0 < l(o) < U32_MAX
    ensures Insert(t, reg, o, rights).2.Ok? <==> FreeCount(t) > 0
    ensures Insert(t, reg, o, rights).2.Ok? ==> FreeCount(Insert(t, reg, o, rights).0) == FreeCount(t) - 1
  {
    hide FreeCount;
    RetainExact(reg, o, l);
    FreeCountPositive(t);
    var free := FirstFree(t);
    if free.Some? {
      FreeCountUpdate(t, free.value, t[free.value].(capability := Some(Capability(o, rights))));
    }
  }

  lemma InsertTwoIff(t: Table, reg: Slots, a: ObjectId, b: ObjectId, l: Ledger)
    requires TableWf(t) && Exact(reg, l) && l(a) == 1 && l(b) == 1 && a != b
    ensures InsertTwo(t, reg, a, b).2.Ok? <==> FreeCount(t) >= 2
  {
    hide Insert;
    hide FreeCount;
    hide Exact;
    hide CloseHandle;
    InsertIff(t, reg, a, ENDPOINT_RIGHTS, l);
    InsertExact(t, reg, a, ENDPOINT_RIGHTS, l);
    var (t1, r1, x1) := Insert(t, reg, a, ENDPOINT_RIGHTS);
    if x1.Ok? {
      InsertIff(t1, r1, b, ENDPOINT_RIGHTS, x => l(x) + One(a, x));
    }
  }

  /** `create_pair` succeeds exactly when the caller is live and there is room for one
      Channel, three objects and two handles. */
  lemma CreatePairSucceedsIff(s: Ipc, pid: nat)
    requires Inv(s)
    ensures var s0 := Booted(s);
            CreatePair(s, pid).1.Ok? <==>
              && TableOf(s0, pid).Some? && FreeCount(TableOf(s0, pid).value) >= 2
              && (exists j :: 0 <= j < |s0.chans| && s0.chans[j].None?) && Vacancies(s0.reg) >= 3
  {
    hide Linear;
    hide Quiet;
    hide ChanShape;
    hide Exact;
    hide FindProc;
    hide CreateThree;
    hide InsertTwo;
    hide FreeCount;
    hide Vacancies;
    hide ReleaseAll;
    hide Total;
    BootedInv(s);
    hide Booted;
    var s0 := Booted(s);
    CreateThreeIff(s0.reg);
    CreateThreeExact(s0.reg, LedgerOf(s0));
    if ProcIndex(s0, pid).Some? && CreateThree(s0.reg).1.Ok? {
      var (reg, made) := CreateThree(s0.reg);
      var (c, a, b) := made.value;
      InsertTwoIff(s0.procs[ProcIndex(s0, pid).value].value.table, reg, a, b, x => LedgerOf(s0)(x) + One(c, x) + One(a, x) + One(b, x));
    }
  }

  /** Init may hand this endpoint over with these rights. */
  predicate MayHandOver(t: Table, h: Handle, rights: Rights) {
    && Carries(t, h, Transfer) && rights <= t[h.slot].capability.value.rights && h.generation < U32_MAX
  }

  /** `spawn` succeeds exactly for init, a new identity above it, a free process slot, a
      free object slot and an endpoint that init may hand over. */
  lemma SpawnSucceeds(s: Ipc, parent: nat, child: nat, h: Handle, rights: Rights)
    requires Inv(s)
    ensures var s0 := Booted(s);
            Spawn(s, parent, child, h, rights).1.Ok? <==>
              && parent == INIT_PROCESS_ID < child && TableOf(s0, child).None?
              && (exists k :: 0 <= k < |s0.procs| && s0.procs[k].None?)
              && Vacancies(s0.reg) > 0 && MayHandOver(s0.procs[0].value.table, h, rights)
  {
    hide Linear;
    hide Quiet;
    hide ChanShape;
    hide Exact;
    hide FindProc;
    hide Vacancies;
    hide Locate;
    hide Create;
    hide Install;
    hide Release;
    BootedInv(s);
    hide Booted;
    var s0 := Booted(s);
    CreateIff(s0.reg, AddressSpace);
    LocateIff(s0, 0, h);
    if Locate(s0, 0, h).Ok? && Create(s0.reg, AddressSpace).1.Ok? {
      MoveAfterCreate(s0, h, rights);
      var moved := BeginMove(s0.procs[0].value.table, Create(s0.reg, AddressSpace).0, h, rights).1;
      if moved.Ok? {
        InstallEmpty(moved.value);
      }
    }
  }

  /** Creating the address space does not change what init may hand over. */
  lemma MoveAfterCreate(s: Ipc, h: Handle, rights: Rights)
    requires IpcLedger.Ready(s) && Create(s.reg, AddressSpace).1.Ok? && Resolves(s.procs[0].value.table, h)
    ensures var t := s.procs[0].value.table;
            var (t', x) := BeginMove(t, Create(s.reg, AddressSpace).0, h, rights);
            && (x.Ok? <==> MayHandOver(t, h, rights))
            && (x.Ok? ==> t' == Vacated(t, h.slot) && x.value == Capability(t[h.slot].capability.value.target, rights))
  {
    hide Linear;
    hide Quiet;
    hide ChanShape;
    SlotHeld(s, 0, h.slot);
  }

  ghost predicate HandedOver(s: Ipc, s': Ipc, child: nat, h: Handle, rights: Rights, given: Handle) {
    && TableOf(s, INIT_PROCESS_ID).Some? && TableOf(s', INIT_PROCESS_ID).Some? && TableOf(s', child).Some?
    && var t, t', own := TableOf(s, INIT_PROCESS_ID).value, TableOf(s', INIT_PROCESS_ID).value, TableOf(s', child).value;
       && Resolves(t, h) && Names(own, given, Capability(t[h.slot].capability.value.target, rights))
       && (forall k :: 0 <= k < |own| && k != given.slot ==> own[k].capability.None?)
       && !Resolves(t', h) && |t'| == |t| && (forall k :: 0 <= k < |t| && k != h.slot ==> t'[k] == t[k])
  }

  /** The child starts with one handle: init's endpoint with the rights asked, which init gave up. */
  lemma SpawnHandsOver(s: Ipc, parent: nat, child: nat, h: Handle, rights: Rights)
    requires Inv(s) && Spawn(s, parent, child, h, rights).1.Ok?
    ensures var (s', x) := Spawn(s, parent, child, h, rights); HandedOver(Booted(s), s', child, h, rights, x.value)
  {
    hide Linear;
    hide Quiet;
    hide ChanShape;
    hide Exact;
    hide FindProc;
    hide Locate;
    hide Create;
    hide Install;
    hide Release;
    BootedInv(s);
    SpawnInv(s, parent, child, h, rights);
    hide Booted;
    var s0 := Booted(s);
    LocateIff(s0, 0, h);
    MoveAfterCreate(s0, h, rights);
    var token := Capability(s0.procs[0].value.table[h.slot].capability.value.target, rights);
    InstallMeans(EmptyTable(), token);
    ProcIndexAt(Spawn(s, parent, child, h, rights).0, FirstNone(s0.procs).value, child);
  }
}
