/** Why a manager call is refused: each answer has its one cause. */
module IpcRefusals {
  import opened Prelude
  import opened Counts
  import opened Objects
  import opened Handles
  import opened Waits
  import opened IpcModel
  import opened IpcLedger
  import opened IpcSafety
  import opened IpcCollect
  import opened IpcRights
  import opened IpcOutcomes

  /** The caller is live and its handle resolves. */
  predicate Reaches(s: Ipc, pid: nat, h: Handle) {
    TableOf(s, pid).Some? && Resolves(TableOf(s, pid).value, h)
  }

  /** What the handle names. */
  function Target(s: Ipc, pid: nat, h: Handle): ObjectId
    requires Reaches(s, pid, h)
  {
    TableOf(s, pid).value[h.slot].capability.value.target
  }

  predicate Holds(s: Ipc, pid: nat, h: Handle, right: Right) {
    TableOf(s, pid).Some? && Carries(TableOf(s, pid).value, h, right)
  }

  /** Nobody holds the other end any more. */
  predicate Deserted(s: Ipc, c: Chan, e: ObjectId) {
    || (e == c.a && HandleRefs(s, c.b) + EscrowRefs(s, c.b) == 0)
    || (e == c.b && HandleRefs(s, c.a) + EscrowRefs(s, c.a) == 0)
  }

  predicate Full(c: Chan, e: ObjectId) {
    (e == c.a && |c.toB| == MAX_QUEUE) || (e == c.b && |c.toA| == MAX_QUEUE)
  }

  predicate PeerGone(s: Ipc, e: ObjectId) {
    exists j :: 0 <= j < |s.chans| && s.chans[j].Some? && Deserted(s, s.chans[j].value, e)
  }

  predicate PeerFull(s: Ipc, e: ObjectId) {
    exists j :: 0 <= j < |s.chans| && s.chans[j].Some? && Full(s.chans[j].value, e)
  }

  lemma PeerIff(s: Ipc, i: nat, h: Handle)
    requires Inv(s) && i < |s.procs| && s.procs[i].Some? && Resolves(s.procs[i].value.table, h)
    ensures Locate(s, i, h).Ok?
    ensures var (j, e) := Locate(s, i, h).value;
            var peer := Peer(s.chans[j].value, e);
            && e == s.procs[i].value.table[h.slot].capability.value.target
            && (PeerGone(s, e) <==> HandleRefs(s, peer) + EscrowRefs(s, peer) == 0)
            && (PeerFull(s, e) <==> |Outbound(s.chans[j].value, e)| == MAX_QUEUE)
  {
    hide Linear;
    hide Exact;
    hide Quiet;
    hide ChanShape;
    hide ProcShape;
    hide HandleRefs;
    hide EscrowRefs;
    LocateIff(s, i, h);
    var (j, e) := Locate(s, i, h).value;
    hide Locate;
    var c := s.chans[j].value;
    assert Deserted(s, c, e) <==> HandleRefs(s, Peer(c, e)) + EscrowRefs(s, Peer(c, e)) == 0;
    assert Full(c, e) <==> |Outbound(c, e)| == MAX_QUEUE;
  }

  /** Before anything else is looked at: the caller, the request and the handle. */
  lemma SendRefused(s: Ipc, pid: nat, h: Handle, r: SendRequest)
    requires Inv(s)
    ensures var s0, x := Booted(s), Send(s, pid, h, r).1;
            && (x == Err(InvalidProcess) <==> TableOf(s0, pid).None?)
            && (x == Err(InvalidRequest) <==> TableOf(s0, pid).Some? && !WellFormed(r))
            && (x.Err? && x.error.HandleFailure? <==> TableOf(s0, pid).Some? && WellFormed(r) && !Reaches(s0, pid, h))
            && (x == Err(PeerUnreachable) <==> WellFormed(r) && Reaches(s0, pid, h) && PeerGone(s0, Target(s0, pid, h)))
            && (x == Err(ChannelFailure(QueueFull)) <==>
                  && WellFormed(r) && Reaches(s0, pid, h) && Holds(s0, pid, h, Write)
                  && !PeerGone(s0, Target(s0, pid, h)) && PeerFull(s0, Target(s0, pid, h)))
            && (WellFormed(r) && Reaches(s0, pid, h) && !PeerGone(s0, Target(s0, pid, h)) && !Holds(s0, pid, h, Write) ==>
                  x == Err(ChannelFailure(ChRightsMissing)))
  {
    hide Linear;
    hide Exact;
    hide Quiet;
    hide ChanShape;
    hide FindProc;
    hide Locate;
    hide CheckAll;
    hide MoveAll;
    hide WellFormed;
    hide PeerGone;
    hide PeerFull;
    hide Require;
    BootedInv(s);
    hide Booted;
    var s0 := Booted(s);
    if ProcIndex(s0, pid).Some? {
      var i := ProcIndex(s0, pid).value;
      LocateIff(s0, i, h);
      if !Resolves(s0.procs[i].value.table, h) {
        LocateErrors(s0, i, h);
      } else {
        RequireIff(s0, i, h, Write);
        if !Carries(s0.procs[i].value.table, h, Write) {
          RequireErrors(s0, i, h, Write);
        }
        PeerIff(s0, i, h);
        if WellFormed(r) {
          NeverFull(s0.procs[i].value.table, s0.reg, r);
        }
      }
    }
  }

  /** The preflight of the transfers never reports a full queue. */
  lemma NeverFull(t: Table, reg: Slots, r: SendRequest)
    requires WellFormed(r)
    ensures match CheckAll(t, reg, Dispositions(r), 0)
            case Err(Some(e)) => FromHandleError(e) != QueueFull
            case _ => true
  {
  }

  lemma LocateErrors(s: Ipc, i: nat, h: Handle)
    requires Inv(s) && i < |s.procs| && s.procs[i].Some? && !Resolves(s.procs[i].value.table, h)
    ensures Locate(s, i, h).Err? && Locate(s, i, h).error.HandleFailure?
    ensures Locate(s, i, h).error.handle == if h.slot >= |s.procs[i].value.table| then HandleError.Invalid
                                            else if h.generation == s.procs[i].value.table[h.slot].generation then Closed else Stale
  {
  }

  lemma RequireErrors(s: Ipc, i: nat, h: Handle, right: Right)
    requires Inv(s) && i < |s.procs| && s.procs[i].Some? && Resolves(s.procs[i].value.table, h) && !Carries(s.procs[i].value.table, h, right)
    ensures Require(s.procs[i].value.table, s.reg, h, ChannelEndpoint, {right}) == Err(RightsMissing)
  {
    hide Linear;
    hide Exact;
    hide Quiet;
    hide ChanShape;
    hide Locate;
    EntryTotal(s, i, h);
    SlotHeld(s, i, h.slot);
  }

  lemma ReceiveRefused(s: Ipc, pid: nat, h: Handle)
    requires Inv(s)
    ensures var s0, x := Booted(s), Receive(s, pid, h).1;
            && (x == Err(InvalidProcess) <==> TableOf(s0, pid).None?)
            && (x.Err? && x.error.HandleFailure? <==> TableOf(s0, pid).Some? && !Reaches(s0, pid, h))
            && (x == Err(ChannelFailure(ChRightsMissing)) <==> Reaches(s0, pid, h) && !Holds(s0, pid, h, Read))
            && (x == Err(ChannelFailure(ChReceiverFull)) <==>
                  && Reaches(s0, pid, h) && Holds(s0, pid, h, Read)
                  && exists m :: Mail(s0, Target(s0, pid, h), m) && FreeCount(TableOf(s0, pid).value) < |m.tokens|)
  {
    hide Linear;
    hide Exact;
    hide Quiet;
    hide ChanShape;
    hide FindProc;
    hide Locate;
    hide Require;
    hide InstallAll;
    hide FreeCount;
    hide FirstInvalid;
    hide Mail;
    hide NoMail;
    BootedInv(s);
    hide Booted;
    var s0 := Booted(s);
    if ProcIndex(s0, pid).Some? {
      var i := ProcIndex(s0, pid).value;
      LocateIff(s0, i, h);
      if !Resolves(s0.procs[i].value.table, h) {
        LocateErrors(s0, i, h);
      } else {
        RequireIff(s0, i, h, Read);
        if !Carries(s0.procs[i].value.table, h, Read) {
          RequireErrors(s0, i, h, Read);
        }
        MailIff(s0, i, h);
        var (j, e) := Locate(s0, i, h).value;
        if Inbound(s0.chans[j].value, e) != [] {
          TokensLive(s0, j, e);
          assert Mail(s0, e, Inbound(s0.chans[j].value, e)[0]);
        }
      }
    }
  }

  lemma WaitRefused(s: Ipc, pid: nat, h: Handle, waiter: nat, blocks: bool)
    requires Inv(s)
    ensures var s0, x := Booted(s), WaitReadable(s, pid, h, waiter, blocks).1;
            && (x == Err(InvalidProcess) <==> TableOf(s0, pid).None?)
            && (x.Err? && x.error.HandleFailure? <==> TableOf(s0, pid).Some? && !Reaches(s0, pid, h))
            && (x == Err(ChannelFailure(ChRightsMissing)) <==> Reaches(s0, pid, h) && !Holds(s0, pid, h, Wait))
            && (x == Err(WaitFailure(TooMany)) <==>
                  Reaches(s0, pid, h) && Holds(s0, pid, h, Wait) && NoMail(s0, Target(s0, pid, h)) && OtherWaits(s0.regs, waiter) >= MAX_WAIT_ITEMS)
            && (x == Err(WaitFailure(WaitError.Invalid)) <==>
                  && Reaches(s0, pid, h) && Holds(s0, pid, h, Wait) && NoMail(s0, Target(s0, pid, h))
                  && OtherWaits(s0.regs, waiter) < MAX_WAIT_ITEMS && !blocks)
  {
    hide Linear;
    hide Exact;
    hide Quiet;
    hide ChanShape;
    hide FindProc;
    hide Locate;
    hide Require;
    hide Occupied;
    hide Place;
    hide Mail;
    hide NoMail;
    BootedInv(s);
    hide Booted;
    var s0 := Booted(s);
    if ProcIndex(s0, pid).Some? {
      var i := ProcIndex(s0, pid).value;
      LocateIff(s0, i, h);
      if !Resolves(s0.procs[i].value.table, h) {
        LocateErrors(s0, i, h);
      } else {
        RequireIff(s0, i, h, Wait);
        if !Carries(s0.procs[i].value.table, h, Wait) {
          RequireErrors(s0, i, h, Wait);
        }
        MailIff(s0, i, h);
      }
    }
  }

  /** Closing, creating and handing over. */
  lemma CloseRefusals(s: Ipc, pid: nat, h: Handle)
    requires Inv(s)
    ensures var s0, x := Booted(s), CloseEndpoint(s, pid, h).1;
            && (x == Err(InvalidProcess) <==> TableOf(s0, pid).None?)
            && (x == Err(HandleFailure(GenerationExhausted)) <==> Reaches(s0, pid, h) && h.generation >= U32_MAX)
            && (x.Err? && x.error.HandleFailure? <==> TableOf(s0, pid).Some? && (!Reaches(s0, pid, h) || h.generation >= U32_MAX))
  {
    hide Linear;
    hide Exact;
    hide Quiet;
    hide ChanShape;
    hide FindProc;
    hide Locate;
    hide Collect;
    BootedInv(s);
    CloseSucceeds(s, pid, h);
    hide Booted;
    var s0 := Booted(s);
    if ProcIndex(s0, pid).Some? {
      var i := ProcIndex(s0, pid).value;
      LocateIff(s0, i, h);
      if !Resolves(s0.procs[i].value.table, h) {
        LocateErrors(s0, i, h);
      }
    }
  }

  lemma CreatePairRefused(s: Ipc, pid: nat)
    requires Inv(s)
    ensures var s0, x := Booted(s), CreatePair(s, pid).1;
            && (x == Err(InvalidProcess) <==> TableOf(s0, pid).None?)
            && (x == Err(Capacity) <==> TableOf(s0, pid).Some? && forall j :: 0 <= j < |s0.chans| ==> s0.chans[j].Some?)
            && (x == Err(HandleFailure(ObjectTableFull)) <==>
                  TableOf(s0, pid).Some? && (exists j :: 0 <= j < |s0.chans| && s0.chans[j].None?) && Vacancies(s0.reg) < 3)
            && (x.Err? && x.error.HandleFailure? <==>
                  && TableOf(s0, pid).Some? && (exists j :: 0 <= j < |s0.chans| && s0.chans[j].None?)
                  && (Vacancies(s0.reg) < 3 || FreeCount(TableOf(s0, pid).value) < 2))
  {
    hide Linear;
    hide Quiet;
    hide ChanShape;
    hide Exact;
    hide FindProc;
    hide CreateThree;
    hide InsertTwo;
    hide FreeCount;
    hide Vacancies;
    hide ReleaseAll;
    hide Total;
    BootedInv(s);
    CreatePairSucceedsIff(s, pid);
    hide Booted;
    var s0 := Booted(s);
    CreateThreeIff(s0.reg);
    CreateThreeErrors(s0.reg);
    if ProcIndex(s0, pid).Some? && CreateThree(s0.reg).1.Ok? {
      var (reg, made) := CreateThree(s0.reg);
      CreateThreeExact(s0.reg, LedgerOf(s0));
      var (c, a, b) := made.value;
      InsertTwoErrors(s0.procs[ProcIndex(s0, pid).value].value.table, reg, a, b, x => LedgerOf(s0)(x) + One(c, x) + One(a, x) + One(b, x));
    }
  }

  lemma CreateThreeErrors(reg: Slots)
    ensures CreateThree(reg).1.Err? ==> CreateThree(reg).1.error == ObjectTableFull
  {
    hide Release;
  }

  lemma InsertTwoErrors(t: Table, reg: Slots, a: ObjectId, b: ObjectId, l: Ledger)
    requires TableWf(t) && Exact(reg, l) && l(a) == 1 && l(b) == 1 && a != b
    ensures InsertTwo(t, reg, a, b).2.Err? ==> InsertTwo(t, reg, a, b).2.error in {TableFull, GenerationExhausted}
  {
    InsertErrors(t, reg, a, ENDPOINT_RIGHTS, l);
    InsertExact(t, reg, a, ENDPOINT_RIGHTS, l);
    hide Insert;
    hide Exact;
    var (t1, r1, x1) := Insert(t, reg, a, ENDPOINT_RIGHTS);
    if x1.Ok? {
      InsertErrors(t1, r1, b, ENDPOINT_RIGHTS, x => l(x) + One(a, x));
    }
  }

  lemma InsertErrors(t: Table, reg: Slots, o: ObjectId, rights: Rights, l: Ledger)
    requires Exact(reg, l) && 0 < l(o) < U32_MAX
    ensures Insert(t, reg, o, rights).2.Err? ==>
              Insert(t, reg, o, rights).2.error == if exists k :: 0 <= k < |t| && t[k].capability.None? then GenerationExhausted else TableFull
  {
    RetainExact(reg, o, l);
  }

  lemma SpawnRefused(s: Ipc, parent: nat, child: nat, h: Handle, rights: Rights)
    requires Inv(s)
    ensures var s0, x := Booted(s), Spawn(s, parent, child, h, rights).1;
            && (x == Err(InvalidProcess) <==> parent != INIT_PROCESS_ID || child <= INIT_PROCESS_ID || TableOf(s0, child).Some?)
            && (x == Err(Capacity) <==>
                  parent == INIT_PROCESS_ID < child && TableOf(s0, child).None? && forall k :: 0 <= k < |s0.procs| ==> s0.procs[k].Some?)
            && (x.Err? ==> x.error in {InvalidProcess, Capacity} || x.error.HandleFailure?)
  {
    hide Linear;
    hide Quiet;
    hide ChanShape;
    hide Exact;
    hide FindProc;
    hide Locate;
    hide Create;
    hide Install;
    hide Release;
    hide BeginMove;
    BootedInv(s);
    hide Booted;
    var s0 := Booted(s);
    LocateIff(s0, 0, h);
    if !Resolves(s0.procs[0].value.table, h) {
      LocateErrors(s0, 0, h);
    }
  }
}
