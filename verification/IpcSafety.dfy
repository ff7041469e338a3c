/** Every manager operation, on every path, keeps the invariant: exact reference
    counts, linear endpoint ownership and no lost wakeup. */
module IpcSafety {
  import opened Prelude
  import opened Counts
  import opened Objects
  import opened Handles
  import opened Waits
  import opened IpcModel
  import opened IpcLedger

  // ----- Start -----

  lemma EmptyTableRefs(o: ObjectId)
    ensures TableRefs(EmptyTable(), o) == 0
  {
    TotalZero(SlotRefs(o), EmptyTable());
  }

  lemma InitRefs(o: ObjectId)
    ensures HandleRefs(InitState(), o) == EscrowRefs(InitState(), o) == CreatorRefs(InitState(), o) == 0
  {
    hide Total;
    TotalZero(ProcHandlesW(o), InitState().procs);
    TotalZero(ProcCreatorW(o), InitState().procs);
    TotalZero(EscrowW(o), InitState().chans);
    TotalZero(ChanCreatorW(o), InitState().chans);
  }

  lemma InitInv()
    ensures Inv(InitState())
  {
    forall o
      ensures HandleRefs(InitState(), o) == EscrowRefs(InitState(), o) == CreatorRefs(InitState(), o) == 0
    {
      InitRefs(o);
    }
  }

  lemma BootedRefs(s: Ipc, space: ObjectId, o: ObjectId)
    requires s == InitState()
    ensures var s' := s.(procs := s.procs[0 := Some(Proc(INIT_PROCESS_ID, space, EmptyTable()))]);
            HandleRefs(s', o) == EscrowRefs(s', o) == 0 && CreatorRefs(s', o) == One(space, o) && LedgerOf(s)(o) == 0
  {
    hide Total;
    InitRefs(o);
    EmptyTableRefs(o);
    PutProcRefs(s, 0, Some(Proc(INIT_PROCESS_ID, space, EmptyTable())), o);
  }

  lemma BootedFresh(s: Ipc)
    requires Inv(s) && s.procs[0].None?
    ensures IpcLedger.Ready(Booted(s)) && Evolved(s.reg, Booted(s).reg)
    ensures Booted(s).procs == InitState().procs[0 := Some(Proc(INIT_PROCESS_ID, Create(s.reg, AddressSpace).1.value, EmptyTable()))]
  {
    hide Total;
    hide Exact;
    hide Linear;
    CreateExact(s.reg, AddressSpace, LedgerOf(s));
    assert Vacant(s.reg[0]);
    var space := Create(s.reg, AddressSpace).1.value;
    var s' := Booted(s);
    forall o
      ensures HandleRefs(s', o) == EscrowRefs(s', o) == 0 && CreatorRefs(s', o) == One(space, o) && LedgerOf(s)(o) == 0
    {
      BootedRefs(s, space, o);
    }
    ExactSame(s'.reg, x => LedgerOf(s)(x) + One(space, x), LedgerOf(s'));
    BootedLinear(s', space);
  }

  lemma BootedLinear(s: Ipc, space: ObjectId)
    requires forall o :: HandleRefs(s, o) == EscrowRefs(s, o) == 0 && CreatorRefs(s, o) == One(space, o)
    ensures Linear(s)
  {
    hide Total;
  }

  lemma BootedInv(s: Ipc)
    requires Inv(s)
    ensures IpcLedger.Ready(Booted(s))
    ensures Evolved(s.reg, Booted(s).reg)
    ensures s.procs[0].Some? ==> Booted(s) == s
    ensures Booted(s).chans == s.chans && Booted(s).regs == s.regs
  {
    hide Linear;
    hide Quiet;
    hide Exact;
    hide ChanShape;
    if s.procs[0].None? {
      BootedFresh(s);
    }
  }

  // ----- Putting an invariant together -----

  predicate SameEnds(s: Ipc, s': Ipc) {
    && |s.chans| == |s'.chans|
    && forall k :: 0 <= k < |s.chans| && s.chans[k].Some? ==>
         s'.chans[k].Some? && s'.chans[k].value.a == s.chans[k].value.a && s'.chans[k].value.b == s.chans[k].value.b
  }

  lemma KeepsEnds(s: Ipc, s': Ipc, o: ObjectId)
    requires SameEnds(s, s') && FindChan(s.chans, o).Some?
    ensures FindChan(s'.chans, o).Some?
  {
    var k := FindChan(s.chans, o).value;
    assert HasEndpoint(s'.chans[k], o);
  }

  /** Moving references between tables and escrow keeps counts exact and ownership linear. */
  lemma Conserved(s: Ipc, s': Ipc)
    requires Linear(s) && Exact(s.reg, LedgerOf(s)) && s'.reg == s.reg && SameEnds(s, s')
    requires forall o :: HandleRefs(s', o) + EscrowRefs(s', o) == HandleRefs(s, o) + EscrowRefs(s, o)
    requires forall o :: CreatorRefs(s', o) == CreatorRefs(s, o)
    ensures Linear(s') && Exact(s'.reg, LedgerOf(s'))
  {
    hide Total;
    hide FindChan;
    forall o | HandleRefs(s', o) + EscrowRefs(s', o) > 0
      ensures FindChan(s'.chans, o).Some?
    {
      KeepsEnds(s, s', o);
    }
    ExactSame(s.reg, LedgerOf(s), LedgerOf(s'));
  }

  // ----- create_pair -----

  lemma CreatePairFails(s: Ipc, i: nat, r: Slots, t: Table)
    requires IpcLedger.Ready(s) && i < |s.procs| && s.procs[i].Some?
    requires |r| == OBJECT_CAPACITY && Exact(r, LedgerOf(s)) && TableWf(t) && |t| == HANDLE_CAPACITY
    requires forall o :: TableRefs(t, o) == TableRefs(s.procs[i].value.table, o)
    ensures IpcLedger.Ready(PutTable(s, i, t).(reg := r))
  {
    var s' := PutTable(s, i, t).(reg := r);
    forall o
      ensures HandleRefs(s', o) == HandleRefs(s, o) && EscrowRefs(s', o) == EscrowRefs(s, o) && CreatorRefs(s', o) == CreatorRefs(s, o)
    {
      PutTableRefs(s, i, t, o);
    }
    ExactSame(r, LedgerOf(s), LedgerOf(s'));
  }

  /** A new Channel enters with one creator reference each and one handle per endpoint. */
  lemma CreatePairRefs(s: Ipc, i: nat, j: nat, t: Table, c: Chan, o: ObjectId)
    requires i < |s.procs| && s.procs[i].Some? && j < |s.chans| && s.chans[j].None?
    requires c.toB == [] && c.toA == []
    requires TableRefs(t, o) == TableRefs(s.procs[i].value.table, o) + One(c.a, o) + One(c.b, o)
    ensures var s' := PutChan(PutTable(s, i, t), j, Some(c));
            && HandleRefs(s', o) == HandleRefs(s, o) + One(c.a, o) + One(c.b, o)
            && EscrowRefs(s', o) == EscrowRefs(s, o)
            && CreatorRefs(s', o) == CreatorRefs(s, o) + One(c.id, o) + One(c.a, o) + One(c.b, o)
  {
    PutTableRefs(s, i, t, o);
    PutChanRefs(PutTable(s, i, t), j, Some(c), o);
  }

  ghost predicate NewChannel(s: Ipc, i: nat, j: nat, t: Table, c: Chan) {
    && i < |s.procs| && s.procs[i].Some? && j < |s.chans| && s.chans[j].None?
    && c.toB == [] && c.toA == [] && c.a != c.b
    && c.id.kind == Channel && c.a.kind == ChannelEndpoint && c.b.kind == ChannelEndpoint
    && LedgerOf(s)(c.id) == LedgerOf(s)(c.a) == LedgerOf(s)(c.b) == 0
    && TableWf(t) && |t| == HANDLE_CAPACITY
    && forall o :: TableRefs(t, o) == TableRefs(s.procs[i].value.table, o) + One(c.a, o) + One(c.b, o)
  }

  lemma CreatePairLinear(s: Ipc, i: nat, j: nat, t: Table, c: Chan)
    requires Linear(s) && NewChannel(s, i, j, t, c)
    ensures Linear(PutChan(PutTable(s, i, t), j, Some(c)))
    ensures forall o :: LedgerOf(PutChan(PutTable(s, i, t), j, Some(c)))(o)
                        == LedgerOf(s)(o) + One(c.id, o) + One(c.a, o) + One(c.b, o) + One(c.a, o) + One(c.b, o)
  {
    hide Total;
    hide TableRefs;
    hide FindChan;
    var s' := PutChan(PutTable(s, i, t), j, Some(c));
    forall o
      ensures HandleRefs(s', o) == HandleRefs(s, o) + One(c.a, o) + One(c.b, o)
      ensures EscrowRefs(s', o) == EscrowRefs(s, o)
      ensures CreatorRefs(s', o) == CreatorRefs(s, o) + One(c.id, o) + One(c.a, o) + One(c.b, o)
    {
      CreatePairRefs(s, i, j, t, c, o);
    }
    assert LedgerOf(s)(c.id) == CreatorRefs(s, c.id) + HandleRefs(s, c.id) + EscrowRefs(s, c.id);
    assert LedgerOf(s)(c.a) == CreatorRefs(s, c.a) + HandleRefs(s, c.a) + EscrowRefs(s, c.a);
    assert LedgerOf(s)(c.b) == CreatorRefs(s, c.b) + HandleRefs(s, c.b) + EscrowRefs(s, c.b);
    forall o | HandleRefs(s', o) + EscrowRefs(s', o) > 0
      ensures FindChan(s'.chans, o).Some?
    {
      if o == c.a || o == c.b {
        assert HasEndpoint(s'.chans[j], o);
      } else {
        assert HandleRefs(s, o) + EscrowRefs(s, o) > 0;
        KeepsEnds(s, s', o);
      }
    }
  }

  lemma CreatePairSucceeds(s: Ipc, i: nat, j: nat, t: Table, r: Slots, c: Chan)
    requires IpcLedger.Ready(s) && NewChannel(s, i, j, t, c) && |r| == OBJECT_CAPACITY
    requires Exact(r, x => LedgerOf(s)(x) + One(c.id, x) + One(c.a, x) + One(c.b, x) + One(c.a, x) + One(c.b, x))
    ensures IpcLedger.Ready(PutChan(PutTable(s, i, t), j, Some(c)).(reg := r))
  {
    hide Total;
    hide Exact;
    var s1 := PutChan(PutTable(s, i, t), j, Some(c));
    CreatePairLinear(s, i, j, t, c);
    WithRegistry(s1, r);
    ExactSame(r, x => LedgerOf(s)(x) + One(c.id, x) + One(c.a, x) + One(c.b, x) + One(c.a, x) + One(c.b, x), LedgerOf(s1));
    ExactSame(r, LedgerOf(s1), LedgerOf(s1.(reg := r)));
  }

  /** Swapping the registry changes no ledger. */
  lemma WithRegistry(s: Ipc, r: Slots)
    ensures forall o :: LedgerOf(s.(reg := r))(o) == LedgerOf(s)(o)
    ensures Linear(s) ==> Linear(s.(reg := r))
  {
    hide Total;
    hide FindChan;
    var s' := s.(reg := r);
    forall o
      ensures HandleRefs(s', o) == HandleRefs(s, o) && EscrowRefs(s', o) == EscrowRefs(s, o) && CreatorRefs(s', o) == CreatorRefs(s, o)
    {
    }
  }

  lemma ReleaseThree(r: Slots, l: Ledger, l': Ledger, a: ObjectId, b: ObjectId, c: ObjectId)
    requires Exact(r, l) && forall x :: l(x) == l'(x) + One(c, x) + One(a, x) + One(b, x)
    ensures Exact(ReleaseAll(r, [a, b, c]), l') && Evolved(r, ReleaseAll(r, [a, b, c]))
  {
    forall x
      ensures l'(x) + multiset([a, b, c])[x] == l(x)
    {
      assert multiset([a, b, c])[x] == One(a, x) + One(b, x) + One(c, x);
    }
    ReleaseAllExact(r, [a, b, c], l, l');
  }

  lemma CreatePairInv(s: Ipc, pid: nat)
    requires Inv(s)
    ensures IpcLedger.Ready(CreatePair(s, pid).0)
    ensures Evolved(Booted(s).reg, CreatePair(s, pid).0.reg)
  {
    hide Linear;
    hide Quiet;
    hide Exact;
    hide ChanShape;
    hide CreateThree;
    hide InsertTwo;
    hide FirstNone;
    hide FindProc;
    hide Booted;
    BootedInv(s);
    var s0 := Booted(s);
    if ProcIndex(s0, pid).Some? && FirstNone(s0.chans).Some? {
      var i, j := ProcIndex(s0, pid).value, FirstNone(s0.chans).value;
      CreateThreeExact(s0.reg, LedgerOf(s0));
      var (r, made) := CreateThree(s0.reg);
      if made.Err? {
        CreatePairFails(s0, i, r, s0.procs[i].value.table);
        assert PutTable(s0, i, s0.procs[i].value.table) == s0 by {
          assert s0.procs[i := Some(s0.procs[i].value)] == s0.procs;
        }
      } else {
        CreatePairObjects(s0, i, j);
      }
    }
  }

  lemma CreatePairObjects(s: Ipc, i: nat, j: nat)
    requires IpcLedger.Ready(s) && i < |s.procs| && s.procs[i].Some? && j < |s.chans| && s.chans[j].None?
    requires CreateThree(s.reg).1.Ok?
    ensures var (c, a, b) := CreateThree(s.reg).1.value;
            var (t, r', x) := InsertTwo(s.procs[i].value.table, CreateThree(s.reg).0, a, b);
            && (x.Err? ==> IpcLedger.Ready(PutTable(s, i, t).(reg := ReleaseAll(r', [a, b, c])))
                           && Evolved(s.reg, ReleaseAll(r', [a, b, c])))
            && (x.Ok? ==> IpcLedger.Ready(PutChan(PutTable(s, i, t), j, Some(Chan(c, a, b, [], []))).(reg := r'))
                          && Evolved(s.reg, r'))
  {
    hide Linear;
    hide Quiet;
    hide Exact;
    hide ChanShape;
    hide CreateThree;
    hide InsertTwo;
    hide Total;
    hide TableRefs;
    hide ReleaseAll;
    CreateThreeExact(s.reg, LedgerOf(s));
    var r := CreateThree(s.reg).0;
    var (c, a, b) := CreateThree(s.reg).1.value;
    var l: Ledger := x => LedgerOf(s)(x) + One(c, x) + One(a, x) + One(b, x);
    var t0 := s.procs[i].value.table;
    InsertTwoExact(t0, r, a, b, l);
    var (t, r', x) := InsertTwo(t0, r, a, b);
    EvolvedTrans(s.reg, r, r');
    forall o
      ensures x.Err? ==> TableRefs(t, o) == TableRefs(t0, o)
      ensures x.Ok? ==> TableRefs(t, o) == TableRefs(t0, o) + One(a, o) + One(b, o)
    {
      InsertTwoTable(t0, r, a, b, l, o);
    }
    if x.Err? {
      ReleaseThree(r', l, LedgerOf(s), a, b, c);
      EvolvedTrans(s.reg, r', ReleaseAll(r', [a, b, c]));
      CreatePairFails(s, i, ReleaseAll(r', [a, b, c]), t);
    } else {
      ExactSame(r', x => l(x) + One(a, x) + One(b, x),
                x => LedgerOf(s)(x) + One(c, x) + One(a, x) + One(b, x) + One(a, x) + One(b, x));
      CreatePairSucceeds(s, i, j, t, r', Chan(c, a, b, [], []));
    }
  }

  // ----- register_spawned_process -----

  lemma SpawnInv(s: Ipc, parent: nat, child: nat, endpoint: Handle, rights: Rights)
    requires Inv(s)
    ensures IpcLedger.Ready(Spawn(s, parent, child, endpoint, rights).0)
    ensures Evolved(Booted(s).reg, Spawn(s, parent, child, endpoint, rights).0.reg)
  {
    hide Linear;
    hide Quiet;
    hide Exact;
    hide ChanShape;
    hide ProcShape;
    hide FirstNone;
    hide FindProc;
    hide Booted;
    hide Create;
    hide Release;
    hide BeginMove;
    hide Install;
    hide Locate;
    BootedInv(s);
    var s0 := Booted(s);
    var (s', x) := Spawn(s, parent, child, endpoint, rights);
    if s' != s0 {
      CreateExact(s0.reg, AddressSpace, LedgerOf(s0));
      var (r, made) := Create(s0.reg, AddressSpace);
      var (t, token) := BeginMove(s0.procs[0].value.table, r, endpoint, rights);
      if token.Err? {
        SpawnRefused(s0, made.value);
      } else {
        SpawnMoves(s0, child, endpoint, rights, made.value);
      }
    }
  }

  lemma SpawnRefused(s: Ipc, space: ObjectId)
    requires IpcLedger.Ready(s) && Create(s.reg, AddressSpace).1 == Ok(space)
    ensures IpcLedger.Ready(s.(reg := Release(Create(s.reg, AddressSpace).0, space).0))
    ensures Evolved(s.reg, Release(Create(s.reg, AddressSpace).0, space).0)
  {
    hide Linear;
    hide Quiet;
    hide ChanShape;
    hide Exact;
    hide Total;
    var r := Create(s.reg, AddressSpace).0;
    CreateExact(s.reg, AddressSpace, LedgerOf(s));
    var back := Release(r, space).0;
    ReleaseExact(r, space, x => LedgerOf(s)(x) + One(space, x), LedgerOf(s));
    EvolvedTrans(s.reg, r, back);
    WithRegistry(s, back);
    ExactSame(back, LedgerOf(s), LedgerOf(s.(reg := back)));
    QuietSame(s, s.(reg := back));
  }

  lemma QuietSame(s: Ipc, s': Ipc)
    requires Quiet(s) && ChanShape(s) && s'.regs == s.regs && s'.chans == s.chans
    ensures Quiet(s') && ChanShape(s')
  {
  }

  lemma InstallEmpty(token: Capability)
    ensures Install(EmptyTable(), token).1.Ok?
    ensures TableWf(Install(EmptyTable(), token).0) && |Install(EmptyTable(), token).0| == HANDLE_CAPACITY
  {
    assert FreeSlot(EmptyTable()[0]);
  }

  ghost function Spawned(s: Ipc, child: nat, space: ObjectId, r: Slots, t: Table, token: Capability, slot: nat): Ipc
    requires 0 < slot < |s.procs| && s.procs[0].Some?
  {
    var s1 := PutTable(s, 0, t).(reg := r);
    s1.(procs := s1.procs[slot := Some(Proc(child, space, Install(EmptyTable(), token).0))])
  }

  lemma SpawnRefs(s: Ipc, child: nat, space: ObjectId, r: Slots, endpoint: Handle, token: Capability, slot: nat, o: ObjectId)
    requires 0 < slot < |s.procs| && s.procs[0].Some? && s.procs[slot].None? && Resolves(s.procs[0].value.table, endpoint)
    requires s.procs[0].value.table[endpoint.slot].capability.value.target == token.target
    ensures var s' := Spawned(s, child, space, r, Vacated(s.procs[0].value.table, endpoint.slot), token, slot);
            && HandleRefs(s', o) == HandleRefs(s, o) && EscrowRefs(s', o) == EscrowRefs(s, o)
            && CreatorRefs(s', o) == CreatorRefs(s, o) + One(space, o)
  {
    hide Total;
    var t := Vacated(s.procs[0].value.table, endpoint.slot);
    PutTableRefs(s, 0, t, o);
    PutProcRefs(PutTable(s, 0, t).(reg := r), slot, Some(Proc(child, space, Install(EmptyTable(), token).0)), o);
    VacateRefs(s.procs[0].value.table, endpoint.slot, o);
    InstallEmpty(token);
    InstallRefs(EmptyTable(), token, o);
    EmptyTableRefs(o);
  }

  lemma SpawnLinear(s: Ipc, child: nat, space: ObjectId, r: Slots, endpoint: Handle, token: Capability, slot: nat)
    requires Linear(s) && LedgerOf(s)(space) == 0 && Exact(r, x => LedgerOf(s)(x) + One(space, x))
    requires 0 < slot < |s.procs| && s.procs[0].Some? && s.procs[slot].None? && Resolves(s.procs[0].value.table, endpoint)
    requires s.procs[0].value.table[endpoint.slot].capability.value.target == token.target
    ensures var s' := Spawned(s, child, space, r, Vacated(s.procs[0].value.table, endpoint.slot), token, slot);
            Linear(s') && Exact(r, LedgerOf(s'))
  {
    hide Total;
    hide FindChan;
    hide Exact;
    var s' := Spawned(s, child, space, r, Vacated(s.procs[0].value.table, endpoint.slot), token, slot);
    forall o
      ensures HandleRefs(s', o) == HandleRefs(s, o) && EscrowRefs(s', o) == EscrowRefs(s, o)
      ensures CreatorRefs(s', o) == CreatorRefs(s, o) + One(space, o)
    {
      SpawnRefs(s, child, space, r, endpoint, token, slot, o);
    }
    assert LedgerOf(s)(space) == CreatorRefs(s, space) + HandleRefs(s, space) + EscrowRefs(s, space);
    ExactSame(r, x => LedgerOf(s)(x) + One(space, x), LedgerOf(s'));
  }

  lemma SpawnMoves(s: Ipc, child: nat, endpoint: Handle, rights: Rights, space: ObjectId)
    requires IpcLedger.Ready(s) && Create(s.reg, AddressSpace).1 == Ok(space) && child > INIT_PROCESS_ID
    requires ProcIndex(s, child).None? && FirstNone(s.procs).Some?
    requires BeginMove(s.procs[0].value.table, Create(s.reg, AddressSpace).0, endpoint, rights).1.Ok?
    ensures var r := Create(s.reg, AddressSpace).0;
            var (t, token) := BeginMove(s.procs[0].value.table, r, endpoint, rights);
            && Install(EmptyTable(), token.value).1.Ok?
            && IpcLedger.Ready(Spawned(s, child, space, r, t, token.value, FirstNone(s.procs).value))
  {
    hide Linear;
    hide Exact;
    hide Total;
    hide Quiet;
    hide ChanShape;
    hide Create;
    hide Install;
    hide EmptyTable;
    var r := Create(s.reg, AddressSpace).0;
    CreateExact(s.reg, AddressSpace, LedgerOf(s));
    var t0 := s.procs[0].value.table;
    var (t, token) := BeginMove(t0, r, endpoint, rights);
    var slot := FirstNone(s.procs).value;
    InstallEmpty(token.value);
    VacateEvolved(t0, endpoint.slot);
    SpawnLinear(s, child, space, r, endpoint, token.value, slot);
    QuietSame(s, Spawned(s, child, space, r, t, token.value, slot));
  }

  // ----- send -----

  lemma EnqueuedEscrow(c: Chan, e: ObjectId, m: Message, o: ObjectId)
    ensures Escrow(Enqueued(c, e, m), o) == Escrow(c, o) + CapsRefs(m.tokens, o)
  {
    TotalAppend(MessageRefs(o), c.toB, [m]);
    TotalAppend(MessageRefs(o), c.toA, [m]);
  }

  /** Sending moves references from the sender's table into escrow and changes no count. */
  lemma SendRefs(s: Ipc, i: nat, j: nat, e: ObjectId, t: Table, m: Message, o: ObjectId)
    requires i < |s.procs| && s.procs[i].Some? && j < |s.chans| && s.chans[j].Some?
    requires TableRefs(s.procs[i].value.table, o) == TableRefs(t, o) + CapsRefs(m.tokens, o)
    ensures var s' := PutChan(PutTable(s, i, t), j, Some(Enqueued(s.chans[j].value, e, m)));
            && HandleRefs(s', o) + EscrowRefs(s', o) == HandleRefs(s, o) + EscrowRefs(s, o)
            && CreatorRefs(s', o) == CreatorRefs(s, o)
  {
    PutTableRefs(s, i, t, o);
    PutChanRefs(PutTable(s, i, t), j, Some(Enqueued(s.chans[j].value, e, m)), o);
    EnqueuedEscrow(s.chans[j].value, e, m, o);
  }

  lemma SendQuiet(s: Ipc, j: nat, e: ObjectId, m: Message)
    requires Quiet(s) && Linear(s) && j < |s.chans| && HasEndpoint(s.chans[j], e)
    ensures Quiet(PutChan(s, j, Some(Enqueued(s.chans[j].value, e, m))).(regs := Unwaited(s.regs, Peer(s.chans[j].value, e))))
    ensures forall i :: 0 <= i < |s.regs| && s.regs[i].Some? && s.regs[i].value.target == Peer(s.chans[j].value, e) ==>
              s.regs[i].value.waiter in WokenBy(s.regs, Peer(s.chans[j].value, e))
  {
    CreatorsDiffer(s, j, j);
    var peer := Peer(s.chans[j].value, e);
    forall i | 0 <= i < |s.regs| && s.regs[i].Some? && s.regs[i].value.target == peer
      ensures Unwaited(s.regs, peer)[i].None? && s.regs[i].value.waiter in WokenBy(s.regs, peer)
    {
      assert Readable in s.regs[i].value.interests * {Readable};
      assert Matches(s.regs[i], peer, {Readable});
      assert Hit(s.regs, s.regs[i].value, peer, {Readable});
    }
  }

  lemma SendConserves(s: Ipc, i: nat, j: nat, e: ObjectId, ds: seq<Disposition>, m: Message)
    requires Linear(s) && Exact(s.reg, LedgerOf(s)) && i < |s.procs| && s.procs[i].Some? && j < |s.chans| && s.chans[j].Some?
    requires Movable(s.procs[i].value.table, s.reg, ds) && m.tokens == MoveAll(s.procs[i].value.table, s.reg, ds).1
    ensures var s' := PutChan(PutTable(s, i, MoveAll(s.procs[i].value.table, s.reg, ds).0), j, Some(Enqueued(s.chans[j].value, e, m)));
            Linear(s') && Exact(s'.reg, LedgerOf(s'))
  {
    hide Total;
    hide TableRefs;
    hide CapsRefs;
    hide Linear;
    hide Exact;
    hide Movable;
    hide MoveAll;
    var t0 := s.procs[i].value.table;
    var t := MoveAll(t0, s.reg, ds).0;
    var s' := PutChan(PutTable(s, i, t), j, Some(Enqueued(s.chans[j].value, e, m)));
    forall o
      ensures HandleRefs(s', o) + EscrowRefs(s', o) == HandleRefs(s, o) + EscrowRefs(s, o) && CreatorRefs(s', o) == CreatorRefs(s, o)
    {
      MoveAllRefs(t0, s.reg, ds, o);
      SendRefs(s, i, j, e, t, m, o);
    }
    Conserved(s, s');
  }

  lemma ChannelSendInv(s: Ipc, i: nat, j: nat, e: ObjectId, endpoint: Handle, r: SendRequest)
    requires IpcLedger.Ready(s) && i < |s.procs| && s.procs[i].Some? && j < |s.chans| && HasEndpoint(s.chans[j], e) && WellFormed(r)
    ensures IpcLedger.Ready(ChannelSend(s, i, j, e, endpoint, r).0)
    ensures ChannelSend(s, i, j, e, endpoint, r).0.reg == s.reg
    ensures ChannelSend(s, i, j, e, endpoint, r).1.Err? ==> ChannelSend(s, i, j, e, endpoint, r).0 == s
  {
    hide Total;
    hide Linear;
    hide Exact;
    hide Quiet;
    hide MoveAll;
    hide CheckAll;
    hide Movable;
    hide Unwaited;
    hide Require;
    var x := ChannelSend(s, i, j, e, endpoint, r).1;
    if x.Ok? {
      var t0, ds := s.procs[i].value.table, Dispositions(r);
      assert Movable(t0, s.reg, ds) by {
        NothingMoved(t0, s.reg, ds);
        CheckAllMovable(t0, s.reg, ds, 0);
      }
      MoveAllSlots(t0, s.reg, ds);
      var (t, tokens) := MoveAll(t0, s.reg, ds);
      var m := Message(s.procs[i].value.id, r.header, r.payload[..r.payloadLen], tokens);
      var s1 := PutChan(PutTable(s, i, t), j, Some(Enqueued(s.chans[j].value, e, m)));
      SendConserves(s, i, j, e, ds, m);
      SendQuiet(s, j, e, m);
      QuietRegs(PutChan(s, j, Some(Enqueued(s.chans[j].value, e, m))).(regs := Unwaited(s.regs, Peer(s.chans[j].value, e))),
                s1.(regs := Unwaited(s.regs, Peer(s.chans[j].value, e))));
      WithRegs(s1, Unwaited(s.regs, Peer(s.chans[j].value, e)));
    }
  }

  lemma NothingMoved(t: Table, reg: Slots, ds: seq<Disposition>)
    ensures Movable(t, reg, ds[..0])
  {
  }

  /** Registrations hold no references. */
  lemma WithRegs(s: Ipc, regs: Registrations)
    requires Linear(s) && Exact(s.reg, LedgerOf(s))
    ensures Linear(s.(regs := regs)) && Exact(s.reg, LedgerOf(s.(regs := regs)))
  {
    hide Total;
    hide Linear;
    hide Exact;
    var s' := s.(regs := regs);
    forall o
      ensures HandleRefs(s', o) == HandleRefs(s, o) && EscrowRefs(s', o) == EscrowRefs(s, o) && CreatorRefs(s', o) == CreatorRefs(s, o)
    {
    }
    Conserved(s, s');
  }

  lemma SendInv(s: Ipc, pid: nat, endpoint: Handle, r: SendRequest)
    requires Inv(s)
    ensures IpcLedger.Ready(Send(s, pid, endpoint, r).0)
    ensures Send(s, pid, endpoint, r).0.reg == Booted(s).reg
    ensures Send(s, pid, endpoint, r).1.Err? ==> Send(s, pid, endpoint, r).0 == Booted(s)
  {
    hide Inv;
    hide IpcLedger.Ready;
    hide ChannelSend;
    hide Booted;
    hide Locate;
    hide WellFormed;
    hide FindProc;
    BootedInv(s);
    var s0 := Booted(s);
    if ProcIndex(s0, pid).Some? && WellFormed(r) {
      var i := ProcIndex(s0, pid).value;
      var found := Locate(s0, i, endpoint);
      if found.Ok? {
        ChannelSendInv(s0, i, found.value.0, found.value.1, endpoint, r);
      }
    }
  }

  // ----- try_receive -----

  lemma DequeuedEscrow(c: Chan, e: ObjectId, o: ObjectId)
    requires Inbound(c, e) != []
    ensures Escrow(c, o) == Escrow(Dequeued(c, e), o) + CapsRefs(Inbound(c, e)[0].tokens, o)
  {
  }

  lemma ReceiveRefs(s: Ipc, i: nat, j: nat, e: ObjectId, o: ObjectId)
    requires i < |s.procs| && s.procs[i].Some? && j < |s.chans| && s.chans[j].Some? && Inbound(s.chans[j].value, e) != []
    requires FreeCount(s.procs[i].value.table) >= |Inbound(s.chans[j].value, e)[0].tokens|
    ensures var t := InstallAll(s.procs[i].value.table, Inbound(s.chans[j].value, e)[0].tokens).0;
            var s' := PutChan(PutTable(s, i, t), j, Some(Dequeued(s.chans[j].value, e)));
            && HandleRefs(s', o) + EscrowRefs(s', o) == HandleRefs(s, o) + EscrowRefs(s, o)
            && CreatorRefs(s', o) == CreatorRefs(s, o)
  {
    var tokens := Inbound(s.chans[j].value, e)[0].tokens;
    var t := InstallAll(s.procs[i].value.table, tokens).0;
    InstallAllRefs(s.procs[i].value.table, tokens, o);
    PutTableRefs(s, i, t, o);
    PutChanRefs(PutTable(s, i, t), j, Some(Dequeued(s.chans[j].value, e)), o);
    DequeuedEscrow(s.chans[j].value, e, o);
  }

  lemma ReceiveQuiet(s: Ipc, j: nat, e: ObjectId)
    requires Quiet(s) && Linear(s) && j < |s.chans| && HasEndpoint(s.chans[j], e) && Inbound(s.chans[j].value, e) != []
    ensures Quiet(PutChan(s, j, Some(Dequeued(s.chans[j].value, e))))
  {
    CreatorsDiffer(s, j, j);
  }

  ghost function Delivered(s: Ipc, i: nat, j: nat, e: ObjectId): Ipc
    requires i < |s.procs| && s.procs[i].Some? && j < |s.chans| && s.chans[j].Some? && Inbound(s.chans[j].value, e) != []
  {
    PutChan(PutTable(s, i, InstallAll(s.procs[i].value.table, Inbound(s.chans[j].value, e)[0].tokens).0), j,
            Some(Dequeued(s.chans[j].value, e)))
  }

  lemma DeliveredInv(s: Ipc, i: nat, j: nat, e: ObjectId)
    requires IpcLedger.Ready(s) && i < |s.procs| && s.procs[i].Some? && j < |s.chans| && HasEndpoint(s.chans[j], e)
    requires Inbound(s.chans[j].value, e) != [] && FreeCount(s.procs[i].value.table) >= |Inbound(s.chans[j].value, e)[0].tokens|
    ensures IpcLedger.Ready(Delivered(s, i, j, e))
  {
    hide Total;
    hide Linear;
    hide Exact;
    hide Quiet;
    hide InstallAll;
    hide FreeCount;
    var s' := Delivered(s, i, j, e);
    InstallAllSlots(s.procs[i].value.table, Inbound(s.chans[j].value, e)[0].tokens);
    forall o
      ensures HandleRefs(s', o) + EscrowRefs(s', o) == HandleRefs(s, o) + EscrowRefs(s, o) && CreatorRefs(s', o) == CreatorRefs(s, o)
    {
      ReceiveRefs(s, i, j, e, o);
    }
    Conserved(s, s');
    ReceiveQuiet(s, j, e);
    QuietRegs(PutChan(s, j, Some(Dequeued(s.chans[j].value, e))), s');
  }

  lemma QuietRegs(s: Ipc, s': Ipc)
    requires Quiet(s) && s'.regs == s.regs && s'.chans == s.chans
    ensures Quiet(s')
  {
  }

  lemma ReceiveInv(s: Ipc, pid: nat, endpoint: Handle)
    requires Inv(s)
    ensures IpcLedger.Ready(Receive(s, pid, endpoint).0)
    ensures Receive(s, pid, endpoint).0.reg == Booted(s).reg
    ensures Receive(s, pid, endpoint).1.Err? ==> Receive(s, pid, endpoint).0 == Booted(s)
  {
    hide Inv;
    hide IpcLedger.Ready;
    hide Booted;
    hide Locate;
    hide FindProc;
    hide InstallAll;
    hide FreeCount;
    hide Require;
    BootedInv(s);
    var s0 := Booted(s);
    var (s', x) := Receive(s, pid, endpoint);
    if x.Ok? && x.value.Some? {
      var i := ProcIndex(s0, pid).value;
      var (j, e) := Locate(s0, i, endpoint).value;
      DeliveredInv(s0, i, j, e);
    }
  }

  // ----- wait_readable and cancel_waiter -----

  lemma SameLedger(s: Ipc, regs: Registrations)
    requires Inv(s) && Quiet(s.(regs := regs)) && (s.procs[0].None? ==> regs == s.regs)
    ensures Inv(s.(regs := regs))
  {
    hide Total;
    hide Linear;
    hide Exact;
    hide Quiet;
    WithRegs(s, regs);
  }

  lemma CancelInv(s: Ipc, waiter: nat)
    requires Inv(s)
    ensures Inv(IpcModel.CancelWaiter(s, waiter))
  {
    hide Linear;
    hide Exact;
    hide Inbound;
    assert s.procs[0].None? ==> ClearWaiter(s.regs, waiter) == s.regs;
    SameLedger(s, ClearWaiter(s.regs, waiter));
  }

  /** A registration is placed only on an endpoint with nothing to read. */
  lemma PlacedQuiet(s: Ipc, j: nat, e: ObjectId, waiter: nat)
    requires Quiet(s) && Linear(s) && j < |s.chans| && HasEndpoint(s.chans[j], e) && Inbound(s.chans[j].value, e) == []
    requires Occupied(ClearWaiter(s.regs, waiter)) < MAX_WAIT_WAKEUPS
    ensures Quiet(s.(regs := Place(ClearWaiter(s.regs, waiter), Registration(waiter, 1, e, {Readable}, 0))))
  {
    hide Linear;
    hide Inbound;
    hide Place;
    var cleared, reg := ClearWaiter(s.regs, waiter), Registration(waiter, 1, e, {Readable}, 0);
    PlaceOccupied(cleared, reg);
    var k :| 0 <= k < |cleared| && cleared[k].None? && Place(cleared, reg) == cleared[k := Some(reg)];
    forall m | 0 <= m < |s.chans| && HasEndpoint(s.chans[m], e)
      ensures m == j
    {
      FindsOwn(s, m, e);
      FindsOwn(s, j, e);
    }
  }

  lemma WaitReadableInv(s: Ipc, pid: nat, endpoint: Handle, waiter: nat, blocks: bool)
    requires Inv(s)
    ensures IpcLedger.Ready(WaitReadable(s, pid, endpoint, waiter, blocks).0)
    ensures WaitReadable(s, pid, endpoint, waiter, blocks).0 == Booted(s).(regs := WaitReadable(s, pid, endpoint, waiter, blocks).0.regs)
  {
    hide Linear;
    hide Exact;
    hide Quiet;
    hide ChanShape;
    hide ProcShape;
    hide Booted;
    hide Locate;
    hide FindProc;
    hide Place;
    hide ClearWaiter;
    hide Require;
    hide Occupied;
    BootedInv(s);
    var s0 := Booted(s);
    var (s', x) := WaitReadable(s, pid, endpoint, waiter, blocks);
    if s' != s0 {
      var i := ProcIndex(s0, pid).value;
      var (j, e) := Locate(s0, i, endpoint).value;
      CancelInv(s0, waiter);
      var cleared := ClearWaiter(s0.regs, waiter);
      if Occupied(cleared) + 1 <= MAX_WAIT_WAKEUPS {
        PlacedQuiet(s0, j, e, waiter);
        var placed := Place(cleared, Registration(waiter, 1, e, {Readable}, 0));
        SameLedger(s0, placed);
        CancelInv(s0.(regs := placed), waiter);
      }
    }
  }
}
