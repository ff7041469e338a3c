/** The manager invariant, and how each building block moves references. */
module IpcLedger {
  import opened Prelude
  import opened Counts
  import opened Objects
  import opened Handles
  import opened Waits
  import opened IpcModel

  // ----- The invariant -----

  predicate ProcShape(s: Ipc) {
    && |s.procs| == MAX_USER_PROCESSES
    && (forall i :: 0 <= i < |s.procs| && s.procs[i].Some? ==>
          && |s.procs[i].value.table| == HANDLE_CAPACITY && TableWf(s.procs[i].value.table)
          && s.procs[i].value.space.kind == AddressSpace
          && (i == 0 <==> s.procs[i].value.id == INIT_PROCESS_ID)
          && s.procs[i].value.id >= INIT_PROCESS_ID)
    && (forall i, j :: 0 <= i < j < |s.procs| && s.procs[i].Some? && s.procs[j].Some? ==> s.procs[i].value.id != s.procs[j].value.id)
  }

  predicate QueueShape(q: seq<Message>) {
    |q| <= MAX_QUEUE && forall k :: 0 <= k < |q| ==> |q[k].tokens| <= MAX_TRANSFER_HANDLES && |q[k].payload| <= MAX_INLINE_PAYLOAD
  }

  predicate ChanShape(s: Ipc) {
    && |s.chans| == CHANNEL_CAPACITY
    && (forall j :: 0 <= j < |s.chans| && s.chans[j].Some? ==>
          && s.chans[j].value.id.kind == Channel
          && s.chans[j].value.a.kind == ChannelEndpoint && s.chans[j].value.b.kind == ChannelEndpoint
          && QueueShape(s.chans[j].value.toB) && QueueShape(s.chans[j].value.toA))
  }

  /** Every endpoint is held by at most one handle or one escrow token in the whole
      system, every created object has one creator, and only endpoints of live
      Channels are held. */
  ghost predicate Linear(s: Ipc) {
    && (forall o :: HandleRefs(s, o) + EscrowRefs(s, o) <= 1)
    && (forall o :: CreatorRefs(s, o) <= 1)
    && (forall o :: HandleRefs(s, o) + EscrowRefs(s, o) > 0 ==> FindChan(s.chans, o).Some?)
  }

  /** At most one registration per waiter, each on an endpoint with nothing to read. */
  predicate Quiet(s: Ipc) {
    && |s.regs| == MAX_WAIT_ITEMS
    && (forall i :: 0 <= i < |s.regs| && s.regs[i].Some? ==> s.regs[i].value.epoch == 1 && s.regs[i].value.interests == {Readable})
    && (forall i, j :: 0 <= i < j < |s.regs| && s.regs[i].Some? && s.regs[j].Some? ==> s.regs[i].value.waiter != s.regs[j].value.waiter)
    && (forall i, j :: 0 <= i < |s.regs| && 0 <= j < |s.chans| && s.regs[i].Some? && HasEndpoint(s.chans[j], s.regs[i].value.target) ==>
          Inbound(s.chans[j].value, s.regs[i].value.target) == [])
  }

  ghost predicate Inv(s: Ipc) {
    && ProcShape(s) && ChanShape(s) && Linear(s) && Quiet(s)
    && |s.reg| == OBJECT_CAPACITY && Exact(s.reg, LedgerOf(s))
    && (s.procs[0].None? ==> s == InitState())
  }

  ghost predicate Ready(s: Ipc) {
    Inv(s) && s.procs[0].Some?
  }

  // ----- Reference arithmetic -----

  lemma PutTableRefs(s: Ipc, i: nat, t: Table, o: ObjectId)
    requires i < |s.procs| && s.procs[i].Some?
    ensures HandleRefs(PutTable(s, i, t), o) == HandleRefs(s, o) - TableRefs(s.procs[i].value.table, o) + TableRefs(t, o)
    ensures TableRefs(s.procs[i].value.table, o) <= HandleRefs(s, o)
    ensures EscrowRefs(PutTable(s, i, t), o) == EscrowRefs(s, o)
    ensures CreatorRefs(PutTable(s, i, t), o) == CreatorRefs(s, o)
  {
    var p := Some(s.procs[i].value.(table := t));
    TotalUpdate(ProcHandlesW(o), s.procs, i, p);
    TotalUpdate(ProcCreatorW(o), s.procs, i, p);
  }

  lemma PutProcRefs(s: Ipc, i: nat, p: Option<Proc>, o: ObjectId)
    requires i < |s.procs|
    ensures HandleRefs(s.(procs := s.procs[i := p]), o) == HandleRefs(s, o) - ProcHandlesW(o)(s.procs[i]) + ProcHandlesW(o)(p)
    ensures CreatorRefs(s.(procs := s.procs[i := p]), o) == CreatorRefs(s, o) - ProcCreatorW(o)(s.procs[i]) + ProcCreatorW(o)(p)
    ensures ProcHandlesW(o)(s.procs[i]) <= HandleRefs(s, o)
  {
    TotalUpdate(ProcHandlesW(o), s.procs, i, p);
    TotalUpdate(ProcCreatorW(o), s.procs, i, p);
  }

  lemma PutChanRefs(s: Ipc, j: nat, c: Option<Chan>, o: ObjectId)
    requires j < |s.chans|
    ensures HandleRefs(PutChan(s, j, c), o) == HandleRefs(s, o)
    ensures EscrowRefs(PutChan(s, j, c), o) == EscrowRefs(s, o) - EscrowW(o)(s.chans[j]) + EscrowW(o)(c)
    ensures CreatorRefs(PutChan(s, j, c), o) == CreatorRefs(s, o) - ChanCreatorW(o)(s.chans[j]) + ChanCreatorW(o)(c)
    ensures EscrowW(o)(s.chans[j]) <= EscrowRefs(s, o)
  {
    TotalUpdate(EscrowW(o), s.chans, j, c);
    TotalUpdate(ChanCreatorW(o), s.chans, j, c);
  }

  lemma ExactSame(reg: Slots, l: Ledger, l': Ledger)
    requires Exact(reg, l) && forall o :: l(o) == l'(o)
    ensures Exact(reg, l')
  {
  }

  /** Each created object has its own creator entry. */
  lemma CreatorsDiffer(s: Ipc, j: nat, k: nat)
    requires Linear(s) && j < |s.chans| && k < |s.chans| && s.chans[j].Some? && s.chans[k].Some?
    ensures s.chans[j].value.a != s.chans[j].value.b
    ensures s.chans[j].value.id != s.chans[j].value.a && s.chans[j].value.id != s.chans[j].value.b
    ensures j != k ==> forall o :: HasEndpoint(s.chans[j], o) ==> !HasEndpoint(s.chans[k], o)
  {
    var cj := s.chans[j].value;
    PutChanCreator(s, j, cj.a);
    PutChanCreator(s, j, cj.b);
    if j != k {
      TotalTwo(ChanCreatorW(cj.a), s.chans, j, k);
      TotalTwo(ChanCreatorW(cj.b), s.chans, j, k);
      assert CreatorRefs(s, cj.a) <= 1 && CreatorRefs(s, cj.b) <= 1;
    }
  }

  lemma PutChanCreator(s: Ipc, j: nat, o: ObjectId)
    requires j < |s.chans|
    ensures ChanCreatorW(o)(s.chans[j]) <= CreatorRefs(s, o)
  {
    TotalUpdate(ChanCreatorW(o), s.chans, j, s.chans[j]);
  }

  /** In a linear state the search finds the one Channel of an endpoint. */
  lemma FindsOwn(s: Ipc, j: nat, o: ObjectId)
    requires Linear(s) && j < |s.chans| && HasEndpoint(s.chans[j], o)
    ensures FindChan(s.chans, o) == Some(j)
  {
    var k := FindChan(s.chans, o).value;
    CreatorsDiffer(s, j, k);
  }

  /** A handle entry names a live endpoint, so resolving it cannot fail on the registry. */
  lemma EntryTotal(s: Ipc, i: nat, h: Handle)
    requires Inv(s) && i < |s.procs| && s.procs[i].Some?
    ensures Resolves(s.procs[i].value.table, h) ==>
              && Entry(s.procs[i].value.table, s.reg, h) == Ok(s.procs[i].value.table[h.slot].capability.value)
              && Locate(s, i, h).Ok?
              && Locate(s, i, h).value.1 == s.procs[i].value.table[h.slot].capability.value.target
  {
    var t := s.procs[i].value.table;
    if Resolves(t, h) {
      SlotHeld(s, i, h.slot);
    }
  }

  lemma SlotHeld(s: Ipc, i: nat, k: nat)
    requires Inv(s) && i < |s.procs| && s.procs[i].Some? && k < |s.procs[i].value.table|
    requires s.procs[i].value.table[k].capability.Some?
    ensures var o := s.procs[i].value.table[k].capability.value.target;
            && HandleRefs(s, o) > 0 && LedgerOf(s)(o) > 0 && Live(s.reg, o)
            && FindChan(s.chans, o).Some? && o.kind == ChannelEndpoint
  {
    var o := s.procs[i].value.table[k].capability.value.target;
    TableHolds(s.procs[i].value.table, o);
    PutTableRefs(s, i, s.procs[i].value.table, o);
    assert LedgerOf(s)(o) > 0;
  }

  // ----- Object creation -----

  lemma CreateEndpointsExact(reg: Slots, l: Ledger)
    requires Exact(reg, l)
    ensures Evolved(reg, CreateEndpoints(reg).0)
    ensures CreateEndpoints(reg).1.Err? ==> Exact(CreateEndpoints(reg).0, l)
    ensures CreateEndpoints(reg).1.Ok? ==>
              var (a, b) := CreateEndpoints(reg).1.value;
              && Exact(CreateEndpoints(reg).0, x => l(x) + One(a, x) + One(b, x))
              && a.kind == ChannelEndpoint && b.kind == ChannelEndpoint && a != b && l(a) == 0 && l(b) == 0
  {
    CreateExact(reg, ChannelEndpoint, l);
    var (r1, x1) := Create(reg, ChannelEndpoint);
    if x1.Ok? {
      var l1: Ledger := x => l(x) + One(x1.value, x);
      CreateExact(r1, ChannelEndpoint, l1);
      var (r2, x2) := Create(r1, ChannelEndpoint);
      if x2.Err? {
        ReleaseExact(r1, x1.value, l1, l);
        EvolvedTrans(reg, r1, CreateEndpoints(reg).0);
      } else {
        ExactSame(r2, x => l1(x) + One(x2.value, x), x => l(x) + One(x1.value, x) + One(x2.value, x));
        assert l1(x2.value) == 0;
        EvolvedTrans(reg, r1, r2);
      }
    }
  }

  lemma CreateThreeExact(reg: Slots, l: Ledger)
    requires Exact(reg, l)
    ensures Evolved(reg, CreateThree(reg).0)
    ensures CreateThree(reg).1.Err? ==> Exact(CreateThree(reg).0, l)
    ensures CreateThree(reg).1.Ok? ==>
              var (c, a, b) := CreateThree(reg).1.value;
              && Exact(CreateThree(reg).0, x => l(x) + One(c, x) + One(a, x) + One(b, x))
              && c.kind == Channel && a.kind == ChannelEndpoint && b.kind == ChannelEndpoint && a != b
              && l(c) == 0 && l(a) == 0 && l(b) == 0
  {
    CreateExact(reg, Channel, l);
    var (r1, x1) := Create(reg, Channel);
    if x1.Ok? {
      var c := x1.value;
      var l1: Ledger := x => l(x) + One(c, x);
      CreateEndpointsExact(r1, l1);
      var (r2, x2) := CreateEndpoints(r1);
      EvolvedTrans(reg, r1, r2);
      if x2.Err? {
        ReleaseExact(r2, c, l1, l);
        EvolvedTrans(reg, r2, CreateThree(reg).0);
      } else {
        var (a, b) := x2.value;
        ExactSame(r2, x => l1(x) + One(a, x) + One(b, x), x => l(x) + One(c, x) + One(a, x) + One(b, x));
        assert l1(a) == 0 && l1(b) == 0;
      }
    }
  }

  lemma InsertExact(t: Table, reg: Slots, o: ObjectId, rights: Rights, l: Ledger)
    requires TableWf(t) && Exact(reg, l) && 0 < l(o) < U32_MAX
    ensures var (t', reg', r) := Insert(t, reg, o, rights);
            && TableWf(t') && |t'| == |t| && TableEvolved(t, t') && Evolved(reg, reg')
            && (r.Err? ==> t' == t && Exact(reg', l))
            && (r.Ok? ==> Exact(reg', x => l(x) + One(o, x)) && t' == Install(t, Capability(o, rights)).0
                          && r == Install(t, Capability(o, rights)).1)
  {
    RetainExact(reg, o, l);
    var retained := Retain(reg, o).0;
    var l1: Ledger := x => l(x) + One(o, x);
    if Install(t, Capability(o, rights)).1.Err? {
      ReleaseExact(retained, o, l1, l);
    }
  }

  lemma CloseExact(t: Table, reg: Slots, h: Handle, l: Ledger, l': Ledger)
    requires TableWf(t) && Exact(reg, l) && Resolves(t, h) && t[h.slot].generation < U32_MAX
    requires l(t[h.slot].capability.value.target) > 0
    requires forall x :: l'(x) + One(t[h.slot].capability.value.target, x) == l(x)
    ensures CloseHandle(t, reg, h).2.Ok?
    ensures CloseHandle(t, reg, h).0 == Vacated(t, h.slot)
    ensures Exact(CloseHandle(t, reg, h).1, l') && Evolved(reg, CloseHandle(t, reg, h).1)
  {
    ReleaseExact(reg, t[h.slot].capability.value.target, l, l');
  }

  /** Both endpoints are handed out, or the ledger and the table's references are as before. */
  lemma InsertTwoExact(t: Table, reg: Slots, a: ObjectId, b: ObjectId, l: Ledger)
    requires TableWf(t) && Exact(reg, l) && l(a) == 1 && l(b) == 1 && a != b
    ensures var (t', reg', r) := InsertTwo(t, reg, a, b);
            && TableWf(t') && |t'| == |t| && Evolved(reg, reg')
            && (r.Err? ==> Exact(reg', l))
            && (r.Ok? ==> Exact(reg', x => l(x) + One(a, x) + One(b, x)))
  {
    InsertExact(t, reg, a, ENDPOINT_RIGHTS, l);
    var (t1, r1, x1) := Insert(t, reg, a, ENDPOINT_RIGHTS);
    if x1.Ok? {
      var l1: Ledger := x => l(x) + One(a, x);
      InsertExact(t1, r1, b, ENDPOINT_RIGHTS, l1);
      var (t2, r2, x2) := Insert(t1, r1, b, ENDPOINT_RIGHTS);
      if x2.Err? {
        CloseExact(t2, r2, x1.value, l1, l);
      } else {
        ExactSame(r2, x => l1(x) + One(b, x), x => l(x) + One(a, x) + One(b, x));
      }
    }
  }

  /** What the two inserts leave in the table: two new entries, or at most a spent slot. */
  lemma InsertTwoTable(t: Table, reg: Slots, a: ObjectId, b: ObjectId, l: Ledger, o: ObjectId)
    requires TableWf(t) && Exact(reg, l) && l(a) == 1 && l(b) == 1 && a != b
    ensures var (t', reg', r) := InsertTwo(t, reg, a, b);
            && TableEvolved(t, t')
            && (r.Err? ==> TableRefs(t', o) == TableRefs(t, o))
            && (r.Ok? ==> TableRefs(t', o) == TableRefs(t, o) + One(a, o) + One(b, o))
            && (forall k :: 0 <= k < |t| && t[k].capability.Some? ==> t'[k] == t[k])
            && (forall k :: 0 <= k < |t| && t[k].capability.None? && t'[k].capability.Some? ==>
                  r.Ok? && t'[k].capability.value.target in {a, b} && t'[k].capability.value.rights == ENDPOINT_RIGHTS)
  {
    InsertExact(t, reg, a, ENDPOINT_RIGHTS, l);
    var (t1, r1, x1) := Insert(t, reg, a, ENDPOINT_RIGHTS);
    if x1.Ok? {
      var l1: Ledger := x => l(x) + One(a, x);
      InstallRefs(t, Capability(a, ENDPOINT_RIGHTS), o);
      InsertExact(t1, r1, b, ENDPOINT_RIGHTS, l1);
      var (t2, r2, x2) := Insert(t1, r1, b, ENDPOINT_RIGHTS);
      if x2.Err? {
        CloseExact(t2, r2, x1.value, l1, l);
        VacateRefs(t1, x1.value.slot, o);
      } else {
        InstallRefs(t1, Capability(b, ENDPOINT_RIGHTS), o);
      }
    }
  }
}
