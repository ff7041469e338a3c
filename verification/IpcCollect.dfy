/** The Channel collector: what survives is exactly what process handles can
    reach, cyclic escrow included, and dropping the rest keeps every count exact. */
module IpcCollect {
  import opened Prelude
  import opened Counts
  import opened Objects
  import opened Handles
  import opened Waits
  import opened IpcModel
  import opened IpcLedger
  import opened IpcSafety

  // ----- Reachability -----

  lemma RootReachable(s: Ipc, i: nat)
    requires Root(s, i)
    ensures Reachable(s, i)
  {
    assert Path(s, [i]);
  }

  lemma EdgeReachable(s: Ipc, i: nat, j: nat)
    requires Reachable(s, i) && Edge(s, i, j)
    ensures Reachable(s, j)
  {
    var path :| Path(s, path) && path[|path| - 1] == i;
    var longer := path + [j];
    forall k | 0 < k < |longer|
      ensures Edge(s, longer[k - 1], longer[k])
    {
      assert k < |path| ==> longer[k - 1] == path[k - 1] && longer[k] == path[k];
    }
    assert Path(s, longer);
  }

  /** A set with every root, closed under escrow edges, contains every reachable Channel. */
  lemma {:induction false} PathInside(s: Ipc, path: seq<nat>, marked: set<nat>)
    requires Path(s, path)
    requires forall i :: Root(s, i) ==> i in marked
    requires forall i, j :: i in marked && Edge(s, i, j) ==> j in marked
    ensures path[|path| - 1] in marked
    decreases |path|
  {
    if |path| > 1 {
      var shorter := path[..|path| - 1];
      assert Path(s, shorter);
      PathInside(s, shorter, marked);
      assert Edge(s, path[|path| - 2], path[|path| - 1]);
    }
  }

  /** The least set closed under the two marking rules is exactly the reachable set. */
  lemma LeastFixpoint(s: Ipc, marked: set<nat>)
    requires forall i :: Root(s, i) ==> i in marked
    requires forall i, j :: i in marked && Edge(s, i, j) ==> j in marked
    requires forall i :: i in marked ==> Reachable(s, i)
    ensures forall i :: Reachable(s, i) <==> i in marked
  {
    forall i | Reachable(s, i)
      ensures i in marked
    {
      var path :| Path(s, path) && path[|path| - 1] == i;
      PathInside(s, path, marked);
    }
  }

  lemma {:induction false} PathLive(s: Ipc, path: seq<nat>, k: nat)
    requires Path(s, path) && k < |path|
    ensures Kept(s, path[k])
    decreases k
  {
    if k == 0 {
      RootReachable(s, path[0]);
    } else {
      PathLive(s, path, k - 1);
      assert Edge(s, path[k - 1], path[k]);
      EdgeReachable(s, path[k - 1], path[k]);
    }
  }

  // ----- What one Channel releases -----

  lemma {:induction false} TokenObjectsRefs(cs: seq<Capability>, o: ObjectId)
    ensures multiset(TokenObjects(cs))[o] == CapsRefs(cs, o)
  {
    if cs != [] {
      TokenObjectsRefs(cs[1..], o);
    }
  }

  lemma {:induction false} QueueObjectsRefs(q: seq<Message>, o: ObjectId)
    ensures multiset(QueueObjects(q))[o] == Total(MessageRefs(o), q)
  {
    if q != [] {
      QueueObjectsRefs(q[1..], o);
      TokenObjectsRefs(q[0].tokens, o);
    }
  }

  lemma ChanObjectsRefs(c: Chan, o: ObjectId)
    ensures multiset(ChanObjects(c))[o] == Escrow(c, o) + One(c.id, o) + One(c.a, o) + One(c.b, o)
  {
    QueueObjectsRefs(c.toB, o);
    QueueObjectsRefs(c.toA, o);
    assert multiset([c.a, c.b, c.id])[o] == One(c.id, o) + One(c.a, o) + One(c.b, o);
  }

  // ----- Ledger of the survivors -----

  /** Collecting the first `n` slots accounts for every reference they held. */
  lemma {:induction false} GarbageRefs(s: Ipc, n: nat, o: ObjectId)
    requires n <= |s.chans|
    ensures multiset(Garbage(s, n))[o] + Total(EscrowW(o), Survivors(s)[..n]) + Total(ChanCreatorW(o), Survivors(s)[..n])
         == Total(EscrowW(o), s.chans[..n]) + Total(ChanCreatorW(o), s.chans[..n])
  {
    hide Reachable;
    hide Total;
    hide ChanObjects;
    if n == 0 {
      assert s.chans[..n] == [] && Survivors(s)[..n] == [];
    } else {
      GarbageRefs(s, n - 1, o);
      var kept := Survivors(s);
      TotalTake(EscrowW(o), kept, n);
      TotalTake(ChanCreatorW(o), kept, n);
      TotalTake(EscrowW(o), s.chans, n);
      TotalTake(ChanCreatorW(o), s.chans, n);
      if s.chans[n - 1].Some? {
        ChanObjectsRefs(s.chans[n - 1].value, o);
      }
    }
  }

  lemma CollectLedger(s: Ipc, o: ObjectId)
    ensures LedgerOf(Collect(s))(o) + multiset(Garbage(s, |s.chans|))[o] == LedgerOf(s)(o)
  {
    hide Garbage;
    hide Total;
    GarbageRefs(s, |s.chans|, o);
    assert Survivors(s)[..|s.chans|] == Survivors(s);
    assert s.chans[..|s.chans|] == s.chans;
  }

  lemma CollectExact(s: Ipc)
    requires Exact(s.reg, LedgerOf(s))
    ensures Exact(Collect(s).reg, LedgerOf(Collect(s)))
    ensures Evolved(s.reg, Collect(s).reg)
  {
    hide Garbage;
    hide Exact;
    forall o
      ensures LedgerOf(Collect(s))(o) + multiset(Garbage(s, |s.chans|))[o] == LedgerOf(s)(o)
    {
      CollectLedger(s, o);
    }
    ReleaseAllExact(s.reg, Garbage(s, |s.chans|), LedgerOf(s), LedgerOf(Collect(s)));
  }

  /** Dropping elements never raises a count. */
  lemma {:induction false} SurvivorsLess(s: Ipc, w: Option<Chan> -> nat, n: nat)
    requires n <= |s.chans| && w(None) == 0
    ensures Total(w, Survivors(s)[..n]) <= Total(w, s.chans[..n])
  {
    hide Reachable;
    if n > 0 {
      SurvivorsLess(s, w, n - 1);
      TotalTake(w, Survivors(s), n);
      TotalTake(w, s.chans, n);
    }
  }

  lemma CollectLess(s: Ipc, o: ObjectId)
    ensures HandleRefs(Collect(s), o) == HandleRefs(s, o)
    ensures EscrowRefs(Collect(s), o) <= EscrowRefs(s, o)
    ensures CreatorRefs(Collect(s), o) <= CreatorRefs(s, o)
  {
    hide Total;
    hide Garbage;
    SurvivorsLess(s, EscrowW(o), |s.chans|);
    SurvivorsLess(s, ChanCreatorW(o), |s.chans|);
    assert Survivors(s)[..|s.chans|] == Survivors(s);
    assert s.chans[..|s.chans|] == s.chans;
  }

  /** Whatever is still held after the collection belongs to a Channel that survived. */
  lemma HeldSurvives(s: Ipc, o: ObjectId)
    requires Linear(s) && HandleRefs(Collect(s), o) + EscrowRefs(Collect(s), o) > 0
    ensures FindChan(Collect(s).chans, o).Some?
  {
    hide Total;
    hide Garbage;
    CollectLess(s, o);
    var j := FindChan(s.chans, o).value;
    if HandleRefs(s, o) > 0 {
      assert Root(s, j);
      RootReachable(s, j);
    } else {
      TotalPositive(EscrowW(o), Survivors(s));
      var i :| 0 <= i < |Survivors(s)| && EscrowW(o)(Survivors(s)[i]) > 0;
      assert Kept(s, i) && Survivors(s)[i] == s.chans[i];
      assert Escrow(s.chans[i].value, o) > 0;
      assert Edge(s, i, j);
      EdgeReachable(s, i, j);
    }
    assert HasEndpoint(Survivors(s)[j], o);
  }

  lemma CollectLinear(s: Ipc)
    requires Linear(s)
    ensures Linear(Collect(s))
  {
    hide Total;
    hide Garbage;
    hide FindChan;
    hide Survivors;
    forall o
      ensures HandleRefs(Collect(s), o) + EscrowRefs(Collect(s), o) <= 1 && CreatorRefs(Collect(s), o) <= 1
    {
      CollectLess(s, o);
    }
    forall o | HandleRefs(Collect(s), o) + EscrowRefs(Collect(s), o) > 0
      ensures FindChan(Collect(s).chans, o).Some?
    {
      HeldSurvives(s, o);
    }
  }

  lemma CollectQuiet(s: Ipc)
    requires Quiet(s) && ChanShape(s)
    ensures Quiet(Collect(s)) && ChanShape(Collect(s))
  {
    hide Garbage;
    hide ReleaseAll;
    hide Reachable;
  }

  lemma CollectInv(s: Ipc)
    requires IpcLedger.Ready(s)
    ensures IpcLedger.Ready(Collect(s))
    ensures Evolved(s.reg, Collect(s).reg)
  {
    hide Linear;
    hide Exact;
    hide Quiet;
    hide ChanShape;
    CollectExact(s);
    CollectLinear(s);
    CollectQuiet(s);
  }

  /** After a collection the live Channels are exactly the ones reachable before
      it, each of them is still reachable, and nothing about them changed. */
  lemma CollectReachable(s: Ipc, i: nat)
    requires i < |s.chans|
    ensures Collect(s).chans[i] == (if s.chans[i].Some? && Reachable(s, i) then s.chans[i] else None)
    ensures Collect(s).chans[i].Some? ==> Reachable(Collect(s), i)
  {
    hide Garbage;
    hide ReleaseAll;
    hide Total;
    var s' := Collect(s);
    if Kept(s, i) {
      var path :| Path(s, path) && path[|path| - 1] == i;
      forall k | 0 <= k < |path|
        ensures Kept(s, path[k]) && s'.chans[path[k]] == s.chans[path[k]]
      {
        PathLive(s, path, k);
      }
      assert Root(s', path[0]);
      forall k | 0 < k < |path|
        ensures Edge(s', path[k - 1], path[k])
      {
        assert Edge(s, path[k - 1], path[k]);
      }
      assert Path(s', path);
    }
  }

  // ----- close and exit_process -----

  lemma CloseRefs(s: Ipc, i: nat, k: nat, o: ObjectId)
    requires i < |s.procs| && s.procs[i].Some? && k < |s.procs[i].value.table| && s.procs[i].value.table[k].capability.Some?
    ensures var s' := PutTable(s, i, Vacated(s.procs[i].value.table, k));
            && HandleRefs(s', o) + One(s.procs[i].value.table[k].capability.value.target, o) == HandleRefs(s, o)
            && EscrowRefs(s', o) == EscrowRefs(s, o) && CreatorRefs(s', o) == CreatorRefs(s, o)
  {
    hide Total;
    PutTableRefs(s, i, Vacated(s.procs[i].value.table, k), o);
    VacateRefs(s.procs[i].value.table, k, o);
  }

  /** Holding fewer handles keeps ownership linear. */
  lemma FewerLinear(s: Ipc, s': Ipc)
    requires Linear(s) && s'.chans == s.chans
    requires forall o :: HandleRefs(s', o) <= HandleRefs(s, o) && EscrowRefs(s', o) == EscrowRefs(s, o) && CreatorRefs(s', o) <= CreatorRefs(s, o)
    ensures Linear(s')
  {
    hide Total;
    hide FindChan;
    forall o | HandleRefs(s', o) + EscrowRefs(s', o) > 0
      ensures FindChan(s'.chans, o).Some?
    {
      assert HandleRefs(s, o) + EscrowRefs(s, o) > 0;
    }
  }

  lemma VacatedInv(s: Ipc, i: nat, h: Handle)
    requires IpcLedger.Ready(s) && i < |s.procs| && s.procs[i].Some? && Resolves(s.procs[i].value.table, h)
    requires s.procs[i].value.table[h.slot].generation < U32_MAX
    ensures CloseHandle(s.procs[i].value.table, s.reg, h).2.Ok?
    ensures CloseHandle(s.procs[i].value.table, s.reg, h).0 == Vacated(s.procs[i].value.table, h.slot)
    ensures IpcLedger.Ready(PutTable(s, i, CloseHandle(s.procs[i].value.table, s.reg, h).0).(reg := CloseHandle(s.procs[i].value.table, s.reg, h).1))
    ensures Evolved(s.reg, CloseHandle(s.procs[i].value.table, s.reg, h).1)
  {
    hide Linear;
    hide Exact;
    hide Quiet;
    hide ChanShape;
    hide Total;
    hide CloseHandle;
    var t := s.procs[i].value.table;
    var s1 := PutTable(s, i, Vacated(t, h.slot));
    SlotHeld(s, i, h.slot);
    forall o
      ensures HandleRefs(s1, o) + One(t[h.slot].capability.value.target, o) == HandleRefs(s, o)
      ensures EscrowRefs(s1, o) == EscrowRefs(s, o) && CreatorRefs(s1, o) == CreatorRefs(s, o)
    {
      CloseRefs(s, i, h.slot, o);
    }
    CloseExact(t, s.reg, h, LedgerOf(s), LedgerOf(s1));
    FewerLinear(s, s1);
    VacateEvolved(t, h.slot);
    var r := CloseHandle(t, s.reg, h).1;
    WithRegistry(s1, r);
    ExactSame(r, LedgerOf(s1), LedgerOf(s1.(reg := r)));
    QuietSame(s, s1.(reg := r));
  }

  lemma CloseInv(s: Ipc, pid: nat, h: Handle)
    requires Inv(s)
    ensures IpcLedger.Ready(CloseEndpoint(s, pid, h).0)
    ensures Evolved(Booted(s).reg, CloseEndpoint(s, pid, h).0.reg)
    ensures CloseEndpoint(s, pid, h).1.Err? ==> CloseEndpoint(s, pid, h).0 == Booted(s)
    ensures CloseEndpoint(s, pid, h).1.Ok? ==>
              forall i :: 0 <= i < |CloseEndpoint(s, pid, h).0.chans| && CloseEndpoint(s, pid, h).0.chans[i].Some? ==>
                Reachable(CloseEndpoint(s, pid, h).0, i)
  {
    hide Linear;
    hide Exact;
    hide Quiet;
    hide ChanShape;
    hide Total;
    hide Collect;
    hide Booted;
    hide Reachable;
    hide FindProc;
    BootedInv(s);
    var s0 := Booted(s);
    var (s', x) := CloseEndpoint(s, pid, h);
    if x.Ok? {
      var i := ProcIndex(s0, pid).value;
      VacatedInv(s0, i, h);
      var s1 := PutTable(s0, i, CloseHandle(s0.procs[i].value.table, s0.reg, h).0).(reg := CloseHandle(s0.procs[i].value.table, s0.reg, h).1);
      CollectInv(s1);
      EvolvedTrans(s0.reg, s1.reg, s'.reg);
      AllReachable(s1);
    }
  }

  lemma AllReachable(s: Ipc)
    ensures forall i :: 0 <= i < |Collect(s).chans| && Collect(s).chans[i].Some? ==> Reachable(Collect(s), i)
  {
    hide Reachable;
    hide Garbage;
    hide ReleaseAll;
    forall i | 0 <= i < |Collect(s).chans| && Collect(s).chans[i].Some?
      ensures Reachable(Collect(s), i)
    {
      CollectReachable(s, i);
    }
  }

  lemma RemovedRefs(s: Ipc, i: nat, o: ObjectId)
    requires i < |s.procs| && s.procs[i].Some?
    ensures LedgerOf(Removed(s, i))(o) + multiset(TableObjects(s.procs[i].value.table) + [s.procs[i].value.space])[o] == LedgerOf(s)(o)
    ensures HandleRefs(Removed(s, i), o) <= HandleRefs(s, o) && EscrowRefs(Removed(s, i), o) == EscrowRefs(s, o)
    ensures CreatorRefs(Removed(s, i), o) <= CreatorRefs(s, o)
  {
    hide Total;
    PutProcRefs(s, i, None, o);
    TableObjectsRefs(s.procs[i].value.table, o);
    TotalUpdate(ProcCreatorW(o), s.procs, i, None);
  }

  lemma RemovedInv(s: Ipc, i: nat)
    requires IpcLedger.Ready(s) && 0 < i < |s.procs| && s.procs[i].Some?
    ensures IpcLedger.Ready(Removed(s, i))
    ensures Evolved(s.reg, Removed(s, i).reg)
  {
    hide Linear;
    hide Exact;
    hide Quiet;
    hide ChanShape;
    hide ReleaseAll;
    hide TableObjects;
    hide Total;
    var s' := Removed(s, i);
    forall o
      ensures LedgerOf(s')(o) + multiset(TableObjects(s.procs[i].value.table) + [s.procs[i].value.space])[o] == LedgerOf(s)(o)
      ensures HandleRefs(s', o) <= HandleRefs(s, o) && EscrowRefs(s', o) == EscrowRefs(s, o) && CreatorRefs(s', o) <= CreatorRefs(s, o)
    {
      RemovedRefs(s, i, o);
    }
    ReleaseAllExact(s.reg, TableObjects(s.procs[i].value.table) + [s.procs[i].value.space], LedgerOf(s), LedgerOf(s'));
    FewerLinear(s, s');
    QuietSame(s, s');
  }

  lemma ExitInv(s: Ipc, pid: nat)
    requires Inv(s)
    ensures Inv(ExitProcess(s, pid).0)
    ensures Evolved(s.reg, ExitProcess(s, pid).0.reg)
    ensures ExitProcess(s, pid).1.Err? ==> ExitProcess(s, pid).0 == s
    ensures ExitProcess(s, pid).1.Ok? ==>
              && ProcIndex(ExitProcess(s, pid).0, pid).None?
              && forall i :: 0 <= i < |ExitProcess(s, pid).0.chans| && ExitProcess(s, pid).0.chans[i].Some? ==>
                   Reachable(ExitProcess(s, pid).0, i)
  {
    hide Linear;
    hide Exact;
    hide Quiet;
    hide ChanShape;
    hide Total;
    hide Reachable;
    hide Garbage;
    hide ReleaseAll;
    hide Survivors;
    var (s', x) := ExitProcess(s, pid);
    if x.Ok? {
      var i := ProcIndex(s, pid).value;
      RemovedInv(s, i);
      CollectInv(Removed(s, i));
      EvolvedTrans(s.reg, Removed(s, i).reg, s'.reg);
      AllReachable(Removed(s, i));
    } else {
      assert forall k :: 0 <= k < |s.reg| ==> Aged(s.reg[k], s.reg[k]);
    }
  }
}
