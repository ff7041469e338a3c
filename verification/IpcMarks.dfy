/** What the collector's marks mean, and the state after each swept Channel. */
module IpcMarks {
  import opened Prelude
  import opened Counts
  import opened Objects
  import opened Handles
  import opened Waits
  import opened IpcModel
  import opened IpcLedger
  import opened IpcSafety
  import opened IpcCollect

  // ----- Marking, as the collector scans it -----

  /** One of the visited objects is an endpoint that the search places in Channel `j`. */
  ghost predicate Named(chans: seq<Option<Chan>>, objects: seq<ObjectId>, j: nat) {
    exists k :: 0 <= k < |objects| && objects[k].kind == ChannelEndpoint && FindChan(chans, objects[k]) == Some(j)
  }

  lemma NamedOwn(s: Ipc, objects: seq<ObjectId>, j: nat)
    requires Linear(s) && ChanShape(s) && j < |s.chans| && s.chans[j].Some?
    ensures Named(s.chans, objects, j) <==> s.chans[j].value.a in objects || s.chans[j].value.b in objects
  {
    hide Linear;
    forall k | 0 <= k < |objects| && HasEndpoint(s.chans[j], objects[k])
      ensures FindChan(s.chans, objects[k]) == Some(j)
    {
      FindsOwn(s, j, objects[k]);
    }
  }

  lemma NamedSome(chans: seq<Option<Chan>>, objects: seq<ObjectId>, j: nat)
    requires Named(chans, objects, j)
    ensures j < |chans| && chans[j].Some?
  {
  }

  /** Visiting every table marks exactly the roots. */
  lemma RootNamed(s: Ipc, j: nat)
    requires Linear(s) && ChanShape(s)
    ensures Root(s, j) <==> exists i :: 0 <= i < |s.procs| && s.procs[i].Some? && Named(s.chans, TableObjects(s.procs[i].value.table), j)
  {
    hide Linear;
    hide Named;
    hide Total;
    hide ChanShape;
    if j < |s.chans| && s.chans[j].Some? {
      var a, b := s.chans[j].value.a, s.chans[j].value.b;
      TotalPositive(ProcHandlesW(a), s.procs);
      TotalPositive(ProcHandlesW(b), s.procs);
      forall i | 0 <= i < |s.procs| && s.procs[i].Some?
        ensures Named(s.chans, TableObjects(s.procs[i].value.table), j) <==> ProcHandlesW(a)(s.procs[i]) + ProcHandlesW(b)(s.procs[i]) > 0
      {
        NamedOwn(s, TableObjects(s.procs[i].value.table), j);
        TableObjectsRefs(s.procs[i].value.table, a);
        TableObjectsRefs(s.procs[i].value.table, b);
      }
    } else {
      forall i | 0 <= i < |s.procs| && s.procs[i].Some? && Named(s.chans, TableObjects(s.procs[i].value.table), j)
        ensures false
      {
        NamedSome(s.chans, TableObjects(s.procs[i].value.table), j);
      }
    }
  }

  /** Visiting the queues of Channel `i` marks exactly the Channels it leads to. */
  lemma EdgeNamed(s: Ipc, i: nat, j: nat)
    requires Linear(s) && ChanShape(s) && i < |s.chans| && s.chans[i].Some?
    ensures Edge(s, i, j) <==> Named(s.chans, QueueObjects(s.chans[i].value.toB) + QueueObjects(s.chans[i].value.toA), j)
  {
    hide Linear;
    hide Named;
    hide Total;
    hide ChanShape;
    var c := s.chans[i].value;
    var objects := QueueObjects(c.toB) + QueueObjects(c.toA);
    if j < |s.chans| && s.chans[j].Some? {
      NamedOwn(s, objects, j);
      EscrowVisited(c, s.chans[j].value.a);
      EscrowVisited(c, s.chans[j].value.b);
    } else if Named(s.chans, objects, j) {
      NamedSome(s.chans, objects, j);
    }
  }

  lemma EscrowVisited(c: Chan, o: ObjectId)
    ensures Escrow(c, o) > 0 <==> o in QueueObjects(c.toB) + QueueObjects(c.toA)
  {
    QueueObjectsRefs(c.toB, o);
    QueueObjectsRefs(c.toA, o);
  }

  lemma ClosedReady(s: Ipc, i: nat, h: Handle)
    requires IpcLedger.Ready(s) && i < |s.procs| && s.procs[i].Some?
    ensures var (t, reg, closed) := CloseHandle(s.procs[i].value.table, s.reg, h);
            closed.Ok? ==> IpcLedger.Ready(PutTable(s, i, t).(reg := reg))
  {
    hide Linear;
    hide Exact;
    hide Quiet;
    hide ChanShape;
    if CloseHandle(s.procs[i].value.table, s.reg, h).2.Ok? {
      VacatedInv(s, i, h);
    }
  }

  lemma RemovedReady(s: Ipc, pid: nat)
    requires Inv(s) && pid != INIT_PROCESS_ID && ProcIndex(s, pid).Some?
    ensures IpcLedger.Ready(Removed(s, ProcIndex(s, pid).value))
  {
    hide Linear;
    hide Exact;
    hide Quiet;
    hide ChanShape;
    RemovedInv(s, ProcIndex(s, pid).value);
  }

  ghost function SweptChans(s: Ipc, n: nat): seq<Option<Chan>>
    requires n <= |s.chans|
  {
    seq(|s.chans|, k requires 0 <= k < |s.chans| => if k < n && !Kept(s, k) then None else s.chans[k])
  }

  /** The state after the first `n` Channel slots have been swept. */
  ghost function Swept(s: Ipc, n: nat): Ipc
    requires n <= |s.chans|
  {
    s.(reg := ReleaseAll(s.reg, Garbage(s, n)), chans := SweptChans(s, n))
  }

  lemma SweptChansStep(s: Ipc, n: nat)
    requires n < |s.chans|
    ensures SweptChans(s, n)[n] == s.chans[n]
    ensures SweptChans(s, n + 1) == if Kept(s, n) then SweptChans(s, n) else SweptChans(s, n)[n := None]
    ensures s.chans[n].None? ==> SweptChans(s, n + 1) == SweptChans(s, n)
  {
    hide Kept;
  }

  lemma SweptEnds(s: Ipc)
    ensures Swept(s, 0) == s && Swept(s, |s.chans|) == Collect(s)
  {
    hide Reachable;
    assert Swept(s, 0).chans == s.chans;
    assert Swept(s, |s.chans|).chans == Survivors(s);
  }

  lemma SweptStep(s: Ipc, n: nat)
    requires n < |s.chans| && AllReleased(s.reg, Garbage(s, |s.chans|))
    ensures Swept(s, n).chans[n] == s.chans[n]
    ensures s.chans[n].Some? && !Reachable(s, n) ==>
              && AllReleased(Swept(s, n).reg, ChanObjects(s.chans[n].value))
              && Swept(s, n + 1) == Swept(s, n).(reg := ReleaseAll(Swept(s, n).reg, ChanObjects(s.chans[n].value)), chans := Swept(s, n).chans[n := None])
    ensures s.chans[n].None? || Reachable(s, n) ==> Swept(s, n + 1) == Swept(s, n)
  {
    hide Reachable;
    hide ChanObjects;
    hide ReleaseAll;
    hide AllReleased;
    hide SweptChans;
    SweptChansStep(s, n);
    if s.chans[n].Some? && !Reachable(s, n) {
      GarbagePrefix(s, n + 1);
      ReleaseAllAppend(s.reg, Garbage(s, n), ChanObjects(s.chans[n].value));
    } else {
      assert Garbage(s, n + 1) == Garbage(s, n);
    }
  }

  ghost function Unmarked(marks: seq<bool>): set<nat> {
    set j: nat | j < |marks| && !marks[j]
  }

  lemma FewerUnmarked(before: seq<bool>, after: seq<bool>)
    requires |before| == |after| && before != after && forall j :: 0 <= j < |before| && before[j] ==> after[j]
    ensures Unmarked(after) < Unmarked(before)
  {
    var j: nat :| j < |before| && before[j] != after[j];
    assert j in Unmarked(before) && j !in Unmarked(after);
  }

  lemma RootInside(s: Ipc, j: nat)
    requires Root(s, j)
    ensures j < |s.chans| && Reachable(s, j)
  {
    RootReachable(s, j);
  }

  lemma MarksExact(s: Ipc, marks: seq<bool>)
    requires |marks| == |s.chans|
    requires forall j: nat :: Root(s, j) ==> j < |marks| && marks[j]
    requires forall j: nat :: j < |marks| && marks[j] ==> Reachable(s, j)
    requires forall i: nat, j: nat :: i < |marks| && marks[i] && Edge(s, i, j) ==> j < |marks| && marks[j]
    ensures forall j: nat :: j < |marks| ==> (marks[j] <==> Reachable(s, j))
  {
    hide Reachable;
    hide Edge;
    hide Root;
    var marked := set j: nat | j < |marks| && marks[j];
    LeastFixpoint(s, marked);
  }

  lemma CollectReleases(s: Ipc)
    requires Inv(s)
    ensures AllReleased(s.reg, Garbage(s, |s.chans|))
  {
    hide Garbage;
    hide Exact;
    hide Collect;
    forall o
      ensures LedgerOf(Collect(s))(o) + multiset(Garbage(s, |s.chans|))[o] == LedgerOf(s)(o)
    {
      CollectLedger(s, o);
    }
    ReleaseAllExact(s.reg, Garbage(s, |s.chans|), LedgerOf(s), LedgerOf(Collect(s)));
  }

  /** Every prefix of the garbage is released without a failure too. */
  lemma {:induction false} GarbagePrefix(s: Ipc, n: nat)
    requires n <= |s.chans| && AllReleased(s.reg, Garbage(s, |s.chans|))
    ensures AllReleased(s.reg, Garbage(s, n))
    decreases |s.chans| - n
  {
    hide Reachable;
    hide AllReleased;
    hide ReleaseAll;
    hide ChanObjects;
    if n < |s.chans| {
      GarbagePrefix(s, n + 1);
      ReleaseAllAppend(s.reg, Garbage(s, n), if s.chans[n].Some? && !Reachable(s, n) then ChanObjects(s.chans[n].value) else []);
    }
  }

  lemma MarkedRoots(s: Ipc, j: nat)
    requires Inv(s)
    ensures Root(s, j) <==> exists i :: 0 <= i < |s.procs| && s.procs[i].Some? && Named(s.chans, TableObjects(s.procs[i].value.table), j)
  {
    RootNamed(s, j);
  }

  lemma MarkedEdges(s: Ipc, i: nat, j: nat)
    requires Inv(s) && i < |s.chans| && s.chans[i].Some? && Reachable(s, i)
    ensures Edge(s, i, j) <==> Named(s.chans, QueueObjects(s.chans[i].value.toB) + QueueObjects(s.chans[i].value.toA), j)
    ensures Edge(s, i, j) ==> j < |s.chans| && Reachable(s, j)
  {
    hide Reachable;
    EdgeNamed(s, i, j);
    if Edge(s, i, j) {
      EdgeReachable(s, i, j);
    }
  }

  lemma NoEdge(s: Ipc, i: nat, j: nat)
    ensures i < |s.chans| && s.chans[i].None? ==> !Edge(s, i, j)
  {
  }
}
