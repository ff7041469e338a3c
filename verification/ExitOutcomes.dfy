/** Exit statuses and process waits over whole runs: what was recorded is what the
    next wait gets, and a wait that blocked is ended by the exit it was for. */
module ExitOutcomes {
  import opened Prelude
  import opened Counts
  import opened ProcessExit

  predicate NoWaitFor(ops: seq<ExitOp>, pid: nat) {
    forall k :: 0 <= k < |ops| && ops[k].WaitFor? ==> ops[k].pid != pid
  }

  lemma RecordStays(h: History, op: ExitOp, r: ExitRecord)
    requires Some(r) in h.table.records && (op.WaitFor? ==> op.pid != r.pid)
    ensures Some(r) in Step(h, op).table.records
  {
    hide Reserve;
    var i :| 0 <= i < |h.table.records| && h.table.records[i] == Some(r);
    assert i < |Step(h, op).table.records| && Step(h, op).table.records[i] == Some(r);
  }

  lemma {:induction false} RecordKept(h: History, ops: seq<ExitOp>, r: ExitRecord)
    requires Some(r) in h.table.records && NoWaitFor(ops, r.pid)
    ensures Some(r) in Run(h, ops).table.records
    decreases |ops|
  {
    hide Step;
    if ops != [] {
      RecordStays(h, ops[0], r);
      RecordKept(Step(h, ops[0]), ops[1..], r);
    }
  }

  /** At most one record names a process. */
  lemma RecordFound(h: History, r: ExitRecord, thread: nat)
    requires Inv(h) && Some(r) in h.table.records
    ensures Wait(h.table, r.pid, thread).1 == Ready(r)
    ensures Some(r) !in Wait(h.table, r.pid, thread).0.records && !IsLive(h.table, r.pid)
  {
    hide Total;
    var records := h.table.records;
    var i :| 0 <= i < |records| && records[i] == Some(r);
    assert Places(h, r.pid) <= 1;
    TotalUpdate(RecordW(r.pid), records, i, None);
    var k := FirstWhere(RecordW(r.pid), records);
    assert k.Some? by {
      assert RecordW(r.pid)(records[i]) > 0;
    }
    forall j | 0 <= j < |records| && j != i
      ensures RecordW(r.pid)(records[j]) == 0
    {
      TotalTwo(RecordW(r.pid), records, i, j);
    }
    assert k.value == i;
    TotalPositive(LiveW(r.pid), h.table.live);
  }

  /** An exit status is there for whoever waits next, exactly as it was reported, however
      many other processes come and go in between; it is handed out once. */
  lemma StatusWaits(h: History, pid: nat, code: nat, kind: ExitKind, ops: seq<ExitOp>, thread: nat, again: nat)
    requires Inv(h) && IsLive(h.table, pid) && NoWaitFor(ops, pid)
    ensures var h' := Run(Step(h, Exit(pid, code, kind)), ops);
            && Wait(h'.table, pid, thread).1 == Ready(ExitRecord(pid, code, kind))
            && Wait(Wait(h'.table, pid, thread).0, pid, again).1 == Invalid
  {
    hide Step;
    hide Wait;
    hide IsLive;
    var r := ExitRecord(pid, code, kind);
    var h1 := Step(h, Exit(pid, code, kind));
    ExitKeepsStatus(h, pid, code, kind);
    RecordKept(h1, ops, r);
    RunInv(h1, ops);
    var h' := Run(h1, ops);
    RecordFound(h', r, thread);
    NothingLeft(h', r, thread, again);
  }

  lemma NothingLeft(h: History, r: ExitRecord, thread: nat, again: nat)
    requires Inv(h) && Wait(h.table, r.pid, thread).1 == Ready(r) && !IsLive(h.table, r.pid)
    ensures Wait(Wait(h.table, r.pid, thread).0, r.pid, again).1 == Invalid
  {
    hide Total;
    var records := h.table.records;
    var i := FirstWhere(RecordW(r.pid), records).value;
    assert Places(h, r.pid) <= 1;
    TotalUpdate(RecordW(r.pid), records, i, None);
    TotalPositive(RecordW(r.pid), records[i := None]);
  }

  // ----- Waits that blocked -----

  /** Steps that end the wait of `thread` for `pid`. */
  predicate EndsWait(op: ExitOp, pid: nat, thread: nat) {
    (op.Exit? && op.pid == pid) || op == Cancel(thread)
  }

  lemma WaiterStays(h: History, op: ExitOp, pid: nat, thread: nat)
    requires Inv(h) && Some(LiveEntry(pid, Some(thread))) in h.table.live && !EndsWait(op, pid, thread)
    ensures Some(LiveEntry(pid, Some(thread))) in Step(h, op).table.live
  {
    hide Total;
    hide Reserve;
    var live := h.table.live;
    var i :| 0 <= i < |live| && live[i] == Some(LiveEntry(pid, Some(thread)));
    forall j | 0 <= j < |live| && j != i
      ensures LiveW(pid)(live[j]) == 0
    {
      TotalTwo(LiveW(pid), live, i, j);
      assert Places(h, pid) <= 1;
    }
    assert i < |Step(h, op).table.live| && Step(h, op).table.live[i] == live[i];
  }

  lemma {:induction false} WaiterKept(h: History, ops: seq<ExitOp>, pid: nat, thread: nat)
    requires Inv(h) && Some(LiveEntry(pid, Some(thread))) in h.table.live
    requires forall k :: 0 <= k < |ops| ==> !EndsWait(ops[k], pid, thread)
    ensures Some(LiveEntry(pid, Some(thread))) in Run(h, ops).table.live && Inv(Run(h, ops))
    decreases |ops|
  {
    hide Step;
    hide Inv;
    hide EndsWait;
    if ops != [] {
      RunInv(h, [ops[0]]);
      assert Run(h, [ops[0]]) == Step(h, ops[0]);
      WaiterStays(h, ops[0], pid, thread);
      WaiterKept(Step(h, ops[0]), ops[1..], pid, thread);
    }
  }

  /** A wait that blocked is what the exit answers: the thread handed out to be woken is the
      one that waited, and its next wait gets the status. */
  lemma BlockedWaitIsAnswered(h: History, pid: nat, thread: nat, ops: seq<ExitOp>, code: nat, kind: ExitKind)
    requires Inv(h) && Wait(h.table, pid, thread).1 == Blocked
    requires forall k :: 0 <= k < |ops| ==> !EndsWait(ops[k], pid, thread)
    ensures var h' := Run(Step(h, WaitFor(pid, thread)), ops);
            && RecordExit(h'.table, pid, code, kind).1 == Some(thread)
            && Wait(RecordExit(h'.table, pid, code, kind).0, pid, thread).1 == Ready(ExitRecord(pid, code, kind))
  {
    hide Total;
    hide EndsWait;
    var h1 := Step(h, WaitFor(pid, thread));
    var i := FirstWhere(LiveW(pid), h.table.live).value;
    assert h1.table.live[i] == Some(LiveEntry(pid, Some(thread)));
    WaitInv(h, pid, thread);
    hide Step;
    hide Wait;
    WaiterKept(h1, ops, pid, thread);
    var h' := Run(h1, ops);
    WaiterFound(h', pid, thread, code, kind);
    StatusWaits(h', pid, code, kind, [], thread, thread);
    assert Run(Step(h', Exit(pid, code, kind)), []) == Step(h', Exit(pid, code, kind));
    ExitStepTable(h', pid, code, kind);
  }

  lemma ExitStepTable(h: History, pid: nat, code: nat, kind: ExitKind)
    ensures Step(h, Exit(pid, code, kind)).table == RecordExit(h.table, pid, code, kind).0
  {
  }

  lemma WaiterFound(h: History, pid: nat, thread: nat, code: nat, kind: ExitKind)
    requires Inv(h) && Some(LiveEntry(pid, Some(thread))) in h.table.live
    ensures IsLive(h.table, pid) && RecordExit(h.table, pid, code, kind).1 == Some(thread)
  {
    hide Total;
    var live := h.table.live;
    var i :| 0 <= i < |live| && live[i] == Some(LiveEntry(pid, Some(thread)));
    assert LiveW(pid)(live[i]) > 0;
    var k := FirstWhere(LiveW(pid), live).value;
    assert Places(h, pid) <= 1;
    if k != i {
      TotalTwo(LiveW(pid), live, i, k);
    }
  }

  /** A wait is answered at once, registers, or is refused, and which of these is decided by
      where the process is. */
  lemma WaitOutcomes(h: History, pid: nat, thread: nat)
    requires Inv(h)
    ensures var x := Wait(h.table, pid, thread).1;
            && (x.Ready? <==> exists k :: 0 <= k < |h.table.records| && h.table.records[k].Some? && h.table.records[k].value.pid == pid)
            && (x.Blocked? <==>
                  && (exists k :: 0 <= k < |h.table.live| && h.table.live[k] == Some(LiveEntry(pid, None)))
                  && (forall k :: 0 <= k < |h.table.live| && h.table.live[k].Some? ==> h.table.live[k].value.waiter != Some(thread)))
  {
    hide Total;
    var t := h.table;
    assert Places(h, pid) <= 1;
    TotalPositive(RecordW(pid), t.records);
    TotalPositive(LiveW(pid), t.live);
    forall k | 0 <= k < |t.live| && t.live[k] == Some(LiveEntry(pid, None))
      ensures FirstWhere(LiveW(pid), t.live) == Some(k) && FirstWhere(RecordW(pid), t.records).None?
    {
      assert LiveW(pid)(t.live[k]) > 0;
      var j := FirstWhere(LiveW(pid), t.live).value;
      if j != k {
        TotalTwo(LiveW(pid), t.live, j, k);
      }
    }
    assert forall k :: 0 <= k < |t.live| ==> (WaiterW(thread)(t.live[k]) > 0 <==> t.live[k].Some? && t.live[k].value.waiter == Some(thread));
    assert forall k :: 0 <= k < |t.records| ==> (RecordW(pid)(t.records[k]) > 0 <==> t.records[k].Some? && t.records[k].value.pid == pid);
  }

  /** A spawn is admitted exactly when a live place is free, a record would remain for every
      live process and the new one, and identities are left; each refusal has its one cause. */
  lemma ReserveOutcomes(h: History)
    requires Inv(h)
    ensures var t, x := h.table, Reserve(h.table);
            && (x == Err(AlreadyLive) <==> None !in t.live)
            && (x == Err(RecordsFull) <==> None in t.live && FreeRecords(t) <= LiveCount(t))
            && (x == Err(IdsExhausted) <==> None in t.live && FreeRecords(t) > LiveCount(t) && t.next == U32_MAX)
            && (x.Ok? ==> x.value == t.next && !IsLive(t, t.next))
  {
    var t := h.table;
    AllOrSome(t.live);
    assert Places(h, t.next) == 0;
    TotalPositive(LiveW(t.next), t.live);
  }

  lemma {:induction false} AllOrSome<T>(s: seq<Option<T>>)
    ensures Total(OccupiedW<T>(), s) <= |s|
    ensures Total(OccupiedW<T>(), s) == |s| <==> forall k :: 0 <= k < |s| ==> s[k].Some?
  {
    if s != [] {
      AllOrSome(s[1..]);
      assert forall k :: 0 < k < |s| ==> s[k] == s[1..][k - 1];
    }
  }
}
