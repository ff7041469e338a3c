/** Exit records and Supervisor waits for isolated processes. */
module ProcessExit {
  import opened Prelude
  import opened Counts

  const FIRST_ISOLATED_PROCESS_ID: nat := 2
  const MAX_EXIT_RECORDS: nat := 4
  const MAX_LIVE: nat := 2

  datatype ExitKind = Exited | Faulted(vector: nat)

  datatype ExitRecord = ExitRecord(pid: nat, code: nat, kind: ExitKind)

  datatype LiveEntry = LiveEntry(pid: nat, waiter: Option<nat>)

  datatype Exits = Exits(next: nat, live: seq<Option<LiveEntry>>, records: seq<Option<ExitRecord>>)

  function Empty(): Exits {
    Exits(FIRST_ISOLATED_PROCESS_ID, seq(MAX_LIVE, _ => None), seq(MAX_EXIT_RECORDS, _ => None))
  }

  // ----- Counts -----

  function LiveW(pid: nat): Option<LiveEntry> -> nat {
    (e: Option<LiveEntry>) => if e.Some? && e.value.pid == pid then 1 else 0
  }

  function WaiterW(w: nat): Option<LiveEntry> -> nat {
    (e: Option<LiveEntry>) => if e.Some? && e.value.waiter == Some(w) then 1 else 0
  }

  function OccupiedW<T>(): Option<T> -> nat {
    (e: Option<T>) => if e.Some? then 1 else 0
  }

  function VacantW<T>(): Option<T> -> nat {
    (e: Option<T>) => if e.None? then 1 else 0
  }

  function RecordW(pid: nat): Option<ExitRecord> -> nat {
    (e: Option<ExitRecord>) => if e.Some? && e.value.pid == pid then 1 else 0
  }

  function LiveCount(t: Exits): nat {
    Total(OccupiedW<LiveEntry>(), t.live)
  }

  function FreeRecords(t: Exits): nat {
    Total(VacantW<ExitRecord>(), t.records)
  }

  function FirstWhere<T>(w: T -> nat, s: seq<T>): (r: Option<nat>)
    ensures r.Some? ==> r.value < |s| && w(s[r.value]) > 0
    ensures r.None? ==> forall k :: 0 <= k < |s| ==> w(s[k]) == 0
  {
    if s == [] then None
    else if w(s[0]) > 0 then Some(0)
    else
      assert forall k :: 0 < k < |s| ==> s[k] == s[1..][k - 1];
      match FirstWhere(w, s[1..])
      case None => None
      case Some(i) => Some(i + 1)
  }

  // ----- Operations -----

  datatype ExitError = RecordsFull | IdsExhausted | AlreadyLive

  /** A spawn needs a free record for every live process and for itself. */
  function Reserve(t: Exits): Result<nat, ExitError> {
    if LiveCount(t) == MAX_LIVE then Err(AlreadyLive)
    else if FreeRecords(t) < LiveCount(t) + 1 then Err(RecordsFull)
    else if t.next == U32_MAX then Err(IdsExhausted)
    else Ok(t.next)
  }

  function CommitSpawn(t: Exits, pid: nat): (Exits, bool) {
    if pid != t.next || Reserve(t) != Ok(pid) then (t, false)
    else match FirstNone(t.live)
      case None => (t, false)
      case Some(i) => (t.(live := t.live[i := Some(LiveEntry(pid, None))], next := t.next + 1), true)
  }

  predicate IsLive(t: Exits, pid: nat) {
    FirstWhere(LiveW(pid), t.live).Some?
  }

  /** The waiter to wake, if there is one. */
  function RecordExit(t: Exits, pid: nat, code: nat, kind: ExitKind): (Exits, Option<nat>) {
    match FirstWhere(LiveW(pid), t.live)
    case None => (t, None)
    case Some(i) =>
      var records := match FirstNone(t.records)
                     case None => t.records
                     case Some(k) => t.records[k := Some(ExitRecord(pid, code, kind))];
      (t.(live := t.live[i := None], records := records), t.live[i].value.waiter)
  }

  datatype WaitOutcome = Ready(record: ExitRecord) | Blocked | Invalid

  function Wait(t: Exits, pid: nat, thread: nat): (Exits, WaitOutcome) {
    match FirstWhere(RecordW(pid), t.records)
    case Some(k) => (t.(records := t.records[k := None]), Ready(t.records[k].value))
    case None =>
      if FirstWhere(WaiterW(thread), t.live).Some? then (t, Invalid)
      else match FirstWhere(LiveW(pid), t.live)
        case None => (t, Invalid)
        case Some(i) =>
          if t.live[i].value.waiter.Some? then (t, Invalid)
          else (t.(live := t.live[i := Some(LiveEntry(pid, Some(thread)))]), Blocked)
  }

  function CancelWait(t: Exits, thread: nat): (Exits, bool) {
    match FirstWhere(WaiterW(thread), t.live)
    case None => (t, false)
    case Some(i) => (t.(live := t.live[i := Some(LiveEntry(t.live[i].value.pid, None))]), true)
  }

  // ----- Runs -----

  /** The table with what has left it: consumed statuses, and for waits each
      registration and each time one was ended by a wake or a withdrawal. */
  datatype History = History(table: Exits, consumed: seq<ExitRecord>, registered: seq<nat>, ended: seq<nat>)

  datatype ExitOp =
    | Spawn
    | Exit(pid: nat, code: nat, kind: ExitKind)
    | WaitFor(pid: nat, thread: nat)
    | Cancel(thread: nat)

  function Step(h: History, op: ExitOp): History {
    match op
    case Spawn =>
      (match Reserve(h.table)
       case Err(_) => h
       case Ok(pid) => h.(table := CommitSpawn(h.table, pid).0))
    case Exit(pid, code, kind) =>
      var (t, waiter) := RecordExit(h.table, pid, code, kind);
      h.(table := t, ended := if waiter.Some? then h.ended + [waiter.value] else h.ended)
    case WaitFor(pid, thread) =>
      var (t, outcome) := Wait(h.table, pid, thread);
      (match outcome
       case Ready(record) => h.(table := t, consumed := h.consumed + [record])
       case Blocked => h.(table := t, registered := h.registered + [thread])
       case Invalid => h.(table := t))
    case Cancel(thread) =>
      var (t, found) := CancelWait(h.table, thread);
      h.(table := t, ended := if found then h.ended + [thread] else h.ended)
  }

  function ConsumedW(pid: nat): ExitRecord -> nat {
    (r: ExitRecord) => if r.pid == pid then 1 else 0
  }

  function IdW(w: nat): nat -> nat {
    (x: nat) => if x == w then 1 else 0
  }

  /** How many of the three places hold process `pid`. */
  function Places(h: History, pid: nat): nat {
    Total(LiveW(pid), h.table.live) + Total(RecordW(pid), h.table.records) + Total(ConsumedW(pid), h.consumed)
  }

  /** Every committed id is in exactly one place and no other id is anywhere; there
      is always a record to spare for each live process; and each registration is
      still standing or has ended once. */
  ghost predicate Inv(h: History) {
    && |h.table.live| == MAX_LIVE && |h.table.records| == MAX_EXIT_RECORDS
    && FIRST_ISOLATED_PROCESS_ID <= h.table.next <= U32_MAX
    && FreeRecords(h.table) >= LiveCount(h.table)
    && (forall pid: nat :: Places(h, pid) == if FIRST_ISOLATED_PROCESS_ID <= pid < h.table.next then 1 else 0)
    && (forall w: nat :: Total(WaiterW(w), h.table.live) <= 1)
    && (forall w: nat :: Total(IdW(w), h.registered) == Total(WaiterW(w), h.table.live) + Total(IdW(w), h.ended))
  }

  lemma EmptyInv()
    ensures Inv(History(Empty(), [], [], []))
  {
    var t := Empty();
    forall pid: nat
      ensures Places(History(t, [], [], []), pid) == 0
    {
      TotalZero(LiveW(pid), t.live);
      TotalZero(RecordW(pid), t.records);
    }
    forall w: nat
      ensures Total(WaiterW(w), t.live) == 0
    {
      TotalZero(WaiterW(w), t.live);
    }
    TotalZero(OccupiedW<LiveEntry>(), t.live);
  }

  lemma Appended<T>(w: T -> nat, s: seq<T>, x: T)
    ensures Total(w, s + [x]) == Total(w, s) + w(x)
  {
    TotalAppend(w, s, [x]);
    assert [x][1..] == [];
  }

  /** Only a change of live entry `i` matters to every live count. */
  lemma LiveChange(live: seq<Option<LiveEntry>>, i: nat, e: Option<LiveEntry>)
    requires i < |live|
    ensures forall pid: nat :: Total(LiveW(pid), live[i := e]) == Total(LiveW(pid), live) - LiveW(pid)(live[i]) + LiveW(pid)(e)
    ensures forall w: nat :: Total(WaiterW(w), live[i := e]) == Total(WaiterW(w), live) - WaiterW(w)(live[i]) + WaiterW(w)(e)
    ensures forall w: nat :: WaiterW(w)(live[i]) <= Total(WaiterW(w), live)
    ensures Total(OccupiedW<LiveEntry>(), live[i := e]) == Total(OccupiedW<LiveEntry>(), live) - OccupiedW<LiveEntry>()(live[i]) + OccupiedW<LiveEntry>()(e)
    ensures OccupiedW<LiveEntry>()(live[i]) <= Total(OccupiedW<LiveEntry>(), live)
  {
    forall pid: nat
      ensures Total(LiveW(pid), live[i := e]) == Total(LiveW(pid), live) - LiveW(pid)(live[i]) + LiveW(pid)(e)
      ensures Total(WaiterW(pid), live[i := e]) == Total(WaiterW(pid), live) - WaiterW(pid)(live[i]) + WaiterW(pid)(e)
      ensures WaiterW(pid)(live[i]) <= Total(WaiterW(pid), live)
    {
      TotalUpdate(LiveW(pid), live, i, e);
      TotalUpdate(WaiterW(pid), live, i, e);
    }
    TotalUpdate(OccupiedW<LiveEntry>(), live, i, e);
  }

  lemma RecordChange(records: seq<Option<ExitRecord>>, k: nat, e: Option<ExitRecord>)
    requires k < |records|
    ensures forall pid: nat :: Total(RecordW(pid), records[k := e]) == Total(RecordW(pid), records) - RecordW(pid)(records[k]) + RecordW(pid)(e)
    ensures Total(VacantW<ExitRecord>(), records[k := e]) == Total(VacantW<ExitRecord>(), records) - VacantW<ExitRecord>()(records[k]) + VacantW<ExitRecord>()(e)
  {
    forall pid: nat
      ensures Total(RecordW(pid), records[k := e]) == Total(RecordW(pid), records) - RecordW(pid)(records[k]) + RecordW(pid)(e)
    {
      TotalUpdate(RecordW(pid), records, k, e);
    }
    TotalUpdate(VacantW<ExitRecord>(), records, k, e);
  }

  /** A reserved spawn always commits. */
  lemma ReservedCommits(t: Exits)
    requires |t.live| == MAX_LIVE && Reserve(t).Ok?
    ensures CommitSpawn(t, t.next).1
  {
    if FirstNone(t.live).None? {
      AllOccupied(t.live);
    }
  }

  lemma {:induction false} AllOccupied<T>(s: seq<Option<T>>)
    requires forall k :: 0 <= k < |s| ==> s[k].Some?
    ensures Total(OccupiedW<T>(), s) == |s|
  {
    if s != [] {
      AllOccupied(s[1..]);
    }
  }

  lemma SpawnInv(h: History)
    requires Inv(h)
    ensures Inv(Step(h, Spawn))
  {
    hide Total;
    if Reserve(h.table).Ok? {
      ReservedCommits(h.table);
      var i := FirstNone(h.table.live).value;
      LiveChange(h.table.live, i, Some(LiveEntry(h.table.next, None)));
      var h' := Step(h, Spawn);
      assert LiveCount(h'.table) == LiveCount(h.table) + 1;
      assert forall id: nat :: Places(h', id) == Places(h, id) + IdW(h.table.next)(id);
    }
  }

  /** No exit status is dropped: the record is there, whoever exits. */
  lemma ExitKeepsStatus(h: History, pid: nat, code: nat, kind: ExitKind)
    requires Inv(h)
    ensures Inv(Step(h, Exit(pid, code, kind)))
    ensures IsLive(h.table, pid) ==> Some(ExitRecord(pid, code, kind)) in Step(h, Exit(pid, code, kind)).table.records
    ensures !IsLive(h.table, pid) ==> Step(h, Exit(pid, code, kind)) == h
  {
    hide Total;
    if IsLive(h.table, pid) {
      var i := FirstWhere(LiveW(pid), h.table.live).value;
      LiveChange(h.table.live, i, None);
      var h' := Step(h, Exit(pid, code, kind));
      assert LiveCount(h'.table) == LiveCount(h.table) - 1;
      TotalPositive(VacantW<ExitRecord>(), h.table.records);
      var k := FirstNone(h.table.records).value;
      var record := Some(ExitRecord(pid, code, kind));
      RecordChange(h.table.records, k, record);
      assert forall id: nat :: Places(h', id) == Places(h, id);
      assert h.table.records[k := record][k] == record;
      var waiter := h.table.live[i].value.waiter;
      if waiter.Some? {
        forall w: nat
          ensures Total(IdW(w), h.ended + [waiter.value]) == Total(IdW(w), h.ended) + IdW(w)(waiter.value)
        {
          Appended(IdW(w), h.ended, waiter.value);
        }
      }
    }
  }

  lemma WaitInv(h: History, pid: nat, thread: nat)
    requires Inv(h)
    ensures Inv(Step(h, WaitFor(pid, thread)))
  {
    hide Total;
    var (t, outcome) := Wait(h.table, pid, thread);
    match outcome
    case Invalid =>
    case Ready(record) =>
      var k := FirstWhere(RecordW(pid), h.table.records).value;
      RecordChange(h.table.records, k, None);
      forall id: nat
        ensures Total(ConsumedW(id), h.consumed + [record]) == Total(ConsumedW(id), h.consumed) + ConsumedW(id)(record)
      {
        Appended(ConsumedW(id), h.consumed, record);
      }
      var h' := Step(h, WaitFor(pid, thread));
      assert forall id: nat :: Places(h', id) == Places(h, id);
    case Blocked =>
      var i := FirstWhere(LiveW(pid), h.table.live).value;
      LiveChange(h.table.live, i, Some(LiveEntry(pid, Some(thread))));
      assert LiveCount(t) == LiveCount(h.table);
      var h' := Step(h, WaitFor(pid, thread));
      assert forall id: nat :: Places(h', id) == Places(h, id);
      TotalPositive(WaiterW(thread), h.table.live);
      forall w: nat
        ensures Total(IdW(w), h.registered + [thread]) == Total(IdW(w), h.registered) + IdW(w)(thread)
      {
        Appended(IdW(w), h.registered, thread);
      }
  }

  lemma CancelInv(h: History, thread: nat)
    requires Inv(h)
    ensures Inv(Step(h, Cancel(thread)))
  {
    hide Total;
    if CancelWait(h.table, thread).1 {
      var i := FirstWhere(WaiterW(thread), h.table.live).value;
      LiveChange(h.table.live, i, Some(LiveEntry(h.table.live[i].value.pid, None)));
      var h' := Step(h, Cancel(thread));
      assert LiveCount(h'.table) == LiveCount(h.table);
      assert forall id: nat :: Places(h', id) == Places(h, id);
      forall w: nat
        ensures Total(IdW(w), h.ended + [thread]) == Total(IdW(w), h.ended) + IdW(w)(thread)
      {
        Appended(IdW(w), h.ended, thread);
      }
    }
  }

  function Run(h: History, ops: seq<ExitOp>): History
    decreases |ops|
  {
    if ops == [] then h else Run(Step(h, ops[0]), ops[1..])
  }

  lemma {:induction false} RunInv(h: History, ops: seq<ExitOp>)
    requires Inv(h)
    ensures Inv(Run(h, ops)) && Run(h, ops).table.next >= h.table.next
    decreases |ops|
  {
    hide Inv;
    hide CommitSpawn;
    hide Wait;
    hide RecordExit;
    hide CancelWait;
    if ops != [] {
      match ops[0] {
        case Spawn => SpawnInv(h);
        case Exit(pid, code, kind) => ExitKeepsStatus(h, pid, code, kind);
        case WaitFor(pid, thread) => WaitInv(h, pid, thread);
        case Cancel(thread) => CancelInv(h, thread);
      }
      NextGrows(h, ops[0]);
      RunInv(Step(h, ops[0]), ops[1..]);
    }
  }

  /** Ids only go up, and a spawn takes the next one. */
  lemma NextGrows(h: History, op: ExitOp)
    ensures Step(h, op).table.next >= h.table.next
    ensures Step(h, op).table.next > h.table.next ==> op == Spawn && Reserve(h.table) == Ok(h.table.next) && Step(h, op).table.next == h.table.next + 1
  {
  }

  /** In every run each committed process is in exactly one of live, recorded and
      consumed, no status is consumed twice, and no wait is ended twice. */
  lemma EveryRun(ops: seq<ExitOp>)
    ensures var h := Run(History(Empty(), [], [], []), ops);
            && (forall pid: nat :: FIRST_ISOLATED_PROCESS_ID <= pid < h.table.next ==> Places(h, pid) == 1)
            && (forall pid: nat :: !(FIRST_ISOLATED_PROCESS_ID <= pid < h.table.next) ==> Places(h, pid) == 0)
            && FreeRecords(h.table) >= LiveCount(h.table)
            && (forall w: nat :: Total(IdW(w), h.ended) <= Total(IdW(w), h.registered) <= Total(IdW(w), h.ended) + 1)
  {
    EmptyInv();
    RunInv(History(Empty(), [], [], []), ops);
  }

  /** The table as the kernel keeps it. */
  class ExitTable {
    var next: nat
    var live: seq<Option<LiveEntry>>
    var records: seq<Option<ExitRecord>>

    function View(): Exits
      reads this
    {
      Exits(next, live, records)
    }

    constructor ()
      ensures View() == Empty()
    {
      next := FIRST_ISOLATED_PROCESS_ID;
      live := seq(MAX_LIVE, _ => None);
      records := seq(MAX_EXIT_RECORDS, _ => None);
    }

    /** Count the live processes and the free records; refuse unless every live process
        and the new one would have a record to leave its status in. */
    method ReserveId() returns (r: Result<nat, ExitError>)
      ensures r == Reserve(View())
      ensures r.Ok? ==> FreeRecords(View()) > LiveCount(View())
    {
      var running := 0;
      for i := 0 to |live|
        invariant running + Total(OccupiedW<LiveEntry>(), live[i..]) == LiveCount(View())
      {
        assert live[i..][1..] == live[i + 1..];
        if live[i].Some? {
          running := running + 1;
        }
      }
      if running == MAX_LIVE {
        return Err(AlreadyLive);
      }
      var free := 0;
      for i := 0 to |records|
        invariant free + Total(VacantW<ExitRecord>(), records[i..]) == FreeRecords(View())
      {
        assert records[i..][1..] == records[i + 1..];
        if records[i].None? {
          free := free + 1;
        }
      }
      if free < running + 1 {
        return Err(RecordsFull);
      }
      r := if next == U32_MAX then Err(IdsExhausted) else Ok(next);
    }

    method Commit(pid: nat) returns (ok: bool)
      modifies this
      ensures (View(), ok) == CommitSpawn(old(View()), pid)
      ensures ok ==> IsLive(View(), pid) && next == pid + 1
    {
      var reserved := ReserveId();
      if pid != next || reserved != Ok(pid) {
        return false;
      }
      var i := 0;
      while i < |live| && live[i].Some?
        invariant 0 <= i <= |live|
        invariant forall k :: 0 <= k < i ==> live[k].Some?
      {
        i := i + 1;
      }
      if i == |live| {
        return false;
      }
      live := live[i := Some(LiveEntry(pid, None))];
      next := next + 1;
      ok := true;
      assert LiveW(pid)(live[i]) > 0;
    }

    /** Where `pid` runs, if it does. */
    method FindLive(pid: nat) returns (found: Option<nat>)
      ensures found == FirstWhere(LiveW(pid), live)
    {
      var i := 0;
      while i < |live|
        invariant 0 <= i <= |live|
        invariant forall k :: 0 <= k < i ==> LiveW(pid)(live[k]) == 0
      {
        if live[i].Some? && live[i].value.pid == pid {
          FirstIs(LiveW(pid), live, i);
          return Some(i);
        }
        i := i + 1;
      }
      found := None;
    }

    /** Take the process off the live table and keep its status in the first free record. */
    method Record(pid: nat, code: nat, kind: ExitKind) returns (waiter: Option<nat>)
      modifies this
      ensures (View(), waiter) == RecordExit(old(View()), pid, code, kind)
      ensures waiter.Some? ==> exists i :: 0 <= i < |old(live)| && old(live)[i] == Some(LiveEntry(pid, waiter)) && live == old(live)[i := None]
    {
      var found := FindLive(pid);
      if found.None? {
        return None;
      }
      waiter := live[found.value].value.waiter;
      live := live[found.value := None];
      var k := 0;
      while k < |records| && records[k].Some?
        invariant 0 <= k <= |records|
        invariant forall j :: 0 <= j < k ==> records[j].Some?
      {
        k := k + 1;
      }
      if k < |records| {
        records := records[k := Some(ExitRecord(pid, code, kind))];
      }
    }

    /** Collect the status of an ended process, or wait for a live one that nobody waits for. */
    method WaitOn(pid: nat, thread: nat) returns (outcome: WaitOutcome)
      modifies this
      ensures (View(), outcome) == Wait(old(View()), pid, thread)
      ensures outcome.Ready? ==> outcome.record.pid == pid && Some(outcome.record) in old(records)
    {
      var k := 0;
      while k < |records|
        invariant 0 <= k <= |records|
        invariant View() == old(View())
        invariant forall j :: 0 <= j < k ==> RecordW(pid)(records[j]) == 0
      {
        if records[k].Some? && records[k].value.pid == pid {
          FirstIs(RecordW(pid), records, k);
          outcome := Ready(records[k].value);
          records := records[k := None];
          return;
        }
        k := k + 1;
      }
      var i := 0;
      while i < |live|
        invariant 0 <= i <= |live|
        invariant View() == old(View())
        invariant forall j :: 0 <= j < i ==> WaiterW(thread)(live[j]) == 0
      {
        if live[i].Some? && live[i].value.waiter == Some(thread) {
          FirstIs(WaiterW(thread), live, i);
          return Invalid;
        }
        i := i + 1;
      }
      var found := FindLive(pid);
      if found.None? || live[found.value].value.waiter.Some? {
        return Invalid;
      }
      live := live[found.value := Some(LiveEntry(pid, Some(thread)))];
      outcome := Blocked;
    }

    /** Withdraw the first registration of `thread`. */
    method Withdraw(thread: nat) returns (found: bool)
      modifies this
      ensures (View(), found) == CancelWait(old(View()), thread)
    {
      var i := 0;
      while i < |live|
        invariant 0 <= i <= |live| && View() == old(View())
        invariant FirstWhere(WaiterW(thread), live[i..]).None? <==> FirstWhere(WaiterW(thread), live).None?
        invariant forall k :: 0 <= k < i ==> WaiterW(thread)(live[k]) == 0
      {
        if live[i].Some? && live[i].value.waiter == Some(thread) {
          FirstIs(WaiterW(thread), live, i);
          live := live[i := Some(LiveEntry(live[i].value.pid, None))];
          return true;
        }
        assert live[i..][1..] == live[i + 1..];
        i := i + 1;
      }
      found := false;
    }
  }

  lemma {:induction false} FirstIs<T>(w: T -> nat, s: seq<T>, i: nat)
    requires i < |s| && w(s[i]) > 0 && forall k :: 0 <= k < i ==> w(s[k]) == 0
    ensures FirstWhere(w, s) == Some(i)
  {
    if i > 0 {
      FirstIs(w, s[1..], i - 1);
    }
  }
}
