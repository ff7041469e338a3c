/** Ring-buffer queues and Channel pairs in place. */
module Channels {
  import opened Prelude
  import opened Counts
  import opened Objects
  import opened Handles
  import opened Waits
  import opened IpcModel
  import opened IpcLedger
  import IpcCollect

  /** How far slot `n` is from the head, going round. */
  function Rank(head: nat, n: nat): nat
    requires head < MAX_QUEUE && n < MAX_QUEUE
  {
    if n >= head then n - head else n + MAX_QUEUE - head
  }

  /** The slot `length` places after the head, and no other, has that rank. */
  lemma RankOfTail(head: nat, length: nat)
    requires head < MAX_QUEUE && length < MAX_QUEUE
    ensures forall n :: 0 <= n < MAX_QUEUE ==> (Rank(head, n) == length <==> n == (head + length) % MAX_QUEUE)
  {
  }

  /** The slots of a ring hold the sequence, starting at the head. */
  predicate Ring(slots: seq<Option<Message>>, head: nat, contents: seq<Message>) {
    && |slots| == MAX_QUEUE && head < MAX_QUEUE && |contents| <= MAX_QUEUE
    && forall n :: 0 <= n < MAX_QUEUE ==> slots[n] == if Rank(head, n) < |contents| then Some(contents[Rank(head, n)]) else None
  }

  lemma RingMembers(slots: seq<Option<Message>>, head: nat, contents: seq<Message>)
    requires Ring(slots, head, contents)
    ensures forall m :: m in contents <==> Some(m) in slots
  {
    forall m | m in contents
      ensures Some(m) in slots
    {
      var k :| 0 <= k < |contents| && contents[k] == m;
      var n := (head + k) % MAX_QUEUE;
      assert Rank(head, n) == k && slots[n] == Some(m);
    }
  }

  /** A bounded ring buffer; `contents` is the FIFO sequence it represents. */
  class Queue {
    const entries: array<Option<Message>>
    var head: nat
    var tail: nat
    var length: nat
    ghost var contents: seq<Message>

    ghost predicate Valid()
      reads this, entries
    {
      && entries.Length == MAX_QUEUE && head < MAX_QUEUE && length == |contents| <= MAX_QUEUE
      && tail == (head + length) % MAX_QUEUE
      && (forall n :: 0 <= n < MAX_QUEUE ==>
            entries[n] == if Rank(head, n) < length then Some(contents[Rank(head, n)]) else None)
    }

    constructor ()
      ensures Valid() && contents == [] && fresh(entries)
    {
      entries := new Option<Message>[MAX_QUEUE](_ => None);
      head, tail, length := 0, 0, 0;
      contents := [];
    }

    method Push(m: Message) returns (r: Result<(), ChannelError>)
      requires Valid()
      modifies this, entries
      ensures Valid()
      ensures r.Err? <==> |old(contents)| == MAX_QUEUE
      ensures r.Err? ==> r.error == QueueFull && contents == old(contents)
      ensures r.Ok? ==> contents == old(contents) + [m]
    {
      if length == MAX_QUEUE {
        return Err(QueueFull);
      }
      RankOfTail(head, length);
      entries[tail] := Some(m);
      tail := (tail + 1) % MAX_QUEUE;
      length := length + 1;
      contents := contents + [m];
      r := Ok(());
    }

    method Peek() returns (r: Option<Message>)
      requires Valid()
      ensures r == if contents == [] then None else Some(contents[0])
    {
      r := entries[head];
    }

    method Pop() returns (r: Option<Message>)
      requires Valid()
      modifies this, entries
      ensures Valid()
      ensures old(contents) == [] ==> r.None? && contents == []
      ensures old(contents) != [] ==> r == Some(old(contents)[0]) && contents == old(contents)[1..]
    {
      r := entries[head];
      if r.None? {
        return;
      }
      entries[head] := None;
      head := (head + 1) % MAX_QUEUE;
      length := length - 1;
      contents := contents[1..];
    }

    /** Every object in escrow, in the order of the ring's slots. */
    method Visit() returns (objects: seq<ObjectId>)
      requires Valid()
      ensures forall o :: o in objects <==> o in QueueObjects(contents)
    {
      RingMembers(entries[..], head, contents);
      objects := [];
      for n := 0 to MAX_QUEUE
        invariant forall o :: o in objects <==> InSlots(entries[..n], o)
      {
        assert entries[..n + 1] == entries[..n] + [entries[n]];
        if entries[n].Some? {
          var found := TokenTargets(entries[n].value.tokens);
          objects := objects + found;
        }
      }
      assert entries[..MAX_QUEUE] == entries[..];
      SlotsCarry(entries[..], contents);
    }

    /** Does any queued message carry `o`? */
    method Carries(o: ObjectId) returns (found: bool)
      requires Valid()
      ensures found <==> Total(MessageRefs(o), contents) > 0
    {
      var objects := Visit();
      IpcCollect.QueueObjectsRefs(contents, o);
      found := false;
      for i := 0 to |objects|
        invariant found <==> o in objects[..i]
      {
        found := found || objects[i] == o;
      }
      assert objects[..|objects|] == objects;
    }
  }

  predicate InSlots(slots: seq<Option<Message>>, o: ObjectId) {
    exists k :: 0 <= k < |slots| && slots[k].Some? && o in TokenObjects(slots[k].value.tokens)
  }

  lemma SlotsCarry(slots: seq<Option<Message>>, contents: seq<Message>)
    requires forall m :: m in contents <==> Some(m) in slots
    ensures forall o :: InSlots(slots, o) <==> o in QueueObjects(contents)
  {
    forall o
      ensures InSlots(slots, o) <==> o in QueueObjects(contents)
    {
      QueueCarries(contents, o);
      if InSlots(slots, o) {
        var k :| 0 <= k < |slots| && slots[k].Some? && o in TokenObjects(slots[k].value.tokens);
        assert slots[k].value in contents;
      }
      if k :| 0 <= k < |contents| && o in TokenObjects(contents[k].tokens) {
        assert contents[k] in contents;
        var n :| 0 <= n < |slots| && slots[n] == Some(contents[k]);
        assert slots[n].value == contents[k];
      }
    }
  }

  method TokenTargets(tokens: seq<Capability>) returns (objects: seq<ObjectId>)
    ensures objects == TokenObjects(tokens)
  {
    objects := [];
    for i := 0 to |tokens|
      invariant objects + TokenObjects(tokens[i..]) == TokenObjects(tokens)
    {
      assert tokens[i..][1..] == tokens[i + 1..];
      objects := objects + [tokens[i].target];
    }
    assert objects + [] == objects;
  }

  /** A queue carries what its messages carry. */
  lemma {:induction false} QueueCarries(q: seq<Message>, o: ObjectId)
    ensures o in QueueObjects(q) <==> exists k :: 0 <= k < |q| && o in TokenObjects(q[k].tokens)
  {
    if q != [] {
      QueueCarries(q[1..], o);
      assert forall k :: 0 < k < |q| ==> q[k] == q[1..][k - 1];
    }
  }

  /** A Channel: two endpoints and a ring in each direction. */
  class ChannelPair {
    const id: ObjectId
    const a: ObjectId
    const b: ObjectId
    const toB: Queue
    const toA: Queue

    ghost function Repr(): set<object> {
      {toB, toB.entries, toA, toA.entries}
    }

    ghost predicate Valid()
      reads toB, toB.entries, toA, toA.entries
    {
      toB != toA && toB.entries != toA.entries && toB.Valid() && toA.Valid()
    }

    ghost function Value(): Chan
      reads toB, toA
    {
      Chan(id, a, b, toB.contents, toA.contents)
    }

    constructor (id: ObjectId, a: ObjectId, b: ObjectId)
      ensures Valid() && fresh(Repr()) && Value() == Chan(id, a, b, [], [])
    {
      this.id, this.a, this.b := id, a, b;
      toB := new Queue();
      toA := new Queue();
    }

    /** What the collector visits: the escrow of both directions. */
    method VisitEscrow() returns (objects: seq<ObjectId>)
      requires Valid()
      ensures forall o :: o in objects <==> o in QueueObjects(Value().toB) + QueueObjects(Value().toA)
    {
      var first := toB.Visit();
      var second := toA.Visit();
      objects := first + second;
    }

    method CarriesObject(o: ObjectId) returns (found: bool)
      requires Valid()
      ensures found <==> Escrow(Value(), o) > 0
    {
      var first := toB.Carries(o);
      var second := toA.Carries(o);
      found := first || second;
    }

    /** Is there a message for this endpoint? */
    method HasMessage(e: ObjectId) returns (found: bool)
      requires Valid()
      ensures found <==> Inbound(Value(), e) != []
    {
      found := (if e == a then toA else toB).length != 0;
    }

    /** Release every escrowed reference, oldest first, `a`'s messages before `b`'s. */
    method Drain(registry: ObjectRegistry) returns (ok: bool)
      requires Valid()
      modifies toB, toB.entries, toA, toA.entries, registry
      ensures Valid() && Value() == Chan(id, a, b, [], [])
      ensures registry.slots == ReleaseAll(old(registry.slots), QueueObjects(old(toB.contents)) + QueueObjects(old(toA.contents)))
      ensures ok <==> AllReleased(old(registry.slots), QueueObjects(old(toB.contents)) + QueueObjects(old(toA.contents)))
    {
      ghost var first, second := QueueObjects(toB.contents), QueueObjects(toA.contents);
      var ok1 := DrainQueue(toB, registry);
      var ok2 := DrainQueue(toA, registry);
      ReleaseAllAppend(old(registry.slots), first, second);
      ok := ok1 && ok2;
    }

    /** Queue a message after a full preflight, then notify the peer's readers. A
        refused send changes nothing. */
    method Send(registry: ObjectRegistry, handles: HandleTable, sender: nat, endpoint: Handle, r: SendRequest, waiters: WaitRegistry)
      returns (res: Result<ObjectId, ChannelError>)
      requires Valid() && waiters.Valid() && WellFormed(r) && TableWf(handles.slots) && a != b
      modifies handles, toB, toB.entries, toA, toA.entries, waiters
      ensures Valid() && waiters.Valid()
      ensures res == SendCheck(old(handles.slots), registry.slots, old(Value()), endpoint, Dispositions(r))
      ensures res.Err? ==> handles.slots == old(handles.slots) && Value() == old(Value()) && WaitsUntouched(waiters)
      ensures res.Ok? ==>
                var (t, tokens) := MoveAll(old(handles.slots), registry.slots, Dispositions(r));
                && handles.slots == t
                && Value() == Enqueued(old(Value()), res.value, Message(sender, r.header, r.payload[..r.payloadLen], tokens))
                && Notified(waiters, Peer(old(Value()), res.value))
    {
      hide CheckAll;
      hide MoveAll;
      hide Require;
      hide Occupied;
      var required := Require(handles.slots, registry.slots, endpoint, ChannelEndpoint, {Write});
      if required.Err? {
        return Err(FromHandleError(required.error));
      }
      var e := required.value;
      if e != a && e != b {
        return Err(ChInvalidEndpoint);
      }
      var queue := if e == a then toB else toA;
      if queue.length == MAX_QUEUE {
        return Err(QueueFull);
      }
      var ds := Dispositions(r);
      var checked := Preflight(registry, handles, ds);
      if checked.Err? {
        return Err(if checked.error.None? then DuplicateTransfer else FromHandleError(checked.error.value));
      }
      var tokens := TakeAll(registry, handles, ds);
      var pushed := queue.Push(Message(sender, r.header, r.payload[..r.payloadLen], tokens));
      var _ := waiters.Notify(if e == a then b else a, {Readable});
      res := Ok(e);
    }

    /** Send, then take the waiters it woke off an otherwise empty wake queue. */
    method SendAndWake(registry: ObjectRegistry, handles: HandleTable, sender: nat, endpoint: Handle, r: SendRequest, waiters: WaitRegistry)
      returns (res: Result<ObjectId, ChannelError>, woken: set<nat>)
      requires Valid() && waiters.Valid() && WellFormed(r) && TableWf(handles.slots) && a != b
      requires forall k :: 0 <= k < |waiters.wakeups| ==> waiters.wakeups[k].None?
      modifies handles, toB, toB.entries, toA, toA.entries, waiters
      ensures Valid() && waiters.Valid() && forall k :: 0 <= k < |waiters.wakeups| ==> waiters.wakeups[k].None?
      ensures res == SendCheck(old(handles.slots), registry.slots, old(Value()), endpoint, Dispositions(r))
      ensures res.Err? ==> handles.slots == old(handles.slots) && Value() == old(Value()) && waiters.registrations == old(waiters.registrations)
      ensures res.Ok? ==>
                var (t, tokens) := MoveAll(old(handles.slots), registry.slots, Dispositions(r));
                && handles.slots == t
                && Value() == Enqueued(old(Value()), res.value, Message(sender, r.header, r.payload[..r.payloadLen], tokens))
                && waiters.registrations == Unwaited(old(waiters.registrations), Peer(old(Value()), res.value))
                && woken == WokenBy(old(waiters.registrations), Peer(old(Value()), res.value))
    {
      hide SendCheck;
      hide MoveAll;
      hide Occupied;
      hide Unwaited;
      hide WokenBy;
      woken := {};
      res := Send(registry, handles, sender, endpoint, r, waiters);
      if res.Ok? {
        ghost var o := Peer(old(Value()), res.value);
        var ids := waiters.TakeWoken();
        woken := set w | w in ids;
        assert forall w :: w in woken <==> w in WokenBy(old(waiters.registrations), o);
      }
    }

    /** Deliver the head message: capacity and validity are checked first, so every
        install succeeds and nothing is ever rolled back. */
    method Receive(registry: ObjectRegistry, handles: HandleTable, endpoint: Handle)
      returns (res: Result<Option<Received>, ChannelError>)
      requires Valid() && TableWf(handles.slots) && a != b
      modifies handles, toB, toB.entries, toA, toA.entries
      ensures Valid()
      ensures (handles.slots, Value(), res) == PairReceive(old(handles.slots), registry.slots, old(Value()), endpoint)
    {
      hide Require;
      hide InstallAll;
      hide FreeCount;
      hide FirstInvalid;
      var required := Require(handles.slots, registry.slots, endpoint, ChannelEndpoint, {Read});
      if required.Err? {
        return Err(FromHandleError(required.error));
      }
      var e := required.value;
      if e != a && e != b {
        return Err(ChInvalidEndpoint);
      }
      var queue := if e == a then toA else toB;
      var queued := queue.Peek();
      if queued.None? {
        return Ok(None);
      }
      var m := queued.value;
      var room := handles.HasCapacity(|m.tokens|);
      if !room {
        return Err(ChReceiverFull);
      }
      var invalid := FirstInvalid(registry.slots, m.tokens);
      if invalid.Some? {
        return Err(FromHandleError(invalid.value));
      }
      var installed := InstallTokens(registry, handles, m.tokens);
      var _ := queue.Pop();
      res := Ok(Some(Received(m.sender, m.header, m.payload, installed)));
    }
  }

  function PairReceive(t: Table, reg: Slots, c: Chan, endpoint: Handle): (Table, Chan, Result<Option<Received>, ChannelError>) {
    match Require(t, reg, endpoint, ChannelEndpoint, {Read})
    case Err(error) => (t, c, Err(FromHandleError(error)))
    case Ok(e) =>
      if e != c.a && e != c.b then (t, c, Err(ChInvalidEndpoint))
      else if Inbound(c, e) == [] then (t, c, Ok(None))
      else
        var m := Inbound(c, e)[0];
        if FreeCount(t) < |m.tokens| then (t, c, Err(ChReceiverFull))
        else if FirstInvalid(reg, m.tokens).Some? then (t, c, Err(FromHandleError(FirstInvalid(reg, m.tokens).value)))
        else
          var (t', handles) := InstallAll(t, m.tokens);
          (t', Dequeued(c, e), Ok(Some(Received(m.sender, m.header, m.payload, handles))))
  }

  method InstallTokens(registry: ObjectRegistry, handles: HandleTable, tokens: seq<Capability>) returns (installed: seq<Handle>)
    requires FreeCount(handles.slots) >= |tokens| && FirstInvalid(registry.slots, tokens).None?
    modifies handles
    ensures (handles.slots, installed) == InstallAll(old(handles.slots), tokens)
  {
    hide Install;
    installed := [];
    var i := 0;
    while i < |tokens|
      invariant 0 <= i <= |tokens|
      invariant FreeCount(handles.slots) >= |tokens| - i
      invariant InstallAll(handles.slots, tokens[i..]).0 == InstallAll(old(handles.slots), tokens).0
      invariant installed + InstallAll(handles.slots, tokens[i..]).1 == InstallAll(old(handles.slots), tokens).1
    {
      ghost var rest, before := tokens[i..], handles.slots;
      assert rest[0] == tokens[i] && rest[1..] == tokens[i + 1..];
      InstallRoom(handles.slots, tokens[i]);
      var h := handles.InstallMoved(registry, tokens[i]);
      assert InstallAll(before, rest).1 == [h.value] + InstallAll(handles.slots, rest[1..]).1;
      installed := installed + [h.value];
      i := i + 1;
    }
    assert tokens[i..] == [] && InstallAll(handles.slots, tokens[i..]) == (handles.slots, []);
    assert installed + [] == installed;
  }

  lemma InstallRoom(t: Table, c: Capability)
    requires FreeCount(t) > 0
    ensures Install(t, c).1.Ok? && FreeCount(Install(t, c).0) == FreeCount(t) - 1
  {
    FreeCountPositive(t);
    var (t1, h) := Install(t, c);
    FreeCountUpdate(t, h.value.slot, t1[h.value.slot]);
  }

  /** Why a send is refused, or the endpoint it goes out on. */
  function SendCheck(t: Table, reg: Slots, c: Chan, endpoint: Handle, ds: seq<Disposition>): Result<ObjectId, ChannelError> {
    match Require(t, reg, endpoint, ChannelEndpoint, {Write})
    case Err(error) => Err(FromHandleError(error))
    case Ok(e) =>
      if e != c.a && e != c.b then Err(ChInvalidEndpoint)
      else if |Outbound(c, e)| == MAX_QUEUE then Err(QueueFull)
      else match CheckAll(t, reg, ds, 0)
        case Err(None) => Err(DuplicateTransfer)
        case Err(Some(error)) => Err(FromHandleError(error))
        case Ok(_) => Ok(e)
  }

  twostate predicate WaitsUntouched(waiters: WaitRegistry)
    reads waiters
  {
    waiters.registrations == old(waiters.registrations) && waiters.wakeups == old(waiters.wakeups)
  }

  /** The wait registry after one READABLE notification on `o`. */
  twostate predicate Notified(waiters: WaitRegistry, o: ObjectId)
    reads waiters
  {
    && waiters.registrations == Unwaited(old(waiters.registrations), o)
    && |waiters.wakeups| == |old(waiters.wakeups)|
    && (forall k :: 0 <= k < |waiters.wakeups| && old(waiters.wakeups)[k].Some? ==> waiters.wakeups[k] == old(waiters.wakeups)[k])
    && (forall k :: 0 <= k < |waiters.wakeups| && old(waiters.wakeups)[k].None? && waiters.wakeups[k].Some? ==>
          waiters.wakeups[k].value.waiter in WokenBy(old(waiters.registrations), o))
    && (forall w :: w in WokenBy(old(waiters.registrations), o) ==>
          exists k :: 0 <= k < |waiters.wakeups| && waiters.wakeups[k].Some? && waiters.wakeups[k].value.waiter == w)
  }

  method Preflight(registry: ObjectRegistry, handles: HandleTable, ds: seq<Disposition>) returns (r: Result<(), Option<HandleError>>)
    ensures r == CheckAll(handles.slots, registry.slots, ds, 0)
  {
    var first := 0;
    while first < |ds|
      invariant 0 <= first <= |ds|
      invariant CheckAll(handles.slots, registry.slots, ds, first) == CheckAll(handles.slots, registry.slots, ds, 0)
    {
      var earlier := 0;
      while earlier < first
        invariant 0 <= earlier <= first
        invariant forall k :: 0 <= k < earlier ==> ds[k].source != ds[first].source
      {
        if ds[first].source == ds[earlier].source {
          return Err(None);
        }
        earlier := earlier + 1;
      }
      var movable := CheckMove(handles.slots, registry.slots, ds[first].source, ds[first].rights);
      if movable.Err? {
        return Err(Some(movable.error));
      }
      first := first + 1;
    }
    r := Ok(());
  }

  /** Move every checked transfer into escrow; none of the moves can fail. */
  method TakeAll(registry: ObjectRegistry, handles: HandleTable, ds: seq<Disposition>) returns (tokens: seq<Capability>)
    requires TableWf(handles.slots) && CheckAll(handles.slots, registry.slots, ds, 0).Ok?
    modifies handles
    ensures (handles.slots, tokens) == MoveAll(old(handles.slots), registry.slots, ds)
  {
    hide CheckMove;
    hide CheckAll;
    assert ds[..0] == [];
    CheckAllMovable(handles.slots, registry.slots, ds, 0);
    tokens := [];
    var i := 0;
    while i < |ds|
      invariant 0 <= i <= |ds|
      invariant Movable(handles.slots, registry.slots, ds[i..])
      invariant MoveAll(handles.slots, registry.slots, ds[i..]).0 == MoveAll(old(handles.slots), registry.slots, ds).0
      invariant tokens + MoveAll(handles.slots, registry.slots, ds[i..]).1 == MoveAll(old(handles.slots), registry.slots, ds).1
    {
      ghost var rest := ds[i..];
      assert rest[0] == ds[i] && rest[1..] == ds[i + 1..];
      MovableRest(handles.slots, registry.slots, rest);
      ghost var before := handles.slots;
      var moved := handles.MoveOut(registry, ds[i].source, ds[i].rights);
      assert MoveAll(before, registry.slots, rest).1 == [moved.value] + MoveAll(handles.slots, registry.slots, rest[1..]).1;
      tokens := tokens + [moved.value];
      i := i + 1;
    }
    assert ds[i..] == [] && MoveAll(handles.slots, registry.slots, ds[i..]) == (handles.slots, []);
    assert tokens + [] == tokens;
  }

  method ReleaseTokens(tokens: seq<Capability>, registry: ObjectRegistry) returns (ok: bool)
    modifies registry
    ensures registry.slots == ReleaseAll(old(registry.slots), TokenObjects(tokens))
    ensures ok <==> AllReleased(old(registry.slots), TokenObjects(tokens))
  {
    ok := true;
    var i := 0;
    while i < |tokens|
      invariant 0 <= i <= |tokens|
      invariant ReleaseAll(registry.slots, TokenObjects(tokens[i..])) == ReleaseAll(old(registry.slots), TokenObjects(tokens))
      invariant ok && AllReleased(registry.slots, TokenObjects(tokens[i..])) <==> AllReleased(old(registry.slots), TokenObjects(tokens))
    {
      assert tokens[i..][1..] == tokens[i + 1..];
      assert TokenObjects(tokens[i..]) == [tokens[i].target] + TokenObjects(tokens[i + 1..]);
      assert TokenObjects(tokens[i..])[1..] == TokenObjects(tokens[i + 1..]);
      var released := registry.ReleaseObject(tokens[i].target);
      if released.Err? {
        ok := false;
      }
      i := i + 1;
    }
  }

  method DrainQueue(queue: Queue, registry: ObjectRegistry) returns (ok: bool)
    requires queue.Valid()
    modifies queue, queue.entries, registry
    ensures queue.Valid() && queue.contents == []
    ensures registry.slots == ReleaseAll(old(registry.slots), QueueObjects(old(queue.contents)))
    ensures ok <==> AllReleased(old(registry.slots), QueueObjects(old(queue.contents)))
  {
    ok := true;
    var next := queue.Pop();
    ghost var rest := old(queue.contents);
    while next.Some?
      invariant queue.Valid()
      invariant next.Some? ==> rest != [] && next.value == rest[0] && queue.contents == rest[1..]
      invariant next.None? ==> rest == [] && queue.contents == []
      invariant ReleaseAll(registry.slots, QueueObjects(rest)) == ReleaseAll(old(registry.slots), QueueObjects(old(queue.contents)))
      invariant ok && AllReleased(registry.slots, QueueObjects(rest)) <==> AllReleased(old(registry.slots), QueueObjects(old(queue.contents)))
      decreases |rest|
    {
      ghost var reg := registry.slots;
      ReleaseAllAppend(reg, TokenObjects(rest[0].tokens), QueueObjects(rest[1..]));
      var released := ReleaseTokens(next.value.tokens, registry);
      ok := ok && released;
      rest := rest[1..];
      next := queue.Pop();
    }
  }

  // ----- The pair inside the manager -----

  /** The endpoint the pair resolves for itself is the one the manager located, so
      the manager's step is the pair's: the same refusal, or the same table, queue,
      registrations and woken waiters. */
  lemma SendAgrees(s: Ipc, i: nat, j: nat, e: ObjectId, endpoint: Handle, r: SendRequest)
    requires i < |s.procs| && s.procs[i].Some? && Locate(s, i, endpoint) == Ok((j, e)) && WellFormed(r)
    ensures var check := SendCheck(s.procs[i].value.table, s.reg, s.chans[j].value, endpoint, Dispositions(r));
            && (check.Err? ==> ChannelSend(s, i, j, e, endpoint, r) == (s, Err(ChannelFailure(check.error))))
            && (check.Ok? ==>
                  && check.value == e
                  && var c := s.chans[j].value;
                     var (t, tokens) := MoveAll(s.procs[i].value.table, s.reg, Dispositions(r));
                     var sent := Enqueued(c, e, Message(s.procs[i].value.id, r.header, r.payload[..r.payloadLen], tokens));
                     ChannelSend(s, i, j, e, endpoint, r)
                     == (PutChan(PutTable(s, i, t), j, Some(sent)).(regs := Unwaited(s.regs, Peer(c, e))), Ok(WokenBy(s.regs, Peer(c, e)))))
  {
    hide CheckAll;
    hide MoveAll;
    hide FindChan;
  }

  lemma ReceiveAgrees(s: Ipc, pid: nat, i: nat, j: nat, e: ObjectId, endpoint: Handle)
    requires Booted(s) == s && ProcIndex(s, pid) == Some(i) && Locate(s, i, endpoint) == Ok((j, e))
    ensures var (t, c, res) := PairReceive(s.procs[i].value.table, s.reg, s.chans[j].value, endpoint);
            Receive(s, pid, endpoint) == (PutChan(PutTable(s, i, t), j, Some(c)),
                                          if res.Err? then Err(ChannelFailure(res.error)) else Ok(res.value))
  {
    hide InstallAll;
    hide FirstInvalid;
    hide FreeCount;
    hide FindChan;
    hide Booted;
    hide FindProc;
    assert s.procs[i := Some(s.procs[i].value.(table := s.procs[i].value.table))] == s.procs;
    assert s.chans[j := Some(s.chans[j].value)] == s.chans;
  }
}
