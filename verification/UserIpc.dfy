/** The IPC manager in place: it owns an object registry, a handle table per process,
    a Channel pair per slot and a wait registry, and calls their methods. */
module UserIpc {
  import opened Prelude
  import opened Counts
  import opened Objects
  import opened Handles
  import opened Waits
  import opened IpcModel
  import opened IpcLedger
  import opened IpcSafety
  import opened IpcCollect
  import opened IpcMarks
  import opened Channels
  import O = IpcOutcomes

  class Process {
    const id: nat
    const space: ObjectId
    const handles: HandleTable

    constructor (id: nat, space: ObjectId)
      ensures this.id == id && this.space == space && fresh(handles) && handles.slots == EmptyTable()
    {
      this.id, this.space := id, space;
      handles := new HandleTable(HANDLE_CAPACITY);
    }
  }

  class UserIpcState {
    const registry: ObjectRegistry
    const waiters: WaitRegistry
    var processes: seq<Process?>
    var channels: seq<ChannelPair?>
    ghost var model: Ipc
    ghost var Repr: set<object>

    /** Slot `i` of the process table stands for `v`. */
    ghost predicate ProcAt(i: nat, v: Option<Proc>)
      reads this, Repr
    {
      i < |processes|
      && if processes[i] == null then v.None?
         else processes[i].handles in Repr && v == Some(Proc(processes[i].id, processes[i].space, processes[i].handles.slots))
    }

    /** Slot `j` of the Channel table stands for `v`. */
    ghost predicate ChanAt(j: nat, v: Option<Chan>)
      reads this, Repr
    {
      j < |channels|
      && if channels[j] == null then v.None?
         else channels[j].Repr() <= Repr && channels[j].Valid() && v == Some(channels[j].Value())
    }

    /** No two slots share a table or a ring. */
    ghost predicate Apart()
      reads this
    {
      && (forall i, k :: 0 <= i < k < |processes| && processes[i] != null && processes[k] != null ==> processes[i].handles != processes[k].handles)
      && (forall j, k :: 0 <= j < k < |channels| && channels[j] != null && channels[k] != null ==> channels[j].Repr() !! channels[k].Repr())
    }

    ghost predicate ProcsRep(ps: seq<Option<Proc>>)
      reads this, Repr
    {
      |processes| == |ps| && forall i: nat :: i < |ps| ==> ProcAt(i, ps[i])
    }

    ghost predicate ChansRep(cs: seq<Option<Chan>>)
      reads this, Repr
    {
      |channels| == |cs| && forall j: nat :: j < |cs| ==> ChanAt(j, cs[j])
    }

    /** The registrations, with no wake left queued between calls. */
    ghost predicate WaitsRep(regs: Registrations)
      reads waiters
    {
      waiters.Valid() && waiters.registrations == regs && forall k :: 0 <= k < |waiters.wakeups| ==> waiters.wakeups[k].None?
    }

    /** The parts stand for the state `s`. */
    ghost predicate Parts(s: Ipc)
      reads this, Repr
    {
      && this in Repr && registry in Repr && waiters in Repr && Apart()
      && registry.slots == s.reg && WaitsRep(s.regs) && ProcsRep(s.procs) && ChansRep(s.chans)
    }

    ghost predicate Valid()
      reads this, Repr
    {
      Inv(model) && Parts(model)
    }

    // ----- Start -----

    constructor ()
      ensures Valid() && fresh(Repr) && model == InitState()
    {
      registry := new ObjectRegistry(OBJECT_CAPACITY);
      waiters := new WaitRegistry();
      processes := seq(MAX_USER_PROCESSES, _ => null);
      channels := seq(CHANNEL_CAPACITY, _ => null);
      model := InitState();
      Repr := {this, registry, waiters};
      new;
      InitInv();
      hide Inv;
      hide Occupied;
    }

    // ----- One part at a time -----

    method CreateObject(kind: ObjectKind) returns (r: Result<ObjectId, HandleError>)
      requires Parts(model)
      modifies Repr
      ensures Parts(model) && Repr == old(Repr) && processes == old(processes) && channels == old(channels)
      ensures (model, r) == (old(model).(reg := Create(old(model).reg, kind).0), Create(old(model).reg, kind).1)
    {
      hide Create;
      r := registry.CreateObject(kind);
      model := model.(reg := registry.slots);
    }

    method ReleaseObject(o: ObjectId) returns (r: Result<(), HandleError>)
      requires Parts(model)
      modifies Repr
      ensures Parts(model) && Repr == old(Repr) && processes == old(processes) && channels == old(channels)
      ensures (model, r) == (old(model).(reg := Release(old(model).reg, o).0), Release(old(model).reg, o).1)
    {
      hide Release;
      r := registry.ReleaseObject(o);
      model := model.(reg := registry.slots);
    }

    /** A new process, with an empty table, in slot `i`. */
    method AddProcess(i: nat, id: nat, space: ObjectId)
      requires Parts(model) && i < |processes|
      modifies this
      ensures Parts(model) && fresh(Repr - old(Repr)) && channels == old(channels) && i < |processes| && processes[i] != null
      ensures |old(model).procs| > i && model == old(model).(procs := old(model).procs[i := Some(Proc(id, space, EmptyTable()))])
    {
      var p := new Process(id, space);
      processes := processes[i := p];
      Repr := Repr + {p.handles};
      model := model.(procs := model.procs[i := Some(Proc(id, space, EmptyTable()))]);
      forall k: nat | k < |processes|
        ensures ProcAt(k, model.procs[k])
      {
        assert old(ProcAt(k, model.procs[k]));
      }
      forall k: nat | k < |channels|
        ensures ChanAt(k, model.chans[k])
      {
        assert old(ChanAt(k, model.chans[k]));
      }
    }

    /** A new Channel in slot `j`. */
    method AddChannel(j: nat, id: ObjectId, a: ObjectId, b: ObjectId)
      requires Parts(model) && j < |channels|
      modifies this
      ensures Parts(model) && fresh(Repr - old(Repr)) && processes == old(processes)
      ensures |old(model).chans| > j && model == PutChan(old(model), j, Some(Chan(id, a, b, [], [])))
    {
      var c := new ChannelPair(id, a, b);
      channels := channels[j := c];
      Repr := Repr + c.Repr();
      model := PutChan(model, j, Some(Chan(id, a, b, [], [])));
      forall k: nat | k < |processes|
        ensures ProcAt(k, model.procs[k])
      {
        assert old(ProcAt(k, model.procs[k]));
      }
      forall k: nat | k < |channels|
        ensures ChanAt(k, model.chans[k])
      {
        assert old(ChanAt(k, model.chans[k]));
      }
    }

    method InsertObject(i: nat, o: ObjectId, rights: Rights) returns (r: Result<Handle, HandleError>)
      requires Parts(model) && i < |processes| && processes[i] != null
      modifies Repr
      ensures Parts(model) && Repr == old(Repr) && processes == old(processes) && channels == old(channels)
      ensures i < |old(model).procs| && old(model).procs[i].Some?
      ensures var (t, reg, r1) := Insert(old(model).procs[i].value.table, old(model).reg, o, rights);
              model == PutTable(old(model), i, t).(reg := reg) && r == r1
    {
      hide Insert;
      assert ProcAt(i, model.procs[i]);
      r := processes[i].handles.InsertObject(registry, o, rights);
      model := PutTable(model, i, processes[i].handles.slots).(reg := registry.slots);
      forall k: nat | k < |processes|
        ensures ProcAt(k, model.procs[k])
      {
        assert old(ProcAt(k, model.procs[k]));
      }
    }

    method CloseHandleAt(i: nat, h: Handle) returns (r: Result<(), HandleError>)
      requires Parts(model) && i < |processes| && processes[i] != null
      modifies Repr
      ensures Parts(model) && Repr == old(Repr) && processes == old(processes) && channels == old(channels)
      ensures i < |old(model).procs| && old(model).procs[i].Some?
      ensures var (t, reg, r1) := CloseHandle(old(model).procs[i].value.table, old(model).reg, h);
              model == PutTable(old(model), i, t).(reg := reg) && r == r1
    {
      hide CloseHandle;
      assert ProcAt(i, model.procs[i]);
      r := processes[i].handles.CloseOne(registry, h);
      model := PutTable(model, i, processes[i].handles.slots).(reg := registry.slots);
      forall k: nat | k < |processes|
        ensures ProcAt(k, model.procs[k])
      {
        assert old(ProcAt(k, model.procs[k]));
      }
    }

    method MoveFrom(i: nat, h: Handle, rights: Rights) returns (r: Result<Capability, HandleError>)
      requires Parts(model) && i < |processes| && processes[i] != null
      modifies Repr
      ensures Parts(model) && Repr == old(Repr) && processes == old(processes) && channels == old(channels)
      ensures i < |old(model).procs| && old(model).procs[i].Some?
      ensures var (t, r1) := BeginMove(old(model).procs[i].value.table, old(model).reg, h, rights);
              model == PutTable(old(model), i, t) && r == r1
    {
      hide BeginMove;
      hide TableRefs;
      hide Resolves;
      assert ProcAt(i, model.procs[i]);
      r := processes[i].handles.MoveOut(registry, h, rights);
      model := PutTable(model, i, processes[i].handles.slots);
      forall k: nat | k < |processes|
        ensures ProcAt(k, model.procs[k])
      {
        assert old(ProcAt(k, model.procs[k]));
      }
    }

    method InstallInto(i: nat, token: Capability) returns (r: Result<Handle, HandleError>)
      requires Parts(model) && i < |processes| && processes[i] != null
      modifies Repr
      ensures Parts(model) && Repr == old(Repr) && processes == old(processes) && channels == old(channels)
      ensures i < |old(model).procs| && old(model).procs[i].Some?
      ensures var (t, r1) := InstallToken(old(model).procs[i].value.table, old(model).reg, token);
              model == PutTable(old(model), i, t) && r == r1
    {
      hide InstallToken;
      assert ProcAt(i, model.procs[i]);
      r := processes[i].handles.InstallMoved(registry, token);
      model := PutTable(model, i, processes[i].handles.slots);
      forall k: nat | k < |processes|
        ensures ProcAt(k, model.procs[k])
      {
        assert old(ProcAt(k, model.procs[k]));
      }
    }

    /** Close every handle of slot `i`. */
    method CloseAll(i: nat)
      requires Parts(model) && i < |processes| && processes[i] != null
      modifies Repr
      ensures Parts(model) && Repr == old(Repr) && processes == old(processes) && channels == old(channels)
      ensures i < |old(model).procs| && old(model).procs[i].Some?
      ensures exists t :: model == PutTable(old(model), i, t).(reg := ReleaseAll(old(model).reg, TableObjects(old(model).procs[i].value.table)))
    {
      hide ReleaseAll;
      hide TableObjects;
      assert ProcAt(i, model.procs[i]);
      processes[i].handles.CloseEvery(registry);
      model := PutTable(model, i, processes[i].handles.slots).(reg := registry.slots);
      forall k: nat | k < |processes|
        ensures ProcAt(k, model.procs[k])
      {
        assert old(ProcAt(k, model.procs[k]));
      }
    }

    method EmptyProcess(i: nat)
      requires Parts(model) && i < |processes|
      modifies this
      ensures Parts(model) && Repr == old(Repr) && channels == old(channels)
      ensures i < |old(model).procs| && model == old(model).(procs := old(model).procs[i := None])
    {
      processes := processes[i := null];
      model := model.(procs := model.procs[i := None]);
      forall k: nat | k < |processes|
        ensures ProcAt(k, model.procs[k])
      {
        assert old(ProcAt(k, model.procs[k]));
      }
      forall k: nat | k < |channels|
        ensures ChanAt(k, model.chans[k])
      {
        assert old(ChanAt(k, model.chans[k]));
      }
    }

    /** Close every handle of slot `i`, release its address space and empty the slot. */
    method DropProcess(i: nat)
      requires Parts(model) && i < |processes| && processes[i] != null
      modifies Repr
      ensures Parts(model) && Repr == old(Repr) && channels == old(channels)
      ensures i < |old(model).procs| && old(model).procs[i].Some? && model == Removed(old(model), i)
    {
      hide ReleaseAll;
      hide Release;
      hide TableObjects;
      assert ProcAt(i, model.procs[i]);
      var space := processes[i].space;
      hide Parts;
      LastReleased(model.reg, TableObjects(model.procs[i].value.table), space);
      CloseAll(i);
      var _ := ReleaseObject(space);
      EmptyProcess(i);
    }

    /** Release what the messages of Channel `j` hold in escrow. */
    method DrainChannel(j: nat) returns (ok: bool)
      requires Parts(model) && j < |channels| && channels[j] != null
      modifies Repr
      ensures Parts(model) && Repr == old(Repr) && processes == old(processes) && channels == old(channels)
      ensures j < |old(model).chans| && old(model).chans[j].Some?
      ensures var c := old(model).chans[j].value;
              var escrow := QueueObjects(c.toB) + QueueObjects(c.toA);
              && model == PutChan(old(model), j, Some(Chan(c.id, c.a, c.b, [], []))).(reg := ReleaseAll(old(model).reg, escrow))
              && (ok <==> AllReleased(old(model).reg, escrow))
    {
      hide ReleaseAll;
      hide AllReleased;
      hide QueueObjects;
      assert ChanAt(j, model.chans[j]);
      ok := channels[j].Drain(registry);
      model := PutChan(model, j, Some(Chan(channels[j].id, channels[j].a, channels[j].b, [], []))).(reg := registry.slots);
      forall k: nat | k < |channels|
        ensures ChanAt(k, model.chans[k])
      {
        assert old(ChanAt(k, model.chans[k]));
      }
    }

    method EmptySlot(j: nat)
      requires Parts(model) && j < |channels|
      modifies this
      ensures Parts(model) && Repr == old(Repr) && processes == old(processes) && channels == old(channels)[j := null]
      ensures j < |old(model).chans| && model == PutChan(old(model), j, None)
    {
      channels := channels[j := null];
      model := PutChan(model, j, None);
      forall k: nat | k < |processes|
        ensures ProcAt(k, model.procs[k])
      {
        assert old(ProcAt(k, model.procs[k]));
      }
      forall k: nat | k < |channels|
        ensures ChanAt(k, model.chans[k])
      {
        assert old(ChanAt(k, model.chans[k]));
      }
    }

    /** Drain Channel `j`, release its three objects and empty the slot. */
    method DropChannel(j: nat) returns (ok: bool)
      requires Parts(model) && j < |channels| && channels[j] != null
      modifies Repr
      ensures Parts(model) && Repr == old(Repr) && processes == old(processes) && channels == old(channels)[j := null]
      ensures j < |old(model).chans| && old(model).chans[j].Some?
      ensures model == PutChan(old(model), j, None).(reg := ReleaseAll(old(model).reg, ChanObjects(old(model).chans[j].value)))
      ensures ok <==> AllReleased(old(model).reg, ChanObjects(old(model).chans[j].value))
    {
      hide ReleaseAll;
      hide AllReleased;
      hide Release;
      hide QueueObjects;
      var c := channels[j];
      assert ChanAt(j, model.chans[j]);
      assert model.chans[j].value == Chan(c.id, c.a, c.b, c.toB.contents, c.toA.contents);
      hide Parts;
      ghost var s := model;
      ghost var escrow := QueueObjects(s.chans[j].value.toB) + QueueObjects(s.chans[j].value.toA);
      var drained := DrainChannel(j);
      var r1 := ReleaseObject(c.a);
      var r2 := ReleaseObject(c.b);
      var r3 := ReleaseObject(c.id);
      ThreeReleased(s.reg, escrow, c.a, c.b, c.id);
      EmptySlot(j);
      ok := drained && r1.Ok? && r2.Ok? && r3.Ok?;
    }

    /** Send through the pair of slot `j` and collect the waiters it woke. */
    method SendOn(i: nat, j: nat, endpoint: Handle, r: SendRequest) returns (res: Result<ObjectId, ChannelError>, woken: set<nat>)
      requires Parts(model) && i < |processes| && processes[i] != null && j < |channels| && channels[j] != null
      requires WellFormed(r) && SoundAt(model, i, j)
      modifies Repr
      ensures Parts(model) && Repr == old(Repr)
      ensures i < |old(model).procs| && old(model).procs[i].Some? && j < |old(model).chans| && old(model).chans[j].Some?
      ensures var p, c := old(model).procs[i].value, old(model).chans[j].value;
              && res == SendCheck(p.table, old(model).reg, c, endpoint, Dispositions(r))
              && (res.Err? ==> model == old(model))
              && (res.Ok? ==>
                    var (t, tokens) := MoveAll(p.table, old(model).reg, Dispositions(r));
                    var sent := Enqueued(c, res.value, Message(p.id, r.header, r.payload[..r.payloadLen], tokens));
                    && model == PutChan(PutTable(old(model), i, t), j, Some(sent)).(regs := Unwaited(old(model).regs, Peer(c, res.value)))
                    && woken == WokenBy(old(model).regs, Peer(c, res.value)))
    {
      hide SendCheck;
      hide MoveAll;
      hide Occupied;
      hide Unwaited;
      hide WokenBy;
      assert ProcAt(i, model.procs[i]) && ChanAt(j, model.chans[j]);
      res, woken := channels[j].SendAndWake(registry, processes[i].handles, processes[i].id, endpoint, r, waiters);
      if res.Ok? {
        model := PutChan(PutTable(model, i, processes[i].handles.slots), j, Some(channels[j].Value())).(regs := waiters.registrations);
      }
      forall k: nat | k < |processes|
        ensures ProcAt(k, model.procs[k])
      {
        assert old(ProcAt(k, model.procs[k]));
      }
      forall k: nat | k < |channels|
        ensures ChanAt(k, model.chans[k])
      {
        assert old(ChanAt(k, model.chans[k]));
      }
    }

    /** Receive from the pair of slot `j` into the table of slot `i`. */
    method ReceiveOn(i: nat, j: nat, endpoint: Handle) returns (res: Result<Option<Received>, ChannelError>)
      requires Parts(model) && i < |processes| && processes[i] != null && j < |channels| && channels[j] != null
      requires SoundAt(model, i, j)
      modifies Repr
      ensures Parts(model) && Repr == old(Repr)
      ensures i < |old(model).procs| && old(model).procs[i].Some? && j < |old(model).chans| && old(model).chans[j].Some?
      ensures var (t, c, r) := PairReceive(old(model).procs[i].value.table, old(model).reg, old(model).chans[j].value, endpoint);
              model == PutChan(PutTable(old(model), i, t), j, Some(c)) && res == r
    {
      hide PairReceive;
      hide Occupied;
      assert ProcAt(i, model.procs[i]) && ChanAt(j, model.chans[j]);
      res := channels[j].Receive(registry, processes[i].handles, endpoint);
      model := PutChan(PutTable(model, i, processes[i].handles.slots), j, Some(channels[j].Value()));
      forall k: nat | k < |processes|
        ensures ProcAt(k, model.procs[k])
      {
        assert old(ProcAt(k, model.procs[k]));
      }
      forall k: nat | k < |channels|
        ensures ChanAt(k, model.chans[k])
      {
        assert old(ChanAt(k, model.chans[k]));
      }
    }

    /** Wait on one endpoint whose level is already known. */
    method WaitOn(e: ObjectId, readable: bool, waiter: nat) returns (r: Result<(), WaitError>)
      requires Parts(model) && OneEpoch(model.regs)
      modifies Repr
      ensures Parts(model) && Repr == old(Repr) && processes == old(processes) && channels == old(channels)
      ensures var cleared := ClearWaiter(old(model).regs, waiter);
              if readable then r == Ok(()) && model == old(model)
              else if Occupied(cleared) + 1 > MAX_WAIT_WAKEUPS then r == Err(TooMany) && model == old(model).(regs := cleared)
              else r == Err(WaitError.Blocked) && model == old(model).(regs := Place(cleared, Registration(waiter, 1, e, {Readable}, 0)))
    {
      hide Place;
      hide ClearWaiter;
      var item := WaitItem(e, {Readable}, if readable then {Readable} else {});
      ghost var cleared := ClearWaiter(model.regs, waiter);
      assert Waits.Ready(item) <==> readable by {
        assert readable ==> Readable in item.readiness * item.interests;
      }
      assert PlaceItems(cleared, waiter, 1, [item], 0) == Place(cleared, Registration(waiter, 1, e, {Readable}, 0)) by {
        OneItem(cleared, waiter, item);
      }
      NoWakes(waiters.wakeups, waiter);
      LooksTheSame(item);
      NoFirstWait(model.regs, waiter);
      var after, outcome := WaitMany(waiters, Waiter(waiter, 0, true, None), [item], [item.readiness]);
      r := if outcome.Ok? then Ok(()) else Err(outcome.error);
      model := model.(regs := waiters.registrations);
    }

    method CancelOn(waiter: nat)
      requires Parts(model)
      modifies Repr
      ensures Parts(model) && Repr == old(Repr) && processes == old(processes) && channels == old(channels)
      ensures model == IpcModel.CancelWaiter(old(model), waiter)
    {
      waiters.CancelWaiter(waiter);
      model := IpcModel.CancelWaiter(model, waiter);
    }

    // ----- Scans -----

    /** The slot of a live process; slot 0 is init's and nobody else's. */
    method FindProcess(pid: nat) returns (r: Option<nat>)
      requires Parts(model) && |processes| > 0
      ensures r == ProcIndex(model, pid)
      ensures r.Some? ==> r.value < |processes| && processes[r.value] != null
    {
      assert ProcAt(0, model.procs[0]);
      if processes[0] == null {
        return None;
      }
      if pid == INIT_PROCESS_ID {
        return Some(0);
      }
      for i := 0 to |processes|
        invariant forall k :: 0 <= k < i && model.procs[k].Some? ==> model.procs[k].value.id != pid
      {
        assert ProcAt(i, model.procs[i]);
        if processes[i] != null && processes[i].id == pid {
          return if i == 0 then None else Some(i);
        }
      }
      r := None;
    }

    method FindChannel(o: ObjectId) returns (r: Option<nat>)
      requires Parts(model)
      ensures r == FindChan(model.chans, o)
      ensures r.Some? ==> r.value < |channels| && channels[r.value] != null
    {
      for j := 0 to |channels|
        invariant forall k :: 0 <= k < j ==> !HasEndpoint(model.chans[k], o)
      {
        assert ChanAt(j, model.chans[j]);
        if channels[j] != null && (channels[j].a == o || channels[j].b == o) {
          return Some(j);
        }
      }
      r := None;
    }

    method FreeChannel() returns (r: Option<nat>)
      requires Parts(model)
      ensures r == FirstNone(model.chans) && (r.Some? ==> r.value < |channels|)
    {
      for j := 0 to |channels|
        invariant forall k :: 0 <= k < j ==> model.chans[k].Some?
      {
        assert ChanAt(j, model.chans[j]);
        if channels[j] == null {
          return Some(j);
        }
      }
      r := None;
    }

    method FreeProcess() returns (r: Option<nat>)
      requires Parts(model)
      ensures r == FirstNone(model.procs) && (r.Some? ==> r.value < |processes|)
    {
      for i := 0 to |processes|
        invariant forall k :: 0 <= k < i ==> model.procs[k].Some?
      {
        assert ProcAt(i, model.procs[i]);
        if processes[i] == null {
          return Some(i);
        }
      }
      r := None;
    }

    /** The Channel and endpoint a handle of process `i` names. */
    method LocateEndpoint(i: nat, h: Handle) returns (r: Result<(nat, ObjectId), IpcError>)
      requires Parts(model) && i < |processes| && processes[i] != null
      ensures i < |model.procs| && model.procs[i].Some? && r == Locate(model, i, h)
      ensures r.Ok? ==> r.value.0 < |channels| && channels[r.value.0] != null
    {
      hide FindChan;
      assert ProcAt(i, model.procs[i]);
      var found := Entry(processes[i].handles.slots, registry.slots, h);
      if found.Err? {
        return Err(HandleFailure(found.error));
      }
      if found.value.target.kind != ChannelEndpoint {
        return Err(InvalidEndpoint);
      }
      var at := FindChannel(found.value.target);
      if at.None? {
        return Err(InvalidEndpoint);
      }
      r := Ok((at.value, found.value.target));
    }

    method PeerAt(j: nat, e: ObjectId) returns (o: ObjectId)
      requires Parts(model) && j < |channels| && channels[j] != null
      ensures j < |model.chans| && model.chans[j].Some? && o == Peer(model.chans[j].value, e)
    {
      assert ChanAt(j, model.chans[j]);
      o := if e == channels[j].a then channels[j].b else channels[j].a;
    }

    method HasMessageAt(j: nat, e: ObjectId) returns (found: bool)
      requires Parts(model) && j < |channels| && channels[j] != null
      ensures j < |model.chans| && model.chans[j].Some? && (found <==> Inbound(model.chans[j].value, e) != [])
    {
      assert ChanAt(j, model.chans[j]);
      found := channels[j].HasMessage(e);
    }

    method RequireWait(i: nat, h: Handle) returns (r: Result<ObjectId, HandleError>)
      requires Parts(model) && i < |processes| && processes[i] != null
      ensures i < |model.procs| && model.procs[i].Some? && r == Require(model.procs[i].value.table, model.reg, h, ChannelEndpoint, {Wait})
    {
      assert ProcAt(i, model.procs[i]);
      r := Require(processes[i].handles.slots, registry.slots, h, ChannelEndpoint, {Wait});
    }

    /** Is `o` held by any process or carried by any queued message? */
    method EndpointReachable(o: ObjectId) returns (found: bool)
      requires Parts(model)
      ensures found <==> HandleRefs(model, o) + EscrowRefs(model, o) > 0
    {
      hide Total;
      found := false;
      for i := 0 to |processes|
        invariant found <==> exists k :: 0 <= k < i && ProcHandlesW(o)(model.procs[k]) > 0
      {
        assert ProcAt(i, model.procs[i]);
        if processes[i] != null {
          var held := processes[i].handles.HoldsObject(o);
          found := found || held;
        }
      }
      TotalPositive(ProcHandlesW(o), model.procs);
      ghost var byHandle := found;
      for j := 0 to |channels|
        invariant found <==> byHandle || exists k :: 0 <= k < j && EscrowW(o)(model.chans[k]) > 0
      {
        assert ChanAt(j, model.chans[j]);
        if channels[j] != null {
          var carried := channels[j].CarriesObject(o);
          found := found || carried;
        }
      }
      TotalPositive(EscrowW(o), model.chans);
    }

    // ----- Calls -----

    /** Create the init process on first use. */
    method Initialize()
      requires Valid()
      modifies Repr
      ensures Valid() && fresh(Repr - old(Repr)) && IpcLedger.Ready(model) && model == Booted(old(model)) && |processes| > 0
    {
      hide Linear;
      hide Exact;
      hide Quiet;
      hide ChanShape;
      hide Create;
      BootedInv(model);
      assert ProcAt(0, model.procs[0]);
      if processes[0] == null {
        BootedFresh(model);
        hide Parts;
        var space := CreateObject(AddressSpace);
        AddProcess(0, INIT_PROCESS_ID, space.value);
      }
    }

    /** `create_pair`: a failed creation leaves no object and no handle behind. */
    method CreateChannel(pid: nat) returns (r: Result<(Handle, Handle), IpcError>)
      requires Valid()
      modifies Repr
      ensures Valid() && fresh(Repr - old(Repr)) && (model, r) == CreatePair(old(model), pid)
      ensures r.Ok? ==> O.NewPair(Booted(old(model)), model, pid, r.value.0, r.value.1)
    {
      hide Inv;
      hide Parts;
      hide Booted;
      hide CreatePair;
      hide O.NewPair;
      CreatePairBooted(model, pid);
      Initialize();
      r := CreateReady(pid);
      if r.Ok? {
        O.CreatedHandles(old(model), pid);
      }
    }

    method CreateReady(pid: nat) returns (r: Result<(Handle, Handle), IpcError>)
      requires Valid() && IpcLedger.Ready(model) && |processes| > 0 && Booted(model) == model
      modifies Repr
      ensures Valid() && fresh(Repr - old(Repr)) && (model, r) == CreatePair(old(model), pid)
    {
      hide Inv;
      hide Booted;
      hide Insert;
      hide CloseHandle;
      hide Release;
      hide ReleaseAll;
      hide Create;
      CreatePairInv(model, pid);
      hide Parts;
      var at := FindProcess(pid);
      if at.None? {
        return Err(InvalidProcess);
      }
      var i := at.value;
      var free := FreeChannel();
      if free.None? {
        return Err(Capacity);
      }
      var three := CreateThreeObjects();
      if three.Err? {
        return Err(HandleFailure(three.error));
      }
      var (channel, a, b) := three.value;
      var handles := InsertBoth(i, a, b);
      if handles.Err? {
        ghost var reg := model.reg;
        var _ := ReleaseObject(a);
        var _ := ReleaseObject(b);
        var _ := ReleaseObject(channel);
        ReleaseThreeObjects(reg, a, b, channel);
        return Err(HandleFailure(handles.error));
      }
      AddChannel(free.value, channel, a, b);
      r := Ok(handles.value);
    }

    /** The Channel object and both endpoints, or none of them. */
    method CreateThreeObjects() returns (r: Result<(ObjectId, ObjectId, ObjectId), HandleError>)
      requires Parts(model)
      modifies Repr
      ensures Parts(model) && Repr == old(Repr) && processes == old(processes) && channels == old(channels)
      ensures (model, r) == (old(model).(reg := CreateThree(old(model).reg).0), CreateThree(old(model).reg).1)
    {
      hide Parts;
      hide Release;
      hide FirstVacant;
      var channel := CreateObject(Channel);
      if channel.Err? {
        return Err(channel.error);
      }
      var a := CreateObject(ChannelEndpoint);
      if a.Err? {
        var _ := ReleaseObject(channel.value);
        return Err(a.error);
      }
      var b := CreateObject(ChannelEndpoint);
      if b.Err? {
        var _ := ReleaseObject(a.value);
        var _ := ReleaseObject(channel.value);
        return Err(b.error);
      }
      r := Ok((channel.value, a.value, b.value));
    }

    /** Handles for both endpoints, or for neither. */
    method InsertBoth(i: nat, a: ObjectId, b: ObjectId) returns (r: Result<(Handle, Handle), HandleError>)
      requires Parts(model) && i < |processes| && processes[i] != null
      modifies Repr
      ensures Parts(model) && Repr == old(Repr) && processes == old(processes) && channels == old(channels)
      ensures i < |old(model).procs| && old(model).procs[i].Some?
      ensures var (t, reg, r1) := InsertTwo(old(model).procs[i].value.table, old(model).reg, a, b);
              model == PutTable(old(model), i, t).(reg := reg) && r == r1
    {
      hide Parts;
      hide Insert;
      hide CloseHandle;
      var first := InsertObject(i, a, ENDPOINT_RIGHTS);
      if first.Err? {
        return Err(first.error);
      }
      var second := InsertObject(i, b, ENDPOINT_RIGHTS);
      if second.Err? {
        var _ := CloseHandleAt(i, first.value);
        return Err(second.error);
      }
      r := Ok((first.value, second.value));
    }

    /** `register_spawned_process`: the endpoint leaves init's table for the child's,
        or nothing moves. */
    method RegisterSpawned(parent: nat, child: nat, endpoint: Handle, rights: Rights) returns (r: Result<Handle, IpcError>)
      requires Valid()
      modifies Repr
      ensures Valid() && fresh(Repr - old(Repr)) && (model, r) == Spawn(old(model), parent, child, endpoint, rights)
      ensures r.Ok? ==> O.HandedOver(Booted(old(model)), model, child, endpoint, rights, r.value)
    {
      hide Inv;
      hide Parts;
      hide Booted;
      hide Spawn;
      hide O.HandedOver;
      SpawnBooted(model, parent, child, endpoint, rights);
      Initialize();
      r := RegisterReady(parent, child, endpoint, rights);
      if r.Ok? {
        O.SpawnHandsOver(old(model), parent, child, endpoint, rights);
      }
    }

    method RegisterReady(parent: nat, child: nat, endpoint: Handle, rights: Rights) returns (r: Result<Handle, IpcError>)
      requires Valid() && IpcLedger.Ready(model) && |processes| > 0 && Booted(model) == model
      modifies Repr
      ensures Valid() && fresh(Repr - old(Repr)) && (model, r) == Spawn(old(model), parent, child, endpoint, rights)
    {
      hide Inv;
      hide Booted;
      hide Create;
      hide BeginMove;
      hide Release;
      hide Locate;
      hide Install;
      SpawnInv(model, parent, child, endpoint, rights);
      hide Parts;
      if parent != INIT_PROCESS_ID || child <= INIT_PROCESS_ID {
        return Err(InvalidProcess);
      }
      var known := FindProcess(child);
      if known.Some? {
        return Err(InvalidProcess);
      }
      var slot := FreeProcess();
      if slot.None? {
        return Err(Capacity);
      }
      var init := FindProcess(INIT_PROCESS_ID);
      var at := LocateEndpoint(0, endpoint);
      if at.Err? {
        return Err(at.error);
      }
      CreateKeeps(model.reg, AddressSpace);
      var space := CreateObject(AddressSpace);
      if space.Err? {
        return Err(HandleFailure(space.error));
      }
      var handle := SpawnInto(slot.value, child, space.value, endpoint, rights);
      r := if handle.Err? then Err(HandleFailure(handle.error)) else Ok(handle.value);
    }

    /** Move init's endpoint into a new process, or release the space made for it. */
    method SpawnInto(slot: nat, child: nat, space: ObjectId, endpoint: Handle, rights: Rights) returns (r: Result<Handle, HandleError>)
      requires Parts(model) && 0 < slot < |processes| && processes[0] != null
      modifies Repr
      ensures Parts(model) && fresh(Repr - old(Repr))
      ensures slot < |old(model).procs| && old(model).procs[0].Some?
      ensures match BeginMove(old(model).procs[0].value.table, old(model).reg, endpoint, rights)
              case (_, Err(e)) => r == Err(e) && model == old(model).(reg := Release(old(model).reg, space).0)
              case (t, Ok(token)) =>
                var (own, handle) := Install(EmptyTable(), token);
                var s1 := PutTable(old(model), 0, t);
                handle.Ok? && r == Ok(handle.value) && model == s1.(procs := s1.procs[slot := Some(Proc(child, space, own))])
    {
      hide BeginMove;
      hide Release;
      hide Install;
      hide InstallToken;
      assert ProcAt(0, model.procs[0]) && ProcAt(slot, model.procs[slot]);
      hide Parts;
      ghost var s := model;
      MoveKeeps(s.procs[0].value.table, s.reg, endpoint, rights);
      MovedInstalls(s.procs[0].value.table, s.reg, endpoint, rights);
      SameTable(s, 0);
      var token := MoveFrom(0, endpoint, rights);
      if token.Err? {
        var _ := ReleaseObject(space);
        return Err(token.error);
      }
      AddProcess(slot, child, space);
      r := InstallInto(slot, token.value);
    }

    /** `send`, with the waiters to make ready. */
    method SendMessage(pid: nat, endpoint: Handle, request: SendRequest) returns (r: Result<set<nat>, IpcError>)
      requires Valid()
      modifies Repr
      ensures Valid() && fresh(Repr - old(Repr)) && (model, r) == Send(old(model), pid, endpoint, request)
      ensures r.Ok? <==> O.CanSend(Booted(old(model)), pid, endpoint, request)
      ensures r.Ok? ==> O.Sent(Booted(old(model)), model, pid, endpoint, request)
    {
      hide Inv;
      hide Parts;
      hide Booted;
      hide Send;
      hide O.CanSend;
      hide O.Sent;
      SendBooted(model, pid, endpoint, request);
      Initialize();
      r := SendReady(pid, endpoint, request);
      O.SendSucceeds(old(model), pid, endpoint, request);
      if r.Ok? {
        O.SendDelivers(old(model), pid, endpoint, request);
      }
    }

    method SendReady(pid: nat, endpoint: Handle, request: SendRequest) returns (r: Result<set<nat>, IpcError>)
      requires Valid() && IpcLedger.Ready(model) && |processes| > 0 && Booted(model) == model
      modifies Repr
      ensures Valid() && Repr == old(Repr) && (model, r) == Send(old(model), pid, endpoint, request)
    {
      hide Inv;
      hide Booted;
      hide Locate;
      hide SendCheck;
      hide ChannelSend;
      hide Total;
      SendInv(model, pid, endpoint, request);
      hide Parts;
      var at := FindProcess(pid);
      if at.None? {
        return Err(InvalidProcess);
      }
      if !WellFormed(request) {
        return Err(InvalidRequest);
      }
      var i := at.value;
      var located := LocateEndpoint(i, endpoint);
      if located.Err? {
        return Err(located.error);
      }
      var (j, e) := located.value;
      var peer := PeerAt(j, e);
      var held := EndpointReachable(peer);
      if !held {
        return Err(PeerUnreachable);
      }
      ReadyParts(model, i, j);
      SendAgrees(model, i, j, e, endpoint, request);
      var sent, woken := SendOn(i, j, endpoint, request);
      r := if sent.Err? then Err(ChannelFailure(sent.error)) else Ok(woken);
    }

    /** `wait_readable`; `blocks` is whether the caller's thread really parked. */
    method WaitForReadable(pid: nat, endpoint: Handle, waiter: nat, blocks: bool) returns (r: Result<WaitOutcome, IpcError>)
      requires Valid()
      modifies Repr
      ensures Valid() && fresh(Repr - old(Repr)) && (model, r) == WaitReadable(old(model), pid, endpoint, waiter, blocks)
    {
      hide Inv;
      hide Booted;
      hide Locate;
      hide Require;
      hide Occupied;
      hide Place;
      hide ClearWaiter;
      WaitReadableInv(model, pid, endpoint, waiter, blocks);
      Initialize();
      hide Parts;
      var at := FindProcess(pid);
      if at.None? {
        return Err(InvalidProcess);
      }
      var i := at.value;
      var located := LocateEndpoint(i, endpoint);
      if located.Err? {
        return Err(located.error);
      }
      var (j, e) := located.value;
      var required := RequireWait(i, endpoint);
      if required.Err? {
        return Err(ChannelFailure(FromHandleError(required.error)));
      }
      var readable := HasMessageAt(j, e);
      FirstWaits(model);
      var waited := WaitOn(e, readable, waiter);
      if waited.Ok? {
        return Ok(IsReadable);
      }
      if waited.error != WaitError.Blocked {
        return Err(WaitFailure(waited.error));
      }
      if !blocks {
        CancelOn(waiter);
        return Err(WaitFailure(WaitError.Invalid));
      }
      r := Ok(IsBlocked);
    }

    method CancelWaits(waiter: nat)
      requires Valid()
      modifies Repr
      ensures Valid() && Repr == old(Repr) && model == IpcModel.CancelWaiter(old(model), waiter)
      ensures forall k :: 0 <= k < |model.regs| && model.regs[k].Some? ==> model.regs[k].value.waiter != waiter
    {
      hide Inv;
      hide Parts;
      CancelInv(model, waiter);
      CancelOn(waiter);
    }

    /** `try_receive`: the head message with all its capabilities, or no change. */
    method TryReceive(pid: nat, endpoint: Handle) returns (r: Result<Option<Received>, IpcError>)
      requires Valid()
      modifies Repr
      ensures Valid() && fresh(Repr - old(Repr)) && (model, r) == Receive(old(model), pid, endpoint)
    {
      hide Inv;
      hide Booted;
      hide Locate;
      hide PairReceive;
      hide Receive;
      ReceiveInv(model, pid, endpoint);
      Initialize();
      hide Parts;
      ReceiveBooted(old(model), pid, endpoint);
      var at := FindProcess(pid);
      if at.None? {
        return Err(InvalidProcess);
      }
      var i := at.value;
      var located := LocateEndpoint(i, endpoint);
      if located.Err? {
        return Err(located.error);
      }
      var (j, e) := located.value;
      ReadyParts(model, i, j);
      ReceiveAgrees(model, pid, i, j, e, endpoint);
      var received := ReceiveOn(i, j, endpoint);
      r := if received.Err? then Err(ChannelFailure(received.error)) else Ok(received.value);
    }

    // ----- Collection -----

    /** Mark the Channel of every visited endpoint. */
    method Mark(visited: seq<ObjectId>, marks: array<bool>) returns (changed: bool)
      requires Parts(model) && marks !in Repr && marks.Length == |channels|
      modifies marks
      ensures Parts(model)
      ensures forall j: nat :: j < |channels| ==> (marks[j] <==> old(marks[j]) || Named(model.chans, visited, j))
      ensures changed <==> marks[..] != old(marks[..])
    {
      hide FindChan;
      hide Parts;
      changed := false;
      for n := 0 to |visited|
        invariant Parts(model)
        invariant forall j: nat :: j < |channels| ==> (marks[j] <==> old(marks[j]) || Named(model.chans, visited[..n], j))
        invariant changed <==> exists j :: 0 <= j < |channels| && marks[j] != old(marks[j])
      {
        assert visited[..n + 1] == visited[..n] + [visited[n]];
        if visited[n].kind == ChannelEndpoint {
          var found := FindChannel(visited[n]);
          if found.Some? && !marks[found.value] {
            marks[found.value] := true;
            changed := true;
          }
        }
      }
      assert visited[..|visited|] == visited;
    }

    /** Mark what process handles name. */
    method MarkRoots(marks: array<bool>)
      requires Valid() && marks !in Repr && marks.Length == |channels|
      modifies marks
      ensures Valid()
      ensures forall j: nat :: j < |channels| ==> (marks[j] <==> old(marks[j]) || Root(model, j))
    {
      hide Inv;
      hide Named;
      hide Root;
      for i := 0 to |processes|
        invariant Parts(model)
        invariant forall j: nat :: j < |channels| ==>
                    (marks[j] <==> old(marks[j])
                                   || exists k :: 0 <= k < i && model.procs[k].Some? && Named(model.chans, TableObjects(model.procs[k].value.table), j))
      {
        assert ProcAt(i, model.procs[i]);
        if processes[i] != null {
          var _ := Mark(TableObjects(processes[i].handles.slots), marks);
        }
      }
      forall j: nat | j < |channels|
        ensures Root(model, j) <==> exists k :: 0 <= k < |processes| && model.procs[k].Some? && Named(model.chans, TableObjects(model.procs[k].value.table), j)
      {
        MarkedRoots(model, j);
      }
    }

    /** One pass over the marked Channels. */
    method MarkPass(marks: array<bool>) returns (changed: bool)
      requires Valid() && marks !in Repr && marks.Length == |channels|
      requires forall j: nat :: j < |channels| && marks[j] ==> Reachable(model, j)
      modifies marks
      ensures Valid()
      ensures forall j: nat :: j < |channels| ==> (old(marks[j]) ==> marks[j]) && (marks[j] ==> Reachable(model, j))
      ensures changed <==> marks[..] != old(marks[..])
      ensures !changed ==> forall i: nat, j: nat :: i < |channels| && marks[i] && Edge(model, i, j) ==> j < |channels| && marks[j]
    {
      hide Inv;
      hide Named;
      hide Edge;
      hide Reachable;
      changed := false;
      for i := 0 to |channels|
        invariant Parts(model)
        invariant forall j: nat :: j < |channels| ==> (old(marks[j]) ==> marks[j]) && (marks[j] ==> Reachable(model, j))
        invariant changed <==> marks[..] != old(marks[..])
        invariant !changed ==> forall k: nat, j: nat :: k < i && marks[k] && Edge(model, k, j) ==> j < |channels| && marks[j]
      {
        assert ChanAt(i, model.chans[i]);
        if marks[i] && channels[i] != null {
          var here := MarkFrom(i, marks);
          changed := changed || here;
        } else {
          forall j: nat
            ensures marks[i] ==> !Edge(model, i, j)
          {
            NoEdge(model, i, j);
          }
        }
      }
    }

    /** Mark what the messages of a marked Channel carry. */
    method MarkFrom(i: nat, marks: array<bool>) returns (changed: bool)
      requires Valid() && marks !in Repr && marks.Length == |channels|
      requires i < |channels| && channels[i] != null && Reachable(model, i)
      modifies marks
      ensures Valid()
      ensures forall j: nat :: j < |channels| ==> (marks[j] <==> old(marks[j]) || Edge(model, i, j)) && (Edge(model, i, j) ==> Reachable(model, j))
      ensures forall j: nat :: Edge(model, i, j) ==> j < |channels|
      ensures changed <==> marks[..] != old(marks[..])
    {
      hide Inv;
      hide Named;
      hide Edge;
      hide Reachable;
      hide QueueObjects;
      assert ChanAt(i, model.chans[i]);
      var visited := channels[i].VisitEscrow();
      hide Parts;
      ghost var escrow := QueueObjects(model.chans[i].value.toB) + QueueObjects(model.chans[i].value.toA);
      forall j: nat
        ensures Edge(model, i, j) <==> Named(model.chans, visited, j)
        ensures Edge(model, i, j) ==> j < |channels| && Reachable(model, j)
      {
        MarkedEdges(model, i, j);
        NamedSame(model.chans, escrow, visited, j);
      }
      changed := Mark(visited, marks);
    }

    /** Mark to a fixpoint, then drop every unmarked Channel. No release can fail. */
    method CollectUnreachable() returns (ok: bool)
      requires Valid() && IpcLedger.Ready(model)
      modifies Repr
      ensures ok && Valid() && Repr == old(Repr) && IpcLedger.Ready(model) && model == Collect(old(model))
    {
      hide Inv;
      hide Reachable;
      hide Edge;
      hide Root;
      hide Collect;
      hide ProcsRep;
      hide ChansRep;
      hide WaitsRep;
      ghost var s := model;
      SameCount();
      var marks := new bool[|channels|](_ => false);
      MarkRoots(marks);
      forall j: nat | Root(s, j)
        ensures j < |channels| && marks[j] && Reachable(s, j)
      {
        RootInside(s, j);
      }
      var changed := true;
      while changed
        modifies marks
        invariant Valid() && model == s
        invariant forall j: nat :: Root(s, j) ==> j < |channels| && marks[j]
        invariant forall j: nat :: j < |channels| && marks[j] ==> Reachable(s, j)
        invariant !changed ==> forall i: nat, j: nat :: i < |channels| && marks[i] && Edge(s, i, j) ==> j < |channels| && marks[j]
        decreases Unmarked(marks[..]), changed
      {
        ghost var before := marks[..];
        changed := MarkPass(marks);
        if changed {
          FewerUnmarked(before, marks[..]);
        }
      }
      MarksExact(s, marks[..]);
      ok := Sweep(marks);
    }

    lemma SameCount()
      requires Parts(model)
      ensures |channels| == |model.chans|
    {
    }

    /** Drain and release every unmarked Channel, lowest slot first. */
    method Sweep(marks: array<bool>) returns (ok: bool)
      requires Valid() && IpcLedger.Ready(model) && marks !in Repr && marks.Length == |channels|
      requires forall j: nat :: j < |channels| ==> (marks[j] <==> Reachable(model, j))
      modifies Repr
      ensures ok && Valid() && Repr == old(Repr) && IpcLedger.Ready(model) && model == Collect(old(model))
    {
      hide Inv;
      hide Reachable;
      hide Swept;
      hide Collect;
      hide ReleaseAll;
      hide AllReleased;
      hide ChanObjects;
      ghost var s := model;
      CollectInv(s);
      CollectReleases(s);
      SweptEnds(s);
      SameCount();
      ok := true;
      for n := 0 to |channels|
        invariant |channels| == |s.chans| == marks.Length && Repr == old(Repr)
        invariant forall j: nat :: j < |s.chans| ==> (marks[j] <==> Reachable(s, j))
        invariant ok && Parts(model) && model == Swept(s, n)
      {
        SweptStep(s, n);
        assert ChanAt(n, model.chans[n]);
        hide Parts;
        if channels[n] != null && !marks[n] {
          var released := DropChannel(n);
          ok := ok && released;
        }
      }
    }

    /** `close`: drop the handle, then whatever nothing can reach any more. */
    method CloseOne(pid: nat, h: Handle) returns (r: Result<(), IpcError>)
      requires Valid()
      modifies Repr
      ensures Valid() && fresh(Repr - old(Repr)) && (model, r) == CloseEndpoint(old(model), pid, h)
    {
      hide Inv;
      hide Booted;
      hide Locate;
      hide CloseHandle;
      hide Collect;
      Initialize();
      hide Parts;
      var at := FindProcess(pid);
      if at.None? {
        return Err(InvalidProcess);
      }
      var i := at.value;
      var located := LocateEndpoint(i, h);
      if located.Err? {
        return Err(located.error);
      }
      ghost var s := model;
      CloseKeeps(s.procs[i].value.table, s.reg, h);
      SameTable(s, i);
      var closed := CloseHandleAt(i, h);
      if closed.Err? {
        return Err(HandleFailure(closed.error));
      }
      ClosedReady(s, i, h);
      var _ := CollectUnreachable();
      r := Ok(());
    }

    /** `exit_process`: every handle and the address space go, then the Channels
        nothing can reach. */
    method Exit(pid: nat) returns (r: Result<(), IpcError>)
      requires Valid()
      modifies Repr
      ensures Valid() && Repr == old(Repr) && (model, r) == ExitProcess(old(model), pid)
    {
      assert |model.procs| == |processes| && |processes| > 0;
      hide Inv;
      hide Parts;
      hide Collect;
      hide Removed;
      if pid == INIT_PROCESS_ID {
        return Err(InvalidProcess);
      }
      var at := FindProcess(pid);
      if at.None? {
        return Err(InvalidProcess);
      }
      RemovedReady(model, pid);
      DropProcess(at.value);
      var _ := CollectUnreachable();
      r := Ok(());
    }
  }

  /** Every registration is of a first wait, as each call makes a new waiter. */
  predicate OneEpoch(regs: Registrations) {
    forall i :: 0 <= i < |regs| && regs[i].Some? ==> regs[i].value.epoch == 1
  }

  lemma LooksTheSame(item: WaitItem)
    ensures FirstReady([item]) == (if Waits.Ready(item) then Some(0) else None) && Refreshed([item], [item.readiness]) == [item]
  {
  }

  lemma NoFirstWait(regs: Registrations, waiter: nat)
    requires OneEpoch(regs)
    ensures WithoutWait(regs, waiter, 0) == regs
  {
  }

  lemma OneItem(regs: Registrations, waiter: nat, item: WaitItem)
    ensures PlaceItems(regs, waiter, 1, [item], 0) == Place(regs, Registration(waiter, 1, item.target, item.interests, 0))
  {
    hide Place;
    var placed := Place(regs, Placing(waiter, 1, [item], 0));
    assert PlaceItems(placed, waiter, 1, [item], 1) == placed;
  }

  lemma NoWakes(wakes: Wakes, waiter: nat)
    requires forall k :: 0 <= k < |wakes| ==> wakes[k].None?
    ensures ClearWakes(wakes, waiter) == wakes && Occupied(wakes) == 0
  {
    TotalZero(Filled<Wake>(), wakes);
  }

  lemma CreateKeeps(reg: Slots, kind: ObjectKind)
    ensures Create(reg, kind).1.Err? ==> Create(reg, kind).0 == reg
  {
  }

  lemma MoveKeeps(t: Table, reg: Slots, h: Handle, rights: Rights)
    ensures BeginMove(t, reg, h, rights).1.Err? ==> BeginMove(t, reg, h, rights).0 == t
  {
  }

  lemma CloseKeeps(t: Table, reg: Slots, h: Handle)
    ensures CloseHandle(t, reg, h).2.Err? ==> CloseHandle(t, reg, h).0 == t && CloseHandle(t, reg, h).1 == reg
  {
    hide Release;
  }

  /** Only which objects are visited matters, not in what order or how often. */
  lemma NamedSame(chans: seq<Option<Chan>>, xs: seq<ObjectId>, ys: seq<ObjectId>, j: nat)
    requires forall o :: o in xs <==> o in ys
    ensures Named(chans, xs, j) <==> Named(chans, ys, j)
  {
    hide FindChan;
    if k :| 0 <= k < |xs| && xs[k].kind == ChannelEndpoint && FindChan(chans, xs[k]) == Some(j) {
      assert xs[k] in ys;
    }
    if k :| 0 <= k < |ys| && ys[k].kind == ChannelEndpoint && FindChan(chans, ys[k]) == Some(j) {
      assert ys[k] in xs;
    }
  }

  lemma SameTable(s: Ipc, i: nat)
    requires i < |s.procs| && s.procs[i].Some?
    ensures PutTable(s, i, s.procs[i].value.table) == s
  {
    assert s.procs[i := Some(s.procs[i].value.(table := s.procs[i].value.table))] == s.procs;
  }

  /** What was moved out is still valid, so an empty table takes it. */
  lemma MovedInstalls(t: Table, reg: Slots, h: Handle, rights: Rights)
    ensures BeginMove(t, reg, h, rights).1.Ok? ==>
              var token := BeginMove(t, reg, h, rights).1.value;
              InstallToken(EmptyTable(), reg, token) == Install(EmptyTable(), token) && Install(EmptyTable(), token).1.Ok?
  {
    if BeginMove(t, reg, h, rights).1.Ok? {
      InstallEmpty(BeginMove(t, reg, h, rights).1.value);
    }
  }

  predicate SoundAt(s: Ipc, i: nat, j: nat) {
    && i < |s.procs| && s.procs[i].Some? && TableWf(s.procs[i].value.table)
    && j < |s.chans| && s.chans[j].Some? && s.chans[j].value.a != s.chans[j].value.b
  }

  lemma ReadyParts(s: Ipc, i: nat, j: nat)
    requires IpcLedger.Ready(s) && i < |s.procs| && s.procs[i].Some? && j < |s.chans| && s.chans[j].Some?
    ensures SoundAt(s, i, j)
  {
    CreatorsDiffer(s, j, j);
  }

  lemma FirstWaits(s: Ipc)
    requires Inv(s)
    ensures OneEpoch(s.regs)
  {
  }

  /** A call on a state that has been initialised is a call on the state before. */
  lemma ReceiveBooted(s: Ipc, pid: nat, endpoint: Handle)
    requires IpcLedger.Ready(Booted(s))
    ensures Booted(Booted(s)) == Booted(s) && Receive(s, pid, endpoint) == Receive(Booted(s), pid, endpoint)
    ensures ProcIndex(Booted(s), pid).None? ==> Receive(s, pid, endpoint) == (Booted(s), Err(InvalidProcess))
    ensures ProcIndex(Booted(s), pid).Some? && Locate(Booted(s), ProcIndex(Booted(s), pid).value, endpoint).Err? ==>
              Receive(s, pid, endpoint) == (Booted(s), Err(Locate(Booted(s), ProcIndex(Booted(s), pid).value, endpoint).error))
  {
    hide Linear;
    hide Exact;
    hide Quiet;
    assert Booted(Booted(s)) == Booted(s);
    hide Booted;
    hide Locate;
    hide Require;
  }

  lemma BootedTwice(s: Ipc)
    requires Inv(s)
    ensures Booted(Booted(s)) == Booted(s)
  {
    BootedInv(s);
    hide Linear;
    hide Exact;
    hide Quiet;
  }

  lemma CreatePairBooted(s: Ipc, pid: nat)
    requires Inv(s)
    ensures Booted(Booted(s)) == Booted(s) && CreatePair(Booted(s), pid) == CreatePair(s, pid)
  {
    BootedTwice(s);
    hide Booted;
  }

  lemma SpawnBooted(s: Ipc, parent: nat, child: nat, endpoint: Handle, rights: Rights)
    requires Inv(s)
    ensures Booted(Booted(s)) == Booted(s) && Spawn(Booted(s), parent, child, endpoint, rights) == Spawn(s, parent, child, endpoint, rights)
  {
    BootedTwice(s);
    hide Booted;
  }

  lemma SendBooted(s: Ipc, pid: nat, endpoint: Handle, r: SendRequest)
    requires Inv(s)
    ensures Booted(Booted(s)) == Booted(s) && Send(Booted(s), pid, endpoint, r) == Send(s, pid, endpoint, r)
  {
    BootedTwice(s);
    hide Booted;
    hide ChannelSend;
  }

  lemma LastReleased(reg: Slots, gone: seq<ObjectId>, space: ObjectId)
    ensures ReleaseAll(reg, gone + [space]) == Release(ReleaseAll(reg, gone), space).0
  {
    hide Release;
    ReleaseAllAppend(reg, gone, [space]);
    assert [space][1..] == [];
    var after := ReleaseAll(reg, gone);
    assert ReleaseAll(after, [space]) == ReleaseAll(Release(after, space).0, []);
  }

  lemma ThreeReleased(reg: Slots, escrow: seq<ObjectId>, a: ObjectId, b: ObjectId, c: ObjectId)
    ensures var r0 := ReleaseAll(reg, escrow);
            var (r1, ok1) := Release(r0, a);
            var (r2, ok2) := Release(r1, b);
            var (r3, ok3) := Release(r2, c);
            && ReleaseAll(reg, escrow + [a, b, c]) == r3
            && (AllReleased(reg, escrow + [a, b, c]) <==> AllReleased(reg, escrow) && ok1.Ok? && ok2.Ok? && ok3.Ok?)
  {
    hide Release;
    ReleaseAllAppend(reg, escrow, [a, b, c]);
    ReleaseThreeObjects(ReleaseAll(reg, escrow), a, b, c);
  }

  lemma ReleaseThreeObjects(reg: Slots, a: ObjectId, b: ObjectId, c: ObjectId)
    ensures var (r1, ok1) := Release(reg, a);
            var (r2, ok2) := Release(r1, b);
            var (r3, ok3) := Release(r2, c);
            ReleaseAll(reg, [a, b, c]) == r3 && (AllReleased(reg, [a, b, c]) <==> ok1.Ok? && ok2.Ok? && ok3.Ok?)
  {
    hide Release;
    assert [a, b, c][1..] == [b, c] && [b, c][1..] == [c] && [c][1..] == [];
    var r1 := Release(reg, a).0;
    var r2 := Release(r1, b).0;
    var r3 := Release(r2, c).0;
    assert ReleaseAll(r3, []) == r3 && ReleaseAll(r2, [c]) == r3 && ReleaseAll(r1, [b, c]) == r3;
    assert AllReleased(r2, [c]) <==> Release(r2, c).1.Ok?;
    assert AllReleased(r1, [b, c]) <==> Release(r1, b).1.Ok? && Release(r2, c).1.Ok?;
  }
}
