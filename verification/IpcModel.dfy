/** The IPC manager as a value: object registry, process handle tables,
    Channels with escrowed transfers and wait registrations. */
module IpcModel {
  import opened Prelude
  import opened Counts
  import opened Objects
  import opened Handles
  import opened Waits

  const INIT_PROCESS_ID: nat := 1
  const MAX_LIVE_PROCESSES: nat := 2
  const MAX_USER_PROCESSES: nat := 1 + MAX_LIVE_PROCESSES
  const CHANNEL_CAPACITY: nat := 16
  const HANDLE_CAPACITY: nat := 64
  const OBJECT_CAPACITY: nat := 128
  const MAX_QUEUE: nat := 8
  const MAX_INLINE_PAYLOAD: nat := 128
  const MAX_TRANSFER_HANDLES: nat := 4

  datatype ChannelError =
    | ChInvalidEndpoint
    | ChStale
    | ChRightsMissing
    | QueueFull
    | ChEmpty
    | MessageTooLarge
    | TooManyTransfers
    | DuplicateTransfer
    | ChReceiverFull
    | ObjectStale

  function FromHandleError(e: HandleError): ChannelError {
    match e
    case Stale => ChStale
    case Closed => ChStale
    case Invalid => ChStale
    case WrongType => ChInvalidEndpoint
    case RightsMissing => ChRightsMissing
    case TableFull => ChReceiverFull
    case ReceiverFull => ChReceiverFull
    case _ => ObjectStale
  }

  datatype IpcError =
    | Capacity
    | InvalidRequest
    | InvalidEndpoint
    | InvalidProcess
    | PeerUnreachable
    | HandleFailure(handle: HandleError)
    | ChannelFailure(channel: ChannelError)
    | WaitFailure(wait: WaitError)

  datatype Header = Header(protocolId: nat, version: nat, requestId: nat, opcode: nat, flags: nat)

  /** A queued message; `tokens` are the capabilities held in escrow. */
  datatype Message = Message(sender: nat, header: Header, payload: seq<Byte>, tokens: seq<Capability>)

  /** `toB` is what endpoint `a` sent and `b` has not received yet. */
  datatype Chan = Chan(id: ObjectId, a: ObjectId, b: ObjectId, toB: seq<Message>, toA: seq<Message>)

  datatype Proc = Proc(id: nat, space: ObjectId, table: Table)

  datatype Ipc = Ipc(reg: Slots, procs: seq<Option<Proc>>, chans: seq<Option<Chan>>, regs: Registrations)

  // ----- Ledgers -----

  function MessageRefs(o: ObjectId): Message -> nat {
    (m: Message) => CapsRefs(m.tokens, o)
  }

  function Escrow(c: Chan, o: ObjectId): nat {
    Total(MessageRefs(o), c.toB) + Total(MessageRefs(o), c.toA)
  }

  function EscrowW(o: ObjectId): Option<Chan> -> nat {
    (c: Option<Chan>) => if c.Some? then Escrow(c.value, o) else 0
  }

  function ChanCreatorW(o: ObjectId): Option<Chan> -> nat {
    (c: Option<Chan>) => if c.Some? then One(c.value.id, o) + One(c.value.a, o) + One(c.value.b, o) else 0
  }

  function ProcHandlesW(o: ObjectId): Option<Proc> -> nat {
    (p: Option<Proc>) => if p.Some? then TableRefs(p.value.table, o) else 0
  }

  function ProcCreatorW(o: ObjectId): Option<Proc> -> nat {
    (p: Option<Proc>) => if p.Some? then One(p.value.space, o) else 0
  }

  /** Handle entries naming `o`, over every process. */
  function HandleRefs(s: Ipc, o: ObjectId): nat {
    Total(ProcHandlesW(o), s.procs)
  }

  /** Escrow tokens naming `o`, over every queue. */
  function EscrowRefs(s: Ipc, o: ObjectId): nat {
    Total(EscrowW(o), s.chans)
  }

  /** References the manager itself keeps: address spaces, Channels and their endpoints. */
  function CreatorRefs(s: Ipc, o: ObjectId): nat {
    Total(ProcCreatorW(o), s.procs) + Total(ChanCreatorW(o), s.chans)
  }

  function LedgerOf(s: Ipc): Ledger {
    o => CreatorRefs(s, o) + HandleRefs(s, o) + EscrowRefs(s, o)
  }

  // ----- Lookup -----

  function FindProc(procs: seq<Option<Proc>>, id: nat): (r: Option<nat>)
    ensures r.Some? ==> r.value < |procs| && procs[r.value].Some? && procs[r.value].value.id == id
    ensures r.Some? ==> forall k :: 0 <= k < r.value && procs[k].Some? ==> procs[k].value.id != id
    ensures r.None? ==> forall k :: 0 <= k < |procs| && procs[k].Some? ==> procs[k].value.id != id
  {
    if procs == [] then None
    else if procs[0].Some? && procs[0].value.id == id then Some(0)
    else
      assert forall k :: 0 < k < |procs| ==> procs[k] == procs[1..][k - 1];
      match FindProc(procs[1..], id)
      case None => None
      case Some(i) => Some(i + 1)
  }

  /** The live process slot of `id`; slot 0 is init and nothing else is found there. */
  function ProcIndex(s: Ipc, id: nat): Option<nat> {
    if |s.procs| == 0 || s.procs[0].None? then None
    else if id == INIT_PROCESS_ID then Some(0)
    else
      var found := FindProc(s.procs, id);
      if found == Some(0) then None else found
  }

  predicate HasEndpoint(c: Option<Chan>, o: ObjectId) {
    c.Some? && (c.value.a == o || c.value.b == o)
  }

  function FindChan(chans: seq<Option<Chan>>, o: ObjectId): (r: Option<nat>)
    ensures r.Some? ==> r.value < |chans| && HasEndpoint(chans[r.value], o) && forall k :: 0 <= k < r.value ==> !HasEndpoint(chans[k], o)
    ensures r.None? ==> forall k :: 0 <= k < |chans| ==> !HasEndpoint(chans[k], o)
  {
    if chans == [] then None
    else if HasEndpoint(chans[0], o) then Some(0)
    else
      assert forall k :: 0 < k < |chans| ==> chans[k] == chans[1..][k - 1];
      match FindChan(chans[1..], o)
      case None => None
      case Some(i) => Some(i + 1)
  }

  /** The Channel and endpoint a process handle names. */
  function Locate(s: Ipc, i: nat, h: Handle): (r: Result<(nat, ObjectId), IpcError>)
    requires i < |s.procs| && s.procs[i].Some?
    ensures r.Ok? ==> r.value.0 < |s.chans| && HasEndpoint(s.chans[r.value.0], r.value.1)
  {
    match Entry(s.procs[i].value.table, s.reg, h)
    case Err(e) => Err(HandleFailure(e))
    case Ok(c) =>
      if c.target.kind != ChannelEndpoint then Err(InvalidEndpoint)
      else match FindChan(s.chans, c.target)
        case None => Err(InvalidEndpoint)
        case Some(j) => Ok((j, c.target))
  }

  // ----- Updates -----

  function PutTable(s: Ipc, i: nat, t: Table): Ipc
    requires i < |s.procs| && s.procs[i].Some?
  {
    s.(procs := s.procs[i := Some(s.procs[i].value.(table := t))])
  }

  function PutChan(s: Ipc, j: nat, c: Option<Chan>): Ipc
    requires j < |s.chans|
  {
    s.(chans := s.chans[j := c])
  }

  // ----- Bootstrap -----

  function InitState(): Ipc {
    Ipc(seq(OBJECT_CAPACITY, _ => EMPTY_OBJECT_SLOT), seq(MAX_USER_PROCESSES, _ => None),
        seq(CHANNEL_CAPACITY, _ => None), seq(MAX_WAIT_ITEMS, _ => None))
  }

  function EmptyTable(): Table {
    seq(HANDLE_CAPACITY, _ => EMPTY_HANDLE_SLOT)
  }

  /** The first operation creates the init process in slot 0. */
  function Booted(s: Ipc): Ipc {
    if |s.procs| == 0 || s.procs[0].Some? then s
    else match Create(s.reg, AddressSpace)
      case (_, Err(_)) => s
      case (reg, Ok(space)) => s.(reg := reg, procs := s.procs[0 := Some(Proc(INIT_PROCESS_ID, space, EmptyTable()))])
  }

  // ----- Operations -----

  /** Allocate both endpoint objects, or neither. */
  function CreateEndpoints(reg: Slots): (Slots, Result<(ObjectId, ObjectId), HandleError>) {
    match Create(reg, ChannelEndpoint)
    case (_, Err(e)) => (reg, Err(e))
    case (r1, Ok(a)) =>
      match Create(r1, ChannelEndpoint)
      case (_, Err(e)) => (Release(r1, a).0, Err(e))
      case (r2, Ok(b)) => (r2, Ok((a, b)))
  }

  /** Allocate the Channel object and its two endpoints, or none of them. */
  function CreateThree(reg: Slots): (Slots, Result<(ObjectId, ObjectId, ObjectId), HandleError>) {
    match Create(reg, Channel)
    case (_, Err(e)) => (reg, Err(e))
    case (r1, Ok(c)) =>
      match CreateEndpoints(r1)
      case (r2, Err(e)) => (Release(r2, c).0, Err(e))
      case (r2, Ok((a, b))) => (r2, Ok((c, a, b)))
  }

  const ENDPOINT_RIGHTS: Rights := {Read, Write, Wait, Transfer}

  /** Hand both endpoints to one table, or neither. */
  function InsertTwo(t: Table, reg: Slots, a: ObjectId, b: ObjectId): (Table, Slots, Result<(Handle, Handle), HandleError>) {
    match Insert(t, reg, a, ENDPOINT_RIGHTS)
    case (t1, r1, Err(e)) => (t1, r1, Err(e))
    case (t1, r1, Ok(first)) =>
      match Insert(t1, r1, b, ENDPOINT_RIGHTS)
      case (t2, r2, Ok(second)) => (t2, r2, Ok((first, second)))
      case (t2, r2, Err(e)) => var (t3, r3, _) := CloseHandle(t2, r2, first); (t3, r3, Err(e))
  }

  function CreatePair(s: Ipc, pid: nat): (Ipc, Result<(Handle, Handle), IpcError>) {
    var s0 := Booted(s);
    match ProcIndex(s0, pid)
    case None => (s0, Err(InvalidProcess))
    case Some(i) =>
      match FirstNone(s0.chans)
      case None => (s0, Err(Capacity))
      case Some(j) =>
        match CreateThree(s0.reg)
        case (r, Err(e)) => (s0.(reg := r), Err(HandleFailure(e)))
        case (r, Ok((c, a, b))) =>
          match InsertTwo(s0.procs[i].value.table, r, a, b)
          case (t, r', Err(e)) => (PutTable(s0, i, t).(reg := ReleaseAll(r', [a, b, c])), Err(HandleFailure(e)))
          case (t, r', Ok(handles)) =>
            (PutChan(PutTable(s0, i, t), j, Some(Chan(c, a, b, [], []))).(reg := r'), Ok(handles))
  }

  /** Register a spawned process and move one endpoint of init into it. */
  function Spawn(s: Ipc, parent: nat, child: nat, endpoint: Handle, rights: Rights): (Ipc, Result<Handle, IpcError>) {
    var s0 := Booted(s);
    if parent != INIT_PROCESS_ID || child <= INIT_PROCESS_ID then (s0, Err(InvalidProcess))
    else if |s0.procs| == 0 || s0.procs[0].None? then (s0, Err(InvalidProcess))
    else if ProcIndex(s0, child).Some? then (s0, Err(InvalidProcess))
    else match FirstNone(s0.procs)
      case None => (s0, Err(Capacity))
      case Some(slot) =>
        match Locate(s0, 0, endpoint)
        case Err(e) => (s0, Err(e))
        case Ok(_) =>
          match Create(s0.reg, AddressSpace)
          case (_, Err(e)) => (s0, Err(HandleFailure(e)))
          case (r, Ok(space)) =>
            match BeginMove(s0.procs[0].value.table, r, endpoint, rights)
            case (_, Err(e)) => (s0.(reg := Release(r, space).0), Err(HandleFailure(e)))
            case (t, Ok(token)) =>
              var installed := Install(EmptyTable(), token);
              if installed.1.Err? then (s0, Err(HandleFailure(installed.1.error)))
              else
                var s1 := PutTable(s0, 0, t).(reg := r);
                (s1.(procs := s1.procs[slot := Some(Proc(child, space, installed.0))]), Ok(installed.1.value))
  }

  /** One requested transfer; `rights` is `None` for undefined ABI bits. */
  datatype TransferRequest = TransferRequest(source: Handle, rights: Option<Rights>, reserved: nat)

  datatype RawRequest = RawRequest(header: Header, payloadLen: nat, transferCount: nat, payload: seq<Byte>, transfers: seq<TransferRequest>)

  /** The fixed-size request of the ABI; the two counts come from user space unchecked. */
  type SendRequest = r: RawRequest | |r.payload| == MAX_INLINE_PAYLOAD && |r.transfers| == MAX_TRANSFER_HANDLES
    witness RawRequest(Header(0, 0, 0, 0, 0), 0, 0, seq(MAX_INLINE_PAYLOAD, _ => 0),
                       seq(MAX_TRANSFER_HANDLES, _ => TransferRequest(Handle(0, 0), None, 0)))

  predicate WellFormed(r: SendRequest) {
    && r.payloadLen <= MAX_INLINE_PAYLOAD && r.transferCount <= MAX_TRANSFER_HANDLES
    && forall k :: 0 <= k < r.transferCount ==> r.transfers[k].reserved == 0 && r.transfers[k].rights.Some?
  }

  function Dispositions(r: SendRequest): (ds: seq<Disposition>)
    requires WellFormed(r)
    ensures |ds| == r.transferCount
  {
    seq(r.transferCount, k requires 0 <= k < r.transferCount =>
      Disposition(r.transfers[k].source, r.transfers[k].rights.value))
  }

  function Outbound(c: Chan, sender: ObjectId): seq<Message> {
    if sender == c.a then c.toB else c.toA
  }

  function Enqueued(c: Chan, sender: ObjectId, m: Message): Chan {
    if sender == c.a then c.(toB := c.toB + [m]) else c.(toA := c.toA + [m])
  }

  function Peer(c: Chan, e: ObjectId): ObjectId {
    if e == c.a then c.b else c.a
  }

  /** Registrations left after a READABLE notification on `o`. */
  function Unwaited(regs: Registrations, o: ObjectId): Registrations {
    seq(|regs|, i requires 0 <= i < |regs| =>
      if regs[i].Some? && Hit(regs, regs[i].value, o, {Readable}) then None else regs[i])
  }

  function WokenBy(regs: Registrations, o: ObjectId): set<nat> {
    set i | 0 <= i < |regs| && Matches(regs[i], o, {Readable}) :: regs[i].value.waiter
  }

  function ChannelSend(s: Ipc, i: nat, j: nat, e: ObjectId, endpoint: Handle, r: SendRequest): (Ipc, Result<set<nat>, IpcError>)
    requires i < |s.procs| && s.procs[i].Some? && j < |s.chans| && HasEndpoint(s.chans[j], e) && WellFormed(r)
  {
    var p, c := s.procs[i].value, s.chans[j].value;
    match Require(p.table, s.reg, endpoint, ChannelEndpoint, {Write})
    case Err(error) => (s, Err(ChannelFailure(FromHandleError(error))))
    case Ok(_) =>
      if |Outbound(c, e)| == MAX_QUEUE then (s, Err(ChannelFailure(QueueFull)))
      else match CheckAll(p.table, s.reg, Dispositions(r), 0)
        case Err(None) => (s, Err(ChannelFailure(DuplicateTransfer)))
        case Err(Some(error)) => (s, Err(ChannelFailure(FromHandleError(error))))
        case Ok(_) =>
          var (t, tokens) := MoveAll(p.table, s.reg, Dispositions(r));
          var m := Message(p.id, r.header, r.payload[..r.payloadLen], tokens);
          var s1 := PutChan(PutTable(s, i, t), j, Some(Enqueued(c, e, m)));
          (s1.(regs := Unwaited(s.regs, Peer(c, e))), Ok(WokenBy(s.regs, Peer(c, e))))
  }

  function Send(s: Ipc, pid: nat, endpoint: Handle, r: SendRequest): (Ipc, Result<set<nat>, IpcError>) {
    var s0 := Booted(s);
    match ProcIndex(s0, pid)
    case None => (s0, Err(InvalidProcess))
    case Some(i) =>
      if !WellFormed(r) then (s0, Err(InvalidRequest))
      else match Locate(s0, i, endpoint)
        case Err(error) => (s0, Err(error))
        case Ok((j, e)) =>
          var peer := Peer(s0.chans[j].value, e);
          if HandleRefs(s0, peer) + EscrowRefs(s0, peer) == 0 then (s0, Err(PeerUnreachable))
          else ChannelSend(s0, i, j, e, endpoint, r)
  }

  function Inbound(c: Chan, receiver: ObjectId): seq<Message> {
    if receiver == c.a then c.toA else c.toB
  }

  function Dequeued(c: Chan, receiver: ObjectId): Chan
    requires Inbound(c, receiver) != []
  {
    if receiver == c.a then c.(toA := c.toA[1..]) else c.(toB := c.toB[1..])
  }

  /** The preflight of `receive`: the first token whose object no longer validates. */
  function FirstInvalid(reg: Slots, tokens: seq<Capability>): (r: Option<HandleError>)
    ensures r.None? <==> forall k :: 0 <= k < |tokens| ==> Live(reg, tokens[k].target)
  {
    if tokens == [] then None
    else match Validate(reg, tokens[0].target, tokens[0].target.kind)
      case Err(e) => Some(e)
      case Ok(_) => FirstInvalid(reg, tokens[1..])
  }

  datatype Received = Received(sender: nat, header: Header, payload: seq<Byte>, handles: seq<Handle>)

  function Receive(s: Ipc, pid: nat, endpoint: Handle): (Ipc, Result<Option<Received>, IpcError>) {
    var s0 := Booted(s);
    match ProcIndex(s0, pid)
    case None => (s0, Err(InvalidProcess))
    case Some(i) =>
      match Locate(s0, i, endpoint)
      case Err(error) => (s0, Err(error))
      case Ok((j, e)) =>
        var p, c := s0.procs[i].value, s0.chans[j].value;
        match Require(p.table, s0.reg, endpoint, ChannelEndpoint, {Read})
        case Err(error) => (s0, Err(ChannelFailure(FromHandleError(error))))
        case Ok(_) =>
          if Inbound(c, e) == [] then (s0, Ok(None))
          else
            var m := Inbound(c, e)[0];
            if FreeCount(p.table) < |m.tokens| then (s0, Err(ChannelFailure(ChReceiverFull)))
            else if FirstInvalid(s0.reg, m.tokens).Some? then
              (s0, Err(ChannelFailure(FromHandleError(FirstInvalid(s0.reg, m.tokens).value))))
            else
              var (t, handles) := InstallAll(p.table, m.tokens);
              (PutChan(PutTable(s0, i, t), j, Some(Dequeued(c, e))),
               Ok(Some(Received(m.sender, m.header, m.payload, handles))))
  }

  datatype WaitOutcome = IsReadable | IsBlocked

  function WaitReadable(s: Ipc, pid: nat, endpoint: Handle, waiter: nat, blocks: bool): (Ipc, Result<WaitOutcome, IpcError>) {
    var s0 := Booted(s);
    match ProcIndex(s0, pid)
    case None => (s0, Err(InvalidProcess))
    case Some(i) =>
      match Locate(s0, i, endpoint)
      case Err(error) => (s0, Err(error))
      case Ok((j, e)) =>
        match Require(s0.procs[i].value.table, s0.reg, endpoint, ChannelEndpoint, {Wait})
        case Err(error) => (s0, Err(ChannelFailure(FromHandleError(error))))
        case Ok(_) =>
          if Inbound(s0.chans[j].value, e) != [] then (s0, Ok(IsReadable))
          else
            var cleared := ClearWaiter(s0.regs, waiter);
            if Occupied(cleared) + 1 > MAX_WAIT_WAKEUPS then (s0.(regs := cleared), Err(WaitFailure(TooMany)))
            else
              var placed := Place(cleared, Registration(waiter, 1, e, {Readable}, 0));
              if blocks then (s0.(regs := placed), Ok(IsBlocked))
              else (s0.(regs := ClearWaiter(placed, waiter)), Err(WaitFailure(WaitError.Invalid)))
  }

  function CancelWaiter(s: Ipc, waiter: nat): Ipc {
    s.(regs := ClearWaiter(s.regs, waiter))
  }

  // ----- Reachability and collection -----

  /** Some process handle names an endpoint of Channel `i`. */
  predicate Root(s: Ipc, i: nat) {
    i < |s.chans| && s.chans[i].Some? && HandleRefs(s, s.chans[i].value.a) + HandleRefs(s, s.chans[i].value.b) > 0
  }

  /** A message queued in Channel `i` carries an endpoint of Channel `j`. */
  predicate Edge(s: Ipc, i: nat, j: nat) {
    && i < |s.chans| && j < |s.chans| && s.chans[i].Some? && s.chans[j].Some?
    && Escrow(s.chans[i].value, s.chans[j].value.a) + Escrow(s.chans[i].value, s.chans[j].value.b) > 0
  }

  ghost predicate Path(s: Ipc, path: seq<nat>) {
    && path != [] && Root(s, path[0])
    && forall k :: 0 < k < |path| ==> Edge(s, path[k - 1], path[k])
  }

  /** Reachable from a process handle through queued endpoint transfers. */
  ghost predicate Reachable(s: Ipc, i: nat) {
    exists path :: Path(s, path) && path[|path| - 1] == i
  }

  function TokenObjects(cs: seq<Capability>): seq<ObjectId> {
    if cs == [] then [] else [cs[0].target] + TokenObjects(cs[1..])
  }

  function QueueObjects(q: seq<Message>): seq<ObjectId> {
    if q == [] then [] else TokenObjects(q[0].tokens) + QueueObjects(q[1..])
  }

  /** What dropping a Channel releases, in order. */
  function ChanObjects(c: Chan): seq<ObjectId> {
    QueueObjects(c.toB) + QueueObjects(c.toA) + [c.a, c.b, c.id]
  }

  ghost predicate Kept(s: Ipc, i: nat) {
    i < |s.chans| && s.chans[i].Some? && Reachable(s, i)
  }

  /** References released by collecting the first `n` Channel slots. */
  ghost function Garbage(s: Ipc, n: nat): seq<ObjectId>
    requires n <= |s.chans|
  {
    if n == 0 then []
    else Garbage(s, n - 1)
         + (if s.chans[n - 1].Some? && !Reachable(s, n - 1) then ChanObjects(s.chans[n - 1].value) else [])
  }

  ghost function Survivors(s: Ipc): seq<Option<Chan>> {
    seq(|s.chans|, i requires 0 <= i < |s.chans| => if Kept(s, i) then s.chans[i] else None)
  }

  ghost function Collect(s: Ipc): Ipc {
    s.(reg := ReleaseAll(s.reg, Garbage(s, |s.chans|)), chans := Survivors(s))
  }

  ghost function CloseEndpoint(s: Ipc, pid: nat, h: Handle): (Ipc, Result<(), IpcError>) {
    var s0 := Booted(s);
    match ProcIndex(s0, pid)
    case None => (s0, Err(InvalidProcess))
    case Some(i) =>
      match Locate(s0, i, h)
      case Err(error) => (s0, Err(error))
      case Ok(_) =>
        match CloseHandle(s0.procs[i].value.table, s0.reg, h)
        case (_, _, Err(error)) => (s0, Err(HandleFailure(error)))
        case (t, r, Ok(_)) => (Collect(PutTable(s0, i, t).(reg := r)), Ok(()))
  }

  /** Drop a process: every handle reference and its address space. */
  function Removed(s: Ipc, i: nat): Ipc
    requires i < |s.procs| && s.procs[i].Some?
  {
    s.(reg := ReleaseAll(s.reg, TableObjects(s.procs[i].value.table) + [s.procs[i].value.space]),
       procs := s.procs[i := None])
  }

  ghost function ExitProcess(s: Ipc, pid: nat): (Ipc, Result<(), IpcError>) {
    if pid == INIT_PROCESS_ID then (s, Err(InvalidProcess))
    else match ProcIndex(s, pid)
      case None => (s, Err(InvalidProcess))
      case Some(i) => (Collect(Removed(s, i)), Ok(()))
  }
}
