/** Rights, packed handle values and the per-process handle table. */
module Handles {
  import opened Prelude
  import opened Counts
  import opened Objects

  // ----- Rights -----

  datatype Right = Read | Write | Map | Transfer | Control | Duplicate | Wait | Signal | Execute

  type Rights = set<Right>

  function Bit(r: Right): bv32 {
    match r
    case Read => 0x1
    case Write => 0x2
    case Map => 0x4
    case Transfer => 0x8
    case Control => 0x10
    case Duplicate => 0x20
    case Wait => 0x40
    case Signal => 0x80
    case Execute => 0x100
  }

  const KNOWN_RIGHTS: bv32 := 0x1ff

  /** ABI bits to a rights set; undefined authority is rejected. */
  function RightsFromBits(bits: bv32): Option<Rights> {
    if bits & !KNOWN_RIGHTS == 0 then Some(set r: Right | bits & Bit(r) != 0) else None
  }

  /** Set inclusion is exactly the kernel's `available & required == required`. */
  lemma RightsBitsAgree(available: bv32, required: bv32)
    requires RightsFromBits(available).Some? && RightsFromBits(required).Some?
    ensures RightsFromBits(required).value <= RightsFromBits(available).value
            <==> available & required == required
  {
    if RightsFromBits(required).value <= RightsFromBits(available).value {
      BitsIncluded(available, required);
    } else {
      BitsMissing(available, required);
    }
  }

  lemma BitsMissing(available: bv32, required: bv32)
    requires RightsFromBits(available).Some? && RightsFromBits(required).Some?
    requires !(RightsFromBits(required).value <= RightsFromBits(available).value)
    ensures available & required != required
  {
    var x :| x in RightsFromBits(required).value && x !in RightsFromBits(available).value;
    BitMissing(available, required, Bit(x));
  }

  lemma BitsIncluded(available: bv32, required: bv32)
    requires RightsFromBits(available).Some? && RightsFromBits(required).Some?
    requires RightsFromBits(required).value <= RightsFromBits(available).value
    ensures available & required == required
  {
    KnownBits(required);
    hide RightsFromBits;
    Included(available, required, Read, 0x1);
    Included(available, required, Write, 0x2);
    Included(available, required, Map, 0x4);
    Included(available, required, Transfer, 0x8);
    Included(available, required, Control, 0x10);
    Included(available, required, Duplicate, 0x20);
    Included(available, required, Wait, 0x40);
    Included(available, required, Signal, 0x80);
    Included(available, required, Execute, 0x100);
    NineBits(available, required);
  }

  lemma KnownBits(bits: bv32)
    requires RightsFromBits(bits).Some?
    ensures bits & !KNOWN_RIGHTS == 0
  {
  }

  /** For a single bit, membership is inclusion. */
  lemma Included(available: bv32, required: bv32, x: Right, bit: bv32)
    requires RightsFromBits(available).Some? && RightsFromBits(required).Some?
    requires x in RightsFromBits(required).value ==> x in RightsFromBits(available).value
    requires bit == Bit(x)
    ensures required & bit & !available == 0
  {
  }

  lemma NineBits(available: bv32, required: bv32)
    requires required & !KNOWN_RIGHTS == 0
    requires required & 0x1 & !available == 0 && required & 0x2 & !available == 0 && required & 0x4 & !available == 0
    requires required & 0x8 & !available == 0 && required & 0x10 & !available == 0 && required & 0x20 & !available == 0
    requires required & 0x40 & !available == 0 && required & 0x80 & !available == 0 && required & 0x100 & !available == 0
    ensures available & required == required
  {
  }

  lemma BitMissing(available: bv32, required: bv32, bit: bv32)
    requires required & bit != 0 && available & bit == 0
    ensures available & required != required
  {
  }

  // ----- Handle values -----

  datatype Handle = Handle(slot: nat, generation: nat)

  const SLOT_SPAN: nat := 0x1_0000_0000

  function Raw(h: Handle): nat {
    h.generation * SLOT_SPAN + h.slot
  }

  function FromRaw(raw: nat): Handle {
    Handle(raw % SLOT_SPAN, raw / SLOT_SPAN)
  }

  /** Packing is a bijection, so comparing raw values compares handles. */
  lemma HandlePacking(h: Handle, raw: nat)
    requires h.slot <= U32_MAX && h.generation <= U32_MAX && raw <= U64_MAX
    ensures FromRaw(Raw(h)) == h && Raw(h) <= U64_MAX
    ensures Raw(FromRaw(raw)) == raw && FromRaw(raw).slot <= U32_MAX && FromRaw(raw).generation <= U32_MAX
  {
  }

  // ----- Tables as values -----

  datatype Capability = Capability(target: ObjectId, rights: Rights)

  datatype HandleSlot = HandleSlot(generation: nat, capability: Option<Capability>)

  type Table = seq<HandleSlot>

  const EMPTY_HANDLE_SLOT := HandleSlot(1, None)

  predicate TableWf(t: Table) {
    forall i :: 0 <= i < |t| ==> 1 <= t[i].generation <= U32_MAX
  }

  /** References to `o` held by one slot, and by a whole table. */
  function SlotRefs(o: ObjectId): HandleSlot -> nat {
    (s: HandleSlot) => if s.capability.Some? then One(s.capability.value.target, o) else 0
  }

  function TableRefs(t: Table, o: ObjectId): nat {
    Total(SlotRefs(o), t)
  }

  function SlotOf(t: Table, h: Handle): Result<nat, HandleError> {
    if h.slot >= |t| then Err(Invalid)
    else if h.generation == 0 || t[h.slot].generation != h.generation then Err(Stale)
    else Ok(h.slot)
  }

  predicate Resolves(t: Table, h: Handle) {
    SlotOf(t, h).Ok? && t[h.slot].capability.Some?
  }

  /** A handle value whose slot has moved past it. */
  predicate HandleSpent(t: Table, h: Handle) {
    && h.slot < |t|
    && (t[h.slot].generation > h.generation
        || (t[h.slot].generation == h.generation == U32_MAX && t[h.slot].capability.None?))
  }

  /** How a slot may age: generations never go back, a filled slot keeps its
      capability until its generation moves on, and an exhausted slot stays empty. */
  predicate SlotAged(before: HandleSlot, after: HandleSlot) {
    || after.generation > before.generation
    || (after.generation == before.generation
        && (|| after.capability == before.capability
            || (before.capability.None? && before.generation != U32_MAX)
            || (before.generation == U32_MAX && after.capability.None?)))
  }

  predicate TableEvolved(before: Table, after: Table) {
    |before| == |after| && forall i :: 0 <= i < |before| ==> SlotAged(before[i], after[i])
  }

  /** A handle that stops resolving is spent for good, and until then it names the same capability. */
  lemma HandlesNeverReturn(before: Table, after: Table, h: Handle)
    requires TableEvolved(before, after)
    ensures Resolves(before, h) && !Resolves(after, h) ==> HandleSpent(after, h)
    ensures Resolves(before, h) && Resolves(after, h) ==> after[h.slot].capability == before[h.slot].capability
    ensures HandleSpent(before, h) ==> HandleSpent(after, h) && !Resolves(after, h)
  {
    if h.slot < |before| {
      assert SlotAged(before[h.slot], after[h.slot]);
    }
  }

  function Entry(t: Table, reg: Slots, h: Handle): Result<Capability, HandleError> {
    match SlotOf(t, h)
    case Err(e) => Err(e)
    case Ok(i) =>
      if t[i].capability.None? then Err(Closed)
      else
        var c := t[i].capability.value;
        match Validate(reg, c.target, c.target.kind)
        case Err(e) => Err(e)
        case Ok(_) => Ok(c)
  }

  function Require(t: Table, reg: Slots, h: Handle, kind: ObjectKind, rights: Rights): Result<ObjectId, HandleError> {
    match Entry(t, reg, h)
    case Err(e) => Err(e)
    case Ok(c) =>
      if c.target.kind != kind then Err(WrongType)
      else if !(rights <= c.rights) then Err(RightsMissing)
      else Ok(c.target)
  }

  predicate FreeSlot(s: HandleSlot) {
    s.capability.None? && s.generation != U32_MAX
  }

  function FirstFree(t: Table): (r: Option<nat>)
    ensures r.Some? ==> r.value < |t| && FreeSlot(t[r.value]) && forall k :: 0 <= k < r.value ==> !FreeSlot(t[k])
    ensures r.None? ==> forall k :: 0 <= k < |t| ==> !FreeSlot(t[k])
  {
    if |t| == 0 then None
    else if FreeSlot(t[0]) then Some(0)
    else
      assert forall k :: 0 < k < |t| ==> t[k] == t[1..][k - 1];
      match FirstFree(t[1..])
      case None => None
      case Some(i) => Some(i + 1)
  }

  function FreeCount(t: Table): nat {
    if t == [] then 0 else (if FreeSlot(t[0]) then 1 else 0) + FreeCount(t[1..])
  }

  function Install(t: Table, c: Capability): (Table, Result<Handle, HandleError>) {
    match FirstFree(t)
    case None =>
      (t, Err(if exists i :: 0 <= i < |t| && t[i].capability.None? then GenerationExhausted else TableFull))
    case Some(i) => (t[i := t[i].(capability := Some(c))], Ok(Handle(i, t[i].generation)))
  }

  function Insert(t: Table, reg: Slots, o: ObjectId, rights: Rights): (Table, Slots, Result<Handle, HandleError>) {
    match Retain(reg, o)
    case (_, Err(e)) => (t, reg, Err(e))
    case (retained, Ok(_)) =>
      match Install(t, Capability(o, rights))
      case (t', Ok(h)) => (t', retained, Ok(h))
      case (_, Err(e)) => (t, Release(retained, o).0, Err(e))
  }

  /** The table after slot `i` gives its capability up. */
  function Vacated(t: Table, i: nat): Table
    requires i < |t|
  {
    t[i := HandleSlot(t[i].generation + 1, None)]
  }

  function CloseHandle(t: Table, reg: Slots, h: Handle): (Table, Slots, Result<(), HandleError>) {
    match SlotOf(t, h)
    case Err(e) => (t, reg, Err(e))
    case Ok(i) =>
      if t[i].capability.None? then (t, reg, Err(Closed))
      else if t[i].generation == U32_MAX then (t, reg, Err(GenerationExhausted))
      else
        match Release(reg, t[i].capability.value.target)
        case (_, Err(e)) => (t, reg, Err(e))
        case (reg', Ok(_)) => (Vacated(t, i), reg', Ok(()))
  }

  function TableObjects(t: Table): seq<ObjectId> {
    if t == [] then []
    else (if t[0].capability.Some? then [t[0].capability.value.target] else []) + TableObjects(t[1..])
  }

  function CheckMove(t: Table, reg: Slots, h: Handle, requested: Rights): Result<Capability, HandleError> {
    match Entry(t, reg, h)
    case Err(e) => Err(e)
    case Ok(c) =>
      if Transfer !in c.rights || !(requested <= c.rights) then Err(RightsMissing)
      else if t[h.slot].generation == U32_MAX then Err(GenerationExhausted)
      else Ok(c)
  }

  /** Take the capability out of the table, attenuated to `requested`. */
  function BeginMove(t: Table, reg: Slots, h: Handle, requested: Rights): (Table, Result<Capability, HandleError>) {
    match CheckMove(t, reg, h, requested)
    case Err(e) => (t, Err(e))
    case Ok(c) => (Vacated(t, h.slot), Ok(Capability(c.target, requested)))
  }

  function InstallToken(t: Table, reg: Slots, c: Capability): (Table, Result<Handle, HandleError>) {
    match Validate(reg, c.target, c.target.kind)
    case Err(e) => (t, Err(e))
    case Ok(_) => Install(t, c)
  }

  // ----- Batches: the transfers of one message -----

  datatype Disposition = Disposition(source: Handle, rights: Rights)

  /** The preflight of `send`: every source distinct and movable, first failure wins. */
  function CheckAll(t: Table, reg: Slots, ds: seq<Disposition>, n: nat): Result<(), Option<HandleError>>
    requires n <= |ds|
    decreases |ds| - n
  {
    if n == |ds| then Ok(())
    else if exists k :: 0 <= k < n && ds[k].source == ds[n].source then Err(None)
    else match CheckMove(t, reg, ds[n].source, ds[n].rights)
      case Err(e) => Err(Some(e))
      case Ok(_) => CheckAll(t, reg, ds, n + 1)
  }

  /** Move every disposition out of the table, in order. */
  function MoveAll(t: Table, reg: Slots, ds: seq<Disposition>): (Table, seq<Capability>)
    decreases |ds|
  {
    if ds == [] then (t, [])
    else
      match BeginMove(t, reg, ds[0].source, ds[0].rights)
      case (_, Err(_)) => (t, [])
      case (t1, Ok(c)) => var (t2, cs) := MoveAll(t1, reg, ds[1..]); (t2, [c] + cs)
  }

  /** Install every token, in order. */
  function InstallAll(t: Table, cs: seq<Capability>): (Table, seq<Handle>)
    decreases |cs|
  {
    if cs == [] then (t, [])
    else
      match Install(t, cs[0])
      case (_, Err(_)) => (t, [])
      case (t1, Ok(h)) => var (t2, hs) := InstallAll(t1, cs[1..]); (t2, [h] + hs)
  }

  function CapabilityRefs(o: ObjectId): Capability -> nat {
    (c: Capability) => One(c.target, o)
  }

  function CapsRefs(cs: seq<Capability>, o: ObjectId): nat {
    Total(CapabilityRefs(o), cs)
  }

  // ----- What each operation does to the table's references -----

  lemma {:induction false} TableObjectsRefs(t: Table, o: ObjectId)
    ensures multiset(TableObjects(t))[o] == TableRefs(t, o)
  {
    if t != [] {
      TableObjectsRefs(t[1..], o);
    }
  }

  lemma TableHolds(t: Table, o: ObjectId)
    ensures TableRefs(t, o) > 0 <==> exists i :: 0 <= i < |t| && t[i].capability.Some? && t[i].capability.value.target == o
  {
    TotalPositive(SlotRefs(o), t);
    if i :| 0 <= i < |t| && t[i].capability.Some? && t[i].capability.value.target == o {
      assert SlotRefs(o)(t[i]) > 0;
    }
  }

  lemma InstallRefs(t: Table, c: Capability, o: ObjectId)
    ensures Install(t, c).1.Err? ==> Install(t, c).0 == t
    ensures Install(t, c).1.Ok? ==> TableRefs(Install(t, c).0, o) == TableRefs(t, o) + One(c.target, o)
  {
    var free := FirstFree(t);
    if free.Some? {
      TotalUpdate(SlotRefs(o), t, free.value, t[free.value].(capability := Some(c)));
    }
  }

  /** Emptying slot `i` gives up exactly its reference. */
  lemma VacateRefs(t: Table, i: nat, o: ObjectId)
    requires i < |t| && t[i].capability.Some?
    ensures TableRefs(t, o) == TableRefs(Vacated(t, i), o) + One(t[i].capability.value.target, o)
  {
    TotalUpdate(SlotRefs(o), t, i, HandleSlot(t[i].generation + 1, None));
  }

  lemma VacateEvolved(t: Table, i: nat)
    requires TableWf(t) && i < |t| && t[i].generation < U32_MAX
    ensures TableWf(Vacated(t, i)) && TableEvolved(t, Vacated(t, i))
    ensures HandleSpent(Vacated(t, i), Handle(i, t[i].generation))
  {
  }

  // ----- Capacity -----

  lemma {:induction false} FreeCountUpdate(t: Table, i: nat, s: HandleSlot)
    requires i < |t|
    ensures FreeCount(t[i := s]) == FreeCount(t) - (if FreeSlot(t[i]) then 1 else 0) + (if FreeSlot(s) then 1 else 0)
  {
    if i == 0 {
      assert t[i := s][1..] == t[1..];
    } else {
      FreeCountUpdate(t[1..], i - 1, s);
      assert t[i := s][1..] == t[1..][i - 1 := s];
    }
  }

  lemma {:induction false} FreeCountPositive(t: Table)
    ensures FreeCount(t) > 0 <==> FirstFree(t).Some?
  {
    if t != [] {
      FreeCountPositive(t[1..]);
    }
  }

  // ----- Batch lemmas -----

  /** Distinct movable handles name distinct slots, so moving one leaves the other movable. */
  lemma MoveKeepsOther(t: Table, reg: Slots, h: Handle, rights: Rights, other: Handle, requested: Rights)
    requires CheckMove(t, reg, h, rights).Ok? && h != other
    ensures CheckMove(BeginMove(t, reg, h, rights).0, reg, other, requested).Ok?
            <==> CheckMove(t, reg, other, requested).Ok?
    ensures CheckMove(t, reg, other, requested).Ok? ==>
              CheckMove(BeginMove(t, reg, h, rights).0, reg, other, requested) == CheckMove(t, reg, other, requested)
  {
  }

  ghost predicate Movable(t: Table, reg: Slots, ds: seq<Disposition>) {
    && (forall k :: 0 <= k < |ds| ==> CheckMove(t, reg, ds[k].source, ds[k].rights).Ok?)
    && (forall j, k :: 0 <= j < k < |ds| ==> ds[j].source != ds[k].source)
  }

  lemma {:induction false} CheckAllMovable(t: Table, reg: Slots, ds: seq<Disposition>, n: nat)
    requires n <= |ds|
    requires Movable(t, reg, ds[..n])
    ensures CheckAll(t, reg, ds, n).Ok? <==> Movable(t, reg, ds)
    decreases |ds| - n
  {
    if n == |ds| {
      assert ds[..n] == ds;
    } else if exists k :: 0 <= k < n && ds[k].source == ds[n].source {
    } else {
      if CheckMove(t, reg, ds[n].source, ds[n].rights).Ok? {
        assert ds[..n + 1] == ds[..n] + [ds[n]];
        CheckAllMovable(t, reg, ds, n + 1);
      }
    }
  }

  lemma MovableRest(t: Table, reg: Slots, ds: seq<Disposition>)
    requires ds != [] && Movable(t, reg, ds)
    ensures Movable(BeginMove(t, reg, ds[0].source, ds[0].rights).0, reg, ds[1..])
    ensures forall k :: 0 < k < |ds| ==>
              CheckMove(BeginMove(t, reg, ds[0].source, ds[0].rights).0, reg, ds[k].source, ds[k].rights)
              == CheckMove(t, reg, ds[k].source, ds[k].rights)
  {
    forall k | 0 < k < |ds|
      ensures CheckMove(BeginMove(t, reg, ds[0].source, ds[0].rights).0, reg, ds[k].source, ds[k].rights)
           == CheckMove(t, reg, ds[k].source, ds[k].rights)
    {
      MoveKeepsOther(t, reg, ds[0].source, ds[0].rights, ds[k].source, ds[k].rights);
    }
  }

  /** A passed preflight moves every disposition: each comes out attenuated to
      what was asked, from a capability that carried TRANSFER, and nothing else changes. */
  lemma {:induction false} MoveAllSlots(t: Table, reg: Slots, ds: seq<Disposition>)
    requires TableWf(t) && Movable(t, reg, ds)
    ensures |MoveAll(t, reg, ds).1| == |ds|
    ensures TableWf(MoveAll(t, reg, ds).0) && TableEvolved(t, MoveAll(t, reg, ds).0)
    ensures forall k :: 0 <= k < |ds| ==>
              MoveAll(t, reg, ds).1[k]
              == Capability(CheckMove(t, reg, ds[k].source, ds[k].rights).value.target, ds[k].rights)
    ensures forall i :: 0 <= i < |t| ==>
              || MoveAll(t, reg, ds).0[i] == t[i]
              || (MoveAll(t, reg, ds).0[i].capability.None?
                  && t[i].capability.Some? && Transfer in t[i].capability.value.rights
                  && exists k :: 0 <= k < |ds| && ds[k].source == Handle(i, t[i].generation))
    decreases |ds|
  {
    if ds != [] {
      var t1 := BeginMove(t, reg, ds[0].source, ds[0].rights).0;
      VacateEvolved(t, ds[0].source.slot);
      MovableRest(t, reg, ds);
      MoveAllSlots(t1, reg, ds[1..]);
      forall i | 0 <= i < |t| && MoveAll(t, reg, ds).0[i] != t[i]
        ensures exists k :: 0 <= k < |ds| && ds[k].source == Handle(i, t[i].generation)
      {
        if i == ds[0].source.slot {
          assert ds[0].source == Handle(i, t[i].generation);
        } else {
          var k :| 0 <= k < |ds[1..]| && ds[1..][k].source == Handle(i, t1[i].generation);
          assert ds[k + 1].source == Handle(i, t[i].generation);
        }
      }
    }
  }

  /** ... and the references move with them. */
  lemma {:induction false} MoveAllRefs(t: Table, reg: Slots, ds: seq<Disposition>, o: ObjectId)
    requires Movable(t, reg, ds)
    ensures TableRefs(t, o) == TableRefs(MoveAll(t, reg, ds).0, o) + CapsRefs(MoveAll(t, reg, ds).1, o)
    decreases |ds|
  {
    if ds != [] {
      var t1 := BeginMove(t, reg, ds[0].source, ds[0].rights).0;
      VacateRefs(t, ds[0].source.slot, o);
      MovableRest(t, reg, ds);
      MoveAllRefs(t1, reg, ds[1..], o);
      var cs, more := MoveAll(t, reg, ds).1, MoveAll(t1, reg, ds[1..]).1;
      assert cs == [cs[0]] + more && cs[1..] == more;
    }
  }

  /** With capacity for all, every token is installed. */
  lemma {:induction false} InstallAllRefs(t: Table, cs: seq<Capability>, o: ObjectId)
    requires FreeCount(t) >= |cs|
    ensures TableRefs(InstallAll(t, cs).0, o) == TableRefs(t, o) + CapsRefs(cs, o)
    decreases |cs|
  {
    if cs != [] {
      FreeCountPositive(t);
      InstallRefs(t, cs[0], o);
      var (t1, h) := Install(t, cs[0]);
      FreeCountUpdate(t, h.value.slot, t1[h.value.slot]);
      InstallAllRefs(t1, cs[1..], o);
    }
  }

  /** Filled slots stay as they were, and a filled-in slot holds one of the tokens. */
  lemma {:induction false} InstallAllSlots(t: Table, cs: seq<Capability>)
    requires TableWf(t)
    ensures TableWf(InstallAll(t, cs).0) && TableEvolved(t, InstallAll(t, cs).0)
    ensures forall i :: 0 <= i < |t| ==>
              || InstallAll(t, cs).0[i] == t[i]
              || (t[i].capability.None? && InstallAll(t, cs).0[i].capability.Some?
                  && InstallAll(t, cs).0[i].capability.value in cs)
    decreases |cs|
  {
    if cs != [] && FirstFree(t).Some? {
      InstallAllSlots(Install(t, cs[0]).0, cs[1..]);
    }
  }

  lemma {:induction false} InstallAllCount(t: Table, cs: seq<Capability>)
    requires FreeCount(t) >= |cs|
    ensures |InstallAll(t, cs).1| == |cs|
    decreases |cs|
  {
    if cs != [] {
      FreeCountPositive(t);
      var (t1, h) := Install(t, cs[0]);
      FreeCountUpdate(t, h.value.slot, t1[h.value.slot]);
      InstallAllCount(t1, cs[1..]);
    }
  }

  /** Each handle handed out is fresh and names exactly its token. */
  lemma {:induction false} InstallAllResolve(t: Table, cs: seq<Capability>, k: nat)
    requires TableWf(t) && k < |InstallAll(t, cs).1| <= |cs|
    ensures Resolves(InstallAll(t, cs).0, InstallAll(t, cs).1[k])
    ensures !Resolves(t, InstallAll(t, cs).1[k])
    ensures InstallAll(t, cs).0[InstallAll(t, cs).1[k].slot].capability == Some(cs[k])
    decreases |cs|
  {
    var (t1, h) := Install(t, cs[0]);
    InstallAllSlots(t1, cs[1..]);
    if k == 0 {
      assert InstallAll(t, cs).0[h.value.slot] == t1[h.value.slot];
    } else {
      InstallAllResolve(t1, cs[1..], k - 1);
    }
  }

  // ----- The table in place -----

  class HandleTable {
    var slots: Table

    constructor (capacity: nat)
      ensures slots == seq(capacity, _ => EMPTY_HANDLE_SLOT)
    {
      slots := seq(capacity, _ => EMPTY_HANDLE_SLOT);
    }

    method InstallCapability(c: Capability) returns (r: Result<Handle, HandleError>)
      modifies this
      ensures (slots, r) == Install(old(slots), c)
    {
      var i := 0;
      var vacant := false;
      while i < |slots| && !FreeSlot(slots[i])
        invariant 0 <= i <= |slots|
        invariant forall k :: 0 <= k < i ==> !FreeSlot(slots[k])
        invariant vacant <==> exists k :: 0 <= k < i && slots[k].capability.None?
      {
        if slots[i].capability.None? {
          vacant := true;
        }
        i := i + 1;
      }
      if i == |slots| {
        return Err(if vacant then GenerationExhausted else TableFull);
      }
      r := Ok(Handle(i, slots[i].generation));
      slots := slots[i := slots[i].(capability := Some(c))];
    }

    method InsertObject(registry: ObjectRegistry, o: ObjectId, rights: Rights) returns (r: Result<Handle, HandleError>)
      modifies this, registry
      ensures (slots, registry.slots, r) == Insert(old(slots), old(registry.slots), o, rights)
    {
      var retained := registry.RetainObject(o);
      if retained.Err? {
        return Err(retained.error);
      }
      r := InstallCapability(Capability(o, rights));
      if r.Err? {
        var _ := registry.ReleaseObject(o);
      }
    }

    method CloseOne(registry: ObjectRegistry, h: Handle) returns (r: Result<(), HandleError>)
      modifies this, registry
      ensures (slots, registry.slots, r) == CloseHandle(old(slots), old(registry.slots), h)
    {
      var found := SlotOf(slots, h);
      if found.Err? {
        return Err(found.error);
      }
      var i := found.value;
      if slots[i].capability.None? {
        return Err(Closed);
      }
      if slots[i].generation == U32_MAX {
        return Err(GenerationExhausted);
      }
      var released := registry.ReleaseObject(slots[i].capability.value.target);
      if released.Err? {
        return Err(released.error);
      }
      slots := Vacated(slots, i);
      r := Ok(());
    }

    /** Close every live handle of an exiting process; exhausted generations saturate. */
    method CloseEvery(registry: ObjectRegistry)
      modifies this, registry
      ensures registry.slots == ReleaseAll(old(registry.slots), TableObjects(old(slots)))
      ensures |slots| == |old(slots)|
      ensures forall i :: 0 <= i < |slots| ==> slots[i] == Scrubbed(old(slots)[i])
    {
      var i := 0;
      while i < |slots|
        invariant 0 <= i <= |slots| == |old(slots)|
        invariant slots[i..] == old(slots)[i..]
        invariant forall k :: 0 <= k < i ==> slots[k] == Scrubbed(old(slots)[k])
        invariant ReleaseAll(registry.slots, TableObjects(slots[i..]))
               == ReleaseAll(old(registry.slots), TableObjects(old(slots)))
      {
        assert slots[i..][1..] == slots[i + 1..];
        assert slots[i] == slots[i..][0] == old(slots)[i..][0] == old(slots)[i];
        ghost var tail := slots[i + 1..];
        if slots[i].capability.Some? {
          var o := slots[i].capability.value.target;
          assert TableObjects(slots[i..]) == [o] + TableObjects(tail);
          assert ([o] + TableObjects(tail))[1..] == TableObjects(tail);
          var _ := registry.ReleaseObject(o);
          slots := slots[i := Scrubbed(slots[i])];
        } else {
          assert TableObjects(slots[i..]) == [] + TableObjects(tail) == TableObjects(tail);
        }
        assert slots[i + 1..] == tail;
        assert old(slots)[i + 1..] == old(slots)[i..][1..];
        i := i + 1;
      }
    }

    /** Take a capability out for a message: only a live, transferable one moves, with
        no right added, and its handle is spent by it. The count is not touched, so the
        reference goes with the token. */
    method MoveOut(registry: ObjectRegistry, h: Handle, requested: Rights) returns (r: Result<Capability, HandleError>)
      modifies this
      ensures (slots, r) == BeginMove(old(slots), registry.slots, h, requested)
      ensures r.Ok? <==>
                && Resolves(old(slots), h) && old(slots)[h.slot].generation != U32_MAX
                && var c := old(slots)[h.slot].capability.value;
                   Live(registry.slots, c.target) && Transfer in c.rights && requested <= c.rights
      ensures r.Ok? ==> r.value == Capability(old(slots)[h.slot].capability.value.target, requested) && !Resolves(slots, h)
      ensures forall x :: x != h ==> (Resolves(slots, x) <==> Resolves(old(slots), x))
      ensures forall o :: TableRefs(old(slots), o) == TableRefs(slots, o) + if r.Ok? then One(r.value.target, o) else 0
    {
      if h.slot >= |slots| {
        return Err(Invalid);
      }
      var slot := slots[h.slot];
      if h.generation == 0 || slot.generation != h.generation {
        return Err(Stale);
      }
      if slot.capability.None? {
        return Err(Closed);
      }
      var c := slot.capability.value;
      var valid := Validate(registry.slots, c.target, c.target.kind);
      if valid.Err? {
        return Err(valid.error);
      }
      if Transfer !in c.rights || !(requested <= c.rights) {
        return Err(RightsMissing);
      }
      if slot.generation == U32_MAX {
        return Err(GenerationExhausted);
      }
      forall o
        ensures TableRefs(slots, o) == TableRefs(Vacated(slots, h.slot), o) + One(c.target, o)
      {
        VacateRefs(slots, h.slot, o);
      }
      slots := slots[h.slot := HandleSlot(slot.generation + 1, None)];
      r := Ok(Capability(c.target, requested));
    }

    method InstallMoved(registry: ObjectRegistry, c: Capability) returns (r: Result<Handle, HandleError>)
      modifies this
      ensures (slots, r) == InstallToken(old(slots), registry.slots, c)
    {
      var valid := Validate(registry.slots, c.target, c.target.kind);
      if valid.Err? {
        return Err(valid.error);
      }
      r := InstallCapability(c);
    }

    method HoldsObject(o: ObjectId) returns (found: bool)
      ensures found <==> TableRefs(slots, o) > 0
    {
      found := false;
      var i := 0;
      while i < |slots|
        invariant 0 <= i <= |slots|
        invariant found <==> exists k :: 0 <= k < i && slots[k].capability.Some? && slots[k].capability.value.target == o
      {
        if slots[i].capability.Some? && slots[i].capability.value.target == o {
          found := true;
        }
        i := i + 1;
      }
      TableHolds(slots, o);
    }

    method HasCapacity(additional: nat) returns (r: bool)
      ensures r <==> FreeCount(slots) >= additional
    {
      var count, i := 0, 0;
      while i < |slots|
        invariant 0 <= i <= |slots|
        invariant count + FreeCount(slots[i..]) == FreeCount(slots)
      {
        assert slots[i..][1..] == slots[i + 1..];
        if FreeSlot(slots[i]) {
          count := count + 1;
        }
        i := i + 1;
      }
      r := count >= additional;
    }
  }

  /** A slot after its process exits: the generation advances, saturating. */
  function Scrubbed(s: HandleSlot): HandleSlot {
    if s.capability.None? then s
    else HandleSlot(if s.generation < U32_MAX then s.generation + 1 else U32_MAX, None)
  }
}
