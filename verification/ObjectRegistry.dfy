/** The generation-tagged object registry and its reference counts. */
module Objects {
  import opened Prelude

  datatype ObjectKind = Process | AddressSpace | Vmo | Channel | ChannelEndpoint | Event | Timer

  datatype ObjectId = ObjectId(slot: nat, generation: nat, kind: ObjectKind)

  datatype HandleError =
    | Invalid
    | Stale
    | Closed
    | WrongType
    | RightsMissing
    | TableFull
    | ReceiverFull
    | GenerationExhausted
    | ObjectTableFull
    | ObjectReferenceOverflow

  datatype ObjectSlot = ObjectSlot(generation: nat, kind: Option<ObjectKind>, references: nat, retired: bool)

  type Slots = seq<ObjectSlot>

  const EMPTY_OBJECT_SLOT := ObjectSlot(1, None, 0, false)

  predicate Wf(slots: Slots) {
    forall i :: 0 <= i < |slots| ==>
      && 1 <= slots[i].generation <= U32_MAX
      && slots[i].references <= U32_MAX
      && (slots[i].kind.None? <==> slots[i].references == 0)
      && (slots[i].retired ==> slots[i].kind.None? && slots[i].generation == U32_MAX)
  }

  predicate Live(slots: Slots, o: ObjectId) {
    && o.slot < |slots|
    && slots[o.slot].generation == o.generation
    && slots[o.slot].kind == Some(o.kind)
  }

  /** An identifier whose slot has moved on: it can never be live again. */
  predicate Spent(slots: Slots, o: ObjectId) {
    && o.slot < |slots|
    && (slots[o.slot].generation > o.generation
        || (slots[o.slot].generation == o.generation && slots[o.slot].retired))
  }

  /** How a slot may age: generations never go back, and a live object keeps
      its slot until the generation moves on or the slot retires. */
  predicate Aged(before: ObjectSlot, after: ObjectSlot) {
    || after.generation > before.generation
    || (after.generation == before.generation
        && (before.retired ==> after.retired)
        && (before.kind.Some? ==> after.kind == before.kind || after.retired))
  }

  predicate Evolved(before: Slots, after: Slots) {
    |before| == |after| && forall i :: 0 <= i < |before| ==> Aged(before[i], after[i])
  }

  lemma EvolvedTrans(a: Slots, b: Slots, c: Slots)
    requires Evolved(a, b) && Evolved(b, c)
    ensures Evolved(a, c)
  {
    forall i | 0 <= i < |a|
      ensures Aged(a[i], c[i])
    {
      assert Aged(a[i], b[i]) && Aged(b[i], c[i]);
    }
  }

  /** An identifier that stops being live is spent, and a spent one stays spent. */
  lemma IdsNeverReturn(before: Slots, after: Slots, o: ObjectId)
    requires Wf(before) && Wf(after) && Evolved(before, after)
    ensures Live(before, o) && !Live(after, o) ==> Spent(after, o)
    ensures Spent(before, o) ==> Spent(after, o) && !Live(after, o)
  {
    if o.slot < |before| {
      assert Aged(before[o.slot], after[o.slot]);
    }
  }

  /** The identifier currently naming slot `i`. */
  function IdAt(slots: Slots, i: nat): ObjectId
    requires i < |slots| && slots[i].kind.Some?
  {
    ObjectId(i, slots[i].generation, slots[i].kind.value)
  }

  /** References outstanding per object, as a ledger. */
  type Ledger = ObjectId -> nat

  /** `references` counts exactly what the ledger lists, and nothing else is live. */
  ghost predicate Exact(slots: Slots, held: Ledger) {
    && Wf(slots)
    && (forall o :: held(o) > 0 ==> Live(slots, o))
    && (forall i :: 0 <= i < |slots| && slots[i].kind.Some? ==> slots[i].references == held(IdAt(slots, i)))
  }

  function Validate(slots: Slots, o: ObjectId, expected: ObjectKind): Result<(), HandleError> {
    if o.kind != expected then Err(WrongType)
    else if o.slot >= |slots| then Err(Invalid)
    else if slots[o.slot].generation != o.generation || slots[o.slot].kind != Some(expected) then Err(Stale)
    else Ok(())
  }

  function Lookup(slots: Slots, o: ObjectId): Result<nat, HandleError> {
    if o.generation == 0 then Err(Invalid)
    else if o.slot >= |slots| then Err(Invalid)
    else if slots[o.slot].generation != o.generation || slots[o.slot].kind != Some(o.kind) then Err(Stale)
    else Ok(o.slot)
  }

  predicate Vacant(slot: ObjectSlot) {
    slot.kind.None? && !slot.retired
  }

  function FirstVacant(slots: Slots): (r: Option<nat>)
    ensures r.Some? ==> r.value < |slots| && Vacant(slots[r.value]) && forall k :: 0 <= k < r.value ==> !Vacant(slots[k])
    ensures r.None? ==> forall k :: 0 <= k < |slots| ==> !Vacant(slots[k])
  {
    if |slots| == 0 then None
    else if Vacant(slots[0]) then Some(0)
    else match FirstVacant(slots[1..])
      case None =>
        assert forall k :: 0 < k < |slots| ==> slots[k] == slots[1..][k - 1];
        None
      case Some(i) =>
        assert forall k :: 0 < k < |slots| ==> slots[k] == slots[1..][k - 1];
        Some(i + 1)
  }

  function Create(slots: Slots, kind: ObjectKind): (Slots, Result<ObjectId, HandleError>) {
    match FirstVacant(slots)
    case None => (slots, Err(ObjectTableFull))
    case Some(i) =>
      (slots[i := slots[i].(kind := Some(kind), references := 1)], Ok(ObjectId(i, slots[i].generation, kind)))
  }

  function Retain(slots: Slots, o: ObjectId): (Slots, Result<(), HandleError>) {
    match Lookup(slots, o)
    case Err(e) => (slots, Err(e))
    case Ok(i) =>
      if slots[i].references == U32_MAX then (slots, Err(ObjectReferenceOverflow))
      else (slots[i := slots[i].(references := slots[i].references + 1)], Ok(()))
  }

  function Freed(slot: ObjectSlot): ObjectSlot {
    if slot.generation == U32_MAX then slot.(kind := None, references := 0, retired := true)
    else slot.(kind := None, references := 0, generation := slot.generation + 1)
  }

  function Release(slots: Slots, o: ObjectId): (Slots, Result<(), HandleError>) {
    match Lookup(slots, o)
    case Err(e) => (slots, Err(e))
    case Ok(i) =>
      if slots[i].references == 0 then (slots, Err(Stale))
      else if slots[i].references == 1 then (slots[i := Freed(slots[i])], Ok(()))
      else (slots[i := slots[i].(references := slots[i].references - 1)], Ok(()))
  }

  /** Releasing a list of references in order, ignoring failures. */
  function ReleaseAll(slots: Slots, objects: seq<ObjectId>): Slots
    decreases |objects|
  {
    if objects == [] then slots else ReleaseAll(Release(slots, objects[0]).0, objects[1..])
  }

  /** No release of the batch fails. */
  predicate AllReleased(slots: Slots, objects: seq<ObjectId>)
    decreases |objects|
  {
    objects == [] || (Release(slots, objects[0]).1.Ok? && AllReleased(Release(slots, objects[0]).0, objects[1..]))
  }

  lemma {:induction false} ReleaseAllAppend(slots: Slots, xs: seq<ObjectId>, ys: seq<ObjectId>)
    ensures ReleaseAll(slots, xs + ys) == ReleaseAll(ReleaseAll(slots, xs), ys)
    ensures AllReleased(slots, xs + ys) <==> AllReleased(slots, xs) && AllReleased(ReleaseAll(slots, xs), ys)
    decreases |xs|
  {
    if xs == [] {
      assert xs + ys == ys;
    } else {
      assert (xs + ys)[1..] == xs[1..] + ys;
      ReleaseAllAppend(Release(slots, xs[0]).0, xs[1..], ys);
    }
  }

  // ----- What each operation does to the ledger -----

  function One(o: ObjectId, x: ObjectId): nat {
    if o == x then 1 else 0
  }

  lemma CreateExact(slots: Slots, kind: ObjectKind, held: Ledger)
    requires Exact(slots, held)
    ensures Create(slots, kind).1.Err? ==> Create(slots, kind).0 == slots && Create(slots, kind).1.error == ObjectTableFull
    ensures Create(slots, kind).1.Ok? ==>
              var o := Create(slots, kind).1.value;
              && Exact(Create(slots, kind).0, x => held(x) + One(o, x))
              && held(o) == 0 && o.kind == kind && !Live(slots, o) && !Spent(slots, o)
    ensures Evolved(slots, Create(slots, kind).0)
  {
    var (after, r) := Create(slots, kind);
    if r.Ok? {
      assert !Live(slots, r.value);
      forall i | 0 <= i < |after| && after[i].kind.Some?
        ensures after[i].references == held(IdAt(after, i)) + One(r.value, IdAt(after, i))
      {
        assert i != r.value.slot ==> IdAt(after, i) == IdAt(slots, i);
      }
    }
  }

  /** An object nobody holds is not live. */
  lemma UnheldDead(slots: Slots, held: Ledger, o: ObjectId)
    requires Exact(slots, held)
    ensures Live(slots, o) <==> held(o) > 0
  {
    if Live(slots, o) {
      assert IdAt(slots, o.slot) == o;
    }
  }

  lemma RetainExact(slots: Slots, o: ObjectId, held: Ledger)
    requires Exact(slots, held) && 0 < held(o) < U32_MAX
    ensures Retain(slots, o).1.Ok?
    ensures Exact(Retain(slots, o).0, x => held(x) + One(o, x))
    ensures Evolved(slots, Retain(slots, o).0)
  {
    var after := Retain(slots, o).0;
    assert IdAt(slots, o.slot) == o;
    forall i | 0 <= i < |after| && after[i].kind.Some?
      ensures after[i].references == held(IdAt(after, i)) + One(o, IdAt(after, i))
    {
      assert IdAt(after, i) == IdAt(slots, i);
    }
  }

  /** Releasing a listed reference succeeds; releasing the last one retires the identifier. */
  lemma ReleaseExact(slots: Slots, o: ObjectId, held: Ledger, held': Ledger)
    requires Exact(slots, held) && held(o) > 0
    requires forall x :: held'(x) + One(o, x) == held(x)
    ensures Release(slots, o).1.Ok?
    ensures Exact(Release(slots, o).0, held')
    ensures Evolved(slots, Release(slots, o).0)
    ensures held'(o) == 0 ==> Spent(Release(slots, o).0, o)
  {
    var after := Release(slots, o).0;
    assert IdAt(slots, o.slot) == o;
    forall x | held'(x) > 0
      ensures Live(after, x)
    {
      assert Live(slots, x);
    }
    forall i | 0 <= i < |after| && after[i].kind.Some?
      ensures after[i].references == held'(IdAt(after, i))
    {
      assert IdAt(after, i) == IdAt(slots, i);
    }
  }

  /** A whole batch of listed references is released without a failure. */
  lemma {:induction false} ReleaseAllExact(slots: Slots, objects: seq<ObjectId>, held: Ledger, held': Ledger)
    requires Exact(slots, held)
    requires forall x :: held'(x) + multiset(objects)[x] == held(x)
    ensures AllReleased(slots, objects)
    ensures Exact(ReleaseAll(slots, objects), held')
    ensures Evolved(slots, ReleaseAll(slots, objects))
    decreases |objects|
  {
    if objects == [] {
      assert forall x :: held'(x) == held(x) by {
        assert forall x :: multiset(objects)[x] == 0;
      }
    } else {
      var o, rest := objects[0], objects[1..];
      assert objects == [o] + rest;
      var mid: Ledger := x => held'(x) + multiset(rest)[x];
      assert forall x :: multiset(objects)[x] == One(o, x) + multiset(rest)[x];
      ReleaseExact(slots, o, held, mid);
      ReleaseAllExact(Release(slots, o).0, rest, mid, held');
    }
  }

  /** The registry as the kernel holds it: a fixed table updated in place. */
  class ObjectRegistry {
    var slots: Slots

    constructor (capacity: nat)
      ensures slots == seq(capacity, _ => EMPTY_OBJECT_SLOT)
    {
      slots := seq(capacity, _ => EMPTY_OBJECT_SLOT);
    }

    method CreateObject(kind: ObjectKind) returns (r: Result<ObjectId, HandleError>)
      modifies this
      ensures (slots, r) == Create(old(slots), kind)
    {
      var i := 0;
      while i < |slots| && !Vacant(slots[i])
        invariant 0 <= i <= |slots|
        invariant forall k :: 0 <= k < i ==> !Vacant(slots[k])
      {
        i := i + 1;
      }
      if i == |slots| {
        return Err(ObjectTableFull);
      }
      r := Ok(ObjectId(i, slots[i].generation, kind));
      slots := slots[i := slots[i].(kind := Some(kind), references := 1)];
    }

    /** One more holder for a live object; nothing lives or dies by it. */
    method RetainObject(o: ObjectId) returns (r: Result<(), HandleError>)
      modifies this
      ensures (slots, r) == Retain(old(slots), o)
      ensures r.Ok? <==> Live(old(slots), o) && o.generation != 0 && old(slots)[o.slot].references != U32_MAX
      ensures r.Ok? ==> slots[o.slot].references == old(slots)[o.slot].references + 1
      ensures forall x :: Live(slots, x) <==> Live(old(slots), x)
      ensures forall x :: Live(slots, x) && x != o ==> slots[x.slot] == old(slots)[x.slot]
    {
      if o.generation == 0 || o.slot >= |slots| {
        return Err(Invalid);
      }
      var slot := slots[o.slot];
      if slot.generation != o.generation || slot.kind != Some(o.kind) {
        return Err(Stale);
      }
      if slot.references == U32_MAX {
        return Err(ObjectReferenceOverflow);
      }
      slots := slots[o.slot := slot.(references := slot.references + 1)];
      r := Ok(());
    }

    method ReleaseObject(o: ObjectId) returns (r: Result<(), HandleError>)
      modifies this
      ensures (slots, r) == Release(old(slots), o)
    {
      var found := Lookup(slots, o);
      if found.Err? {
        return Err(found.error);
      }
      var i := found.value;
      if slots[i].references == 0 {
        return Err(Stale);
      }
      var slot := slots[i].(references := slots[i].references - 1);
      if slot.references == 0 {
        slot := slot.(kind := None);
        if slot.generation == U32_MAX {
          slot := slot.(retired := true);
        } else {
          slot := slot.(generation := slot.generation + 1);
        }
      }
      slots := slots[i := slot];
      r := Ok(());
    }
  }
}
