/** Capabilities over disk extents: what a program can read and write. */
module BlockDevice {
  import opened Prelude
  import opened Crc
  import BootRecord
  import opened Gpt
  import BootGates

  const MAX_USER_DATA_SECTORS: nat := 16384

  datatype BlockError = InvalidPartitionTable | UserDataPartitionTooSmall | InvalidCapability | SectorOutOfRange

  datatype Device = Device(
    physical: nat,
    data: Extent,
    capability: nat,
    modelStore: Option<Extent>,
    modelCapability: nat,
    updateSlot: Option<Extent>,
    updateIndex: nat,
    updateCapability: nat,
    claimed: bool)

  // ----- Deriving capabilities -----

  const WORD: nat := 0x1_0000_0000_0000_0000

  function Mixed(location: bv64, start: bv64, capacity: bv64): bv64 {
    0x4e41_4749_424c_4b01 ^ location.RotateLeft(17) ^ start.RotateLeft(31) ^ capacity.RotateRight(11)
  }

  function MakeCapability(location: nat, start: nat, capacity: nat): (c: nat)
    ensures 0 < c < WORD
  {
    var c := Mixed((location % WORD) as bv64, (start % WORD) as bv64, (capacity % WORD) as bv64) as nat;
    if c == 0 then 1 else c
  }

  function Salted(capability: nat, salt: bv64): (c: nat)
    ensures c < WORD
  {
    (((capability % WORD) as bv64) ^ salt) as nat
  }

  predicate Taken(c: nat, a: nat, b: nat) {
    c == 0 || c == a || c == b
  }

  function Next(c: nat): nat {
    (c + 1) % WORD
  }

  /** Four consecutive words are not all among three. */
  lemma NotFour(s: nat, a: nat, b: nat)
    requires s < WORD
    ensures !(Taken(s, a, b) && Taken(Next(s), a, b) && Taken(Next(Next(s)), a, b) && Taken(Next(Next(Next(s))), a, b))
  {
    var x, y, z := Next(s), Next(Next(s)), Next(Next(Next(s)));
    assert s != x && s != y && s != z && x != y && x != z && y != z;
  }

  /** Step past zero and the capabilities already given out; at most three values are
      in the way, so this ends. */
  method Bump(start: nat, a: nat, b: nat) returns (c: nat)
    requires start < WORD
    ensures c < WORD && c != 0 && c != a && c != b
  {
    c := start;
    ghost var steps := 0;
    while c == 0 || c == a || c == b
      invariant 0 <= steps <= 3 && c < WORD
      invariant steps == 0 ==> c == start
      invariant steps == 1 ==> c == Next(start) && Taken(start, a, b)
      invariant steps == 2 ==> c == Next(Next(start)) && Taken(start, a, b) && Taken(Next(start), a, b)
      invariant steps == 3 ==> c == Next(Next(Next(start))) && Taken(start, a, b) && Taken(Next(start), a, b) && Taken(Next(Next(start)), a, b)
      decreases 3 - steps
    {
      NotFour(start, a, b);
      c := (c + 1) % WORD;
      steps := steps + 1;
    }
  }

  /** Set the device up from an accepted layout; `target` is the slot boot control
      allows to be updated, if any. */
  method Initialize(layout: Layout, physical: nat, location: nat, target: Option<nat>) returns (r: Result<Device, BlockError>)
    ensures r.Ok? <==> layout.userData.count >= MAX_USER_DATA_SECTORS
    ensures r.Err? ==> r.error == UserDataPartitionTooSmall
    ensures r.Ok? ==>
              && r.value.physical == physical && !r.value.claimed
              && r.value.data == Extent(layout.userData.start, MAX_USER_DATA_SECTORS)
              && r.value.modelStore == layout.modelStore
              && r.value.updateSlot == (if target.None? then None else if target.value == 0 then layout.systemA else layout.systemB)
              && r.value.updateIndex == (if target.Some? then target.value else 0)
              && Distinct(r.value)
  {
    if layout.userData.count < MAX_USER_DATA_SECTORS {
      return Err(UserDataPartitionTooSmall);
    }
    var exposed := MAX_USER_DATA_SECTORS;
    var capability := MakeCapability(location, layout.userData.start, exposed);
    var model := 0;
    if layout.modelStore.Some? {
      var seed := MakeCapability(location, layout.modelStore.value.start, layout.modelStore.value.count);
      model := Bump(Salted(seed, 0x4d4f_4445_4c53_544f), capability, capability);
    }
    var slot := if target.None? then None else if target.value == 0 then layout.systemA else layout.systemB;
    var update := 0;
    if slot.Some? {
      var seed := MakeCapability(location, slot.value.start, slot.value.count);
      update := Bump(Salted(seed, 0x5550_4441_5445_534c), capability, model);
    }
    r := Ok(Device(physical, Extent(layout.userData.start, exposed), capability, layout.modelStore, model, slot,
                   if target.Some? then target.value else 0, update, false));
  }

  /** Every capability that stands for an extent is nonzero and different from the others. */
  predicate Distinct(d: Device) {
    && d.capability != 0
    && (d.modelStore.Some? ==> d.modelCapability != 0 && d.modelCapability != d.capability)
    && (d.modelStore.None? ==> d.modelCapability == 0)
    && (d.updateSlot.Some? ==> d.updateCapability != 0 && d.updateCapability != d.capability && d.updateCapability != d.modelCapability)
    && (d.updateSlot.None? ==> d.updateCapability == 0)
  }

  // ----- Access -----

  function Translate(sector: nat, x: Extent, physical: nat): Result<nat, BlockError> {
    if sector >= x.count || x.start + sector > U64_MAX || x.start + sector >= physical then Err(SectorOutOfRange) else Ok(x.start + sector)
  }

  predicate IsUpdate(d: Device, capability: nat) {
    capability != 0 && d.updateSlot.Some? && capability == d.updateCapability && d.claimed
  }

  function ReadExtent(d: Device, capability: nat): Result<Extent, BlockError> {
    if capability != 0 && capability == d.capability then Ok(d.data)
    else if capability != 0 && capability == d.modelCapability then if d.modelStore.Some? then Ok(d.modelStore.value) else Err(InvalidCapability)
    else if IsUpdate(d, capability) then Ok(d.updateSlot.value)
    else Err(InvalidCapability)
  }

  function WriteExtent(d: Device, capability: nat): Result<Extent, BlockError> {
    if capability != 0 && capability == d.capability then Ok(d.data)
    else if IsUpdate(d, capability) then Ok(d.updateSlot.value)
    else Err(InvalidCapability)
  }

  function ReadSector(d: Device, capability: nat, sector: nat): Result<nat, BlockError> {
    match ReadExtent(d, capability)
    case Err(e) => Err(e)
    case Ok(x) => Translate(sector, x, d.physical)
  }

  function WriteSector(d: Device, capability: nat, sector: nat): Result<nat, BlockError> {
    match WriteExtent(d, capability)
    case Err(e) => Err(e)
    case Ok(x) => Translate(sector, x, d.physical)
  }

  /** Hand the update capability out, once. */
  function Claim(d: Device): (Device, Option<(nat, nat, nat)>) {
    if d.updateSlot.None? || d.claimed then (d, None)
    else (d.(claimed := true), Some((d.updateCapability, d.updateSlot.value.count, d.updateIndex)))
  }

  // ----- Confinement -----

  /** The device the kernel runs with: made from an accepted disk and the boot context. */
  predicate Installed(disk: Disk, d: Device, confirmed: Option<nat>) {
    && ValidDisk(disk) && Distinct(d) && d.physical == |disk|
    && var layout := LayoutOf(disk);
       && layout.userData.count >= MAX_USER_DATA_SECTORS && d.data == Extent(layout.userData.start, MAX_USER_DATA_SECTORS)
       && d.modelStore == layout.modelStore
       && d.updateSlot == (if confirmed.None? then None else if BootGates.TargetOf(confirmed.value) == 0 then layout.systemA else layout.systemB)
       && d.updateIndex == (if confirmed.None? then 0 else BootGates.TargetOf(confirmed.value))
  }

  /** From the disk and the boot context to the device: read the partition table, then
      open what it names. */
  method Install(disk: Disk, location: nat, confirmed: Option<nat>) returns (r: Result<Device, BlockError>)
    ensures r.Ok? <==> ValidDisk(disk) && LayoutOf(disk).userData.count >= MAX_USER_DATA_SECTORS
    ensures r.Ok? ==> Installed(disk, r.value, confirmed) && !r.value.claimed
    ensures r.Err? ==> r.error == if ValidDisk(disk) then UserDataPartitionTooSmall else InvalidPartitionTable
  {
    hide ValidDisk;
    hide LayoutOf;
    var found := FindPartitions(disk);
    if found.Err? {
      return Err(InvalidPartitionTable);
    }
    r := Initialize(found.value, |disk|, location, if confirmed.Some? then Some(BootGates.TargetOf(confirmed.value)) else None);
  }

  /** Claiming changes nothing the confinement rests on. */
  lemma ClaimKeeps(disk: Disk, d: Device, confirmed: Option<nat>)
    requires Installed(disk, d, confirmed)
    ensures Installed(disk, Claim(d).0, confirmed)
  {
    hide ValidDisk;
    hide LayoutOf;
  }

  /** The partition type of a system slot. */
  function SlotType(slot: nat): Guid {
    if slot == 0 then SYSTEM_A_TYPE else SYSTEM_B_TYPE
  }

  lemma UserDataFound(disk: Disk)
    requires ValidDisk(disk)
    ensures Found(disk, 2, USER_DATA_TYPE, ENTRY_COUNT) == Some(LayoutOf(disk).userData)
  {
    hide HeadersOk;
    hide EntriesOk;
    hide ArraysOk;
    UserFound(disk);
  }

  lemma UpdateFound(disk: Disk, d: Device, confirmed: Option<nat>)
    requires Installed(disk, d, confirmed) && d.updateSlot.Some?
    ensures confirmed.Some? && d.updateSlot == Found(disk, 2, SlotType(BootGates.TargetOf(confirmed.value)), ENTRY_COUNT)
  {
    hide ValidDisk;
    hide CountOf;
    hide Found;
  }

  /** A write lands in the exposed part of User Data or, once claimed, in the slot that
      is not confirmed. */
  lemma WritesConfined(disk: Disk, d: Device, confirmed: Option<nat>, capability: nat, sector: nat)
    requires Installed(disk, d, confirmed) && WriteSector(d, capability, sector).Ok?
    ensures var lba := WriteSector(d, capability, sector).value;
            && lba < |disk|
            && (Inside(d.data, lba)
                || (d.claimed && confirmed.Some? && d.updateSlot.Some? && Inside(d.updateSlot.value, lba)
                    && d.updateSlot == Found(disk, 2, SlotType(BootGates.TargetOf(confirmed.value)), ENTRY_COUNT)))
  {
    hide ValidDisk;
    hide LayoutOf;
    if d.updateSlot.Some? {
      UpdateFound(disk, d, confirmed);
    }
  }

  /** So no write reaches a Model Store, the confirmed slot, any other partition, or
      either copy of the partition table. */
  lemma WritesSpareTheRest(disk: Disk, d: Device, confirmed: Option<nat>, capability: nat, sector: nat, i: nat)
    requires Installed(disk, d, confirmed) && WriteSector(d, capability, sector).Ok?
    requires i < ENTRY_COUNT && Used(EntryAt(disk, 2, i)) && TypeOf(EntryAt(disk, 2, i)) != USER_DATA_TYPE
    requires confirmed.Some? ==> TypeOf(EntryAt(disk, 2, i)) != SlotType(BootGates.TargetOf(confirmed.value))
    ensures var lba := WriteSector(d, capability, sector).value;
            && !(First(EntryAt(disk, 2, i)) <= lba <= Last(EntryAt(disk, 2, i)))
            && ENTRY_ARRAY_SECTORS + 2 <= lba < |disk| - 1 - ENTRY_ARRAY_SECTORS
  {
    hide ValidDisk;
    hide EntryAt;
    hide Found;
    hide WriteSector;
    hide CountOf;
    var lba := WriteSector(d, capability, sector).value;
    WritesConfined(disk, d, confirmed, capability, sector);
    UserDataFound(disk);
    FoundUsable(disk, USER_DATA_TYPE);
    EveryEntryApart(disk, USER_DATA_TYPE, i, lba);
    if !Inside(d.data, lba) {
      var t := SlotType(BootGates.TargetOf(confirmed.value));
      FoundUsable(disk, t);
      EveryEntryApart(disk, t, i, lba);
    }
  }

  /** Different sectors, through whatever capabilities, are different places on disk. */
  lemma TranslationInjective(disk: Disk, d: Device, confirmed: Option<nat>, c1: nat, s1: nat, c2: nat, s2: nat)
    requires Installed(disk, d, confirmed) && (c1 != c2 || s1 != s2)
    requires ReadSector(d, c1, s1).Ok? && ReadSector(d, c2, s2).Ok?
    ensures ReadSector(d, c1, s1).value != ReadSector(d, c2, s2).value
  {
    hide ValidDisk;
    hide LayoutOf;
    hide ReadExtent;
    if c1 != c2 {
      var lba := ReadSector(d, c1, s1).value;
      ExtentsApart(disk, d, confirmed, c1, c2, lba);
    }
  }

  lemma ExtentsApart(disk: Disk, d: Device, confirmed: Option<nat>, c1: nat, c2: nat, lba: nat)
    requires Installed(disk, d, confirmed) && c1 != c2 && ReadExtent(d, c1).Ok? && ReadExtent(d, c2).Ok?
    ensures !(Inside(ReadExtent(d, c1).value, lba) && Inside(ReadExtent(d, c2).value, lba))
  {
    hide ValidDisk;
    hide Found;
    hide CountOf;
    TypesDiffer();
    UserDataFound(disk);
    assert Inside(d.data, lba) ==> Inside(LayoutOf(disk).userData, lba);
    if d.modelStore.Some? {
      FoundApart(disk, USER_DATA_TYPE, MODEL_STORE_TYPE, lba);
    }
    if d.updateSlot.Some? {
      UpdateFound(disk, d, confirmed);
      var t := SlotType(BootGates.TargetOf(confirmed.value));
      FoundApart(disk, USER_DATA_TYPE, t, lba);
      if d.modelStore.Some? {
        FoundApart(disk, MODEL_STORE_TYPE, t, lba);
      }
    }
  }

  /** The update capability opens nothing until it is claimed, and is handed out once. */
  lemma ClaimedOnce(d: Device)
    requires Distinct(d)
    ensures !d.claimed && d.updateSlot.Some? ==> WriteSector(d, d.updateCapability, 0) == Err(InvalidCapability)
    ensures Claim(Claim(d).0).1.None?
    ensures Claim(d).1.Some? ==> Claim(d).1.value.0 == d.updateCapability && WriteExtent(Claim(d).0, d.updateCapability) == Ok(d.updateSlot.value)
  {
  }

  /** Every extent a program can open lies on the disk. */
  lemma ExtentOnDisk(disk: Disk, d: Device, confirmed: Option<nat>, capability: nat)
    requires Installed(disk, d, confirmed) && ReadExtent(d, capability).Ok?
    ensures var x := ReadExtent(d, capability).value; x.start + x.count <= |disk| && x.start + x.count <= U64_MAX + 1
    ensures capability == d.capability ==> ReadExtent(d, capability) == Ok(Extent(LayoutOf(disk).userData.start, 16384))
  {
    hide ValidDisk;
    hide Found;
    hide CountOf;
    UserDataFound(disk);
    PartitionOnDisk(disk, USER_DATA_TYPE);
    PartitionOnDisk(disk, MODEL_STORE_TYPE);
    if d.updateSlot.Some? {
      UpdateFound(disk, d, confirmed);
      PartitionOnDisk(disk, SlotType(BootGates.TargetOf(confirmed.value)));
    }
  }

  lemma PartitionOnDisk(disk: Disk, t: Guid)
    requires ValidDisk(disk)
    ensures var x := Found(disk, 2, t, ENTRY_COUNT);
            x.Some? ==> x.value.start + x.value.count <= |disk| && x.value.start + x.value.count <= U64_MAX + 1
  {
    hide ValidDisk;
    hide EntryAt;
    FoundUsable(disk, t);
    var i := LastOf(disk, 2, t, ENTRY_COUNT);
    if i.Some? {
      var e := EntryAt(disk, 2, i.value);
      LeBytesBack(e[40..48]);
      BootRecord.PowEight();
    }
  }

  /** An opened extent is a disk of its own: its sectors are numbered from 0 up to its length
      and lie on the device in that order, the same place for reads and for writes; and the
      claim tells how many there are and which slot they belong to. */
  lemma SectorsInOrder(disk: Disk, d: Device, confirmed: Option<nat>, capability: nat, sector: nat)
    requires Installed(disk, d, confirmed)
    ensures var x, lba := ReadExtent(d, capability), ReadSector(d, capability, sector);
            && (lba.Ok? <==> x.Ok? && sector < x.value.count)
            && (lba.Ok? ==> lba.value == x.value.start + sector)
    ensures var x, lba := WriteExtent(d, capability), WriteSector(d, capability, sector);
            && (lba.Ok? <==> x.Ok? && sector < x.value.count)
            && (lba.Ok? ==> lba.value == x.value.start + sector && lba == ReadSector(d, capability, sector))
    ensures Claim(d).1 == if d.updateSlot.None? || d.claimed then None
                          else Some((d.updateCapability, d.updateSlot.value.count, BootGates.TargetOf(confirmed.value)))
  {
    hide ValidDisk;
    hide LayoutOf;
    assert WriteExtent(d, capability).Ok? ==> ReadExtent(d, capability) == WriteExtent(d, capability);
    if ReadExtent(d, capability).Ok? {
      ExtentOnDisk(disk, d, confirmed, capability);
    }
  }

  /** What opens: User Data for both, the Model Store for reading only, and the update slot
      for both once it is claimed; nothing else. */
  lemma WhatOpens(d: Device, capability: nat)
    requires Distinct(d)
    ensures var update := d.claimed && d.updateSlot.Some? && capability == d.updateCapability;
            && (WriteExtent(d, capability).Ok? <==> capability == d.capability || update)
            && (ReadExtent(d, capability).Ok? <==> capability == d.capability || update || (d.modelStore.Some? && capability == d.modelCapability))
            && ReadExtent(d, d.capability) == WriteExtent(d, d.capability) == Ok(d.data)
            && (d.modelStore.Some? ==> ReadExtent(d, d.modelCapability) == Ok(d.modelStore.value))
            && (update ==> ReadExtent(d, capability) == WriteExtent(d, capability) == Ok(d.updateSlot.value))
  {
  }

  /** The update slot is there exactly when boot control allows an update and the disk has one
      partition of that slot's type; an ambiguous slot is not exposed. */
  lemma UpdateSlotUnambiguous(disk: Disk, d: Device, confirmed: Option<nat>)
    requires Installed(disk, d, confirmed)
    ensures d.updateSlot.Some? <==> confirmed.Some? && CountOf(disk, 2, SlotType(BootGates.TargetOf(confirmed.value)), ENTRY_COUNT) == 1
  {
    hide ValidDisk;
    hide CountOf;
    hide LastOf;
    LastIs(disk, 2, SYSTEM_A_TYPE, ENTRY_COUNT);
    LastIs(disk, 2, SYSTEM_B_TYPE, ENTRY_COUNT);
  }
}
