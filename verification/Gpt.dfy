/** GUID partition tables: sections 5.2.3 (protective MBR) and 5.3 (header and entry
    array) of the UEFI Specification, as the kernel checks them. */
module Gpt {
  import opened Prelude
  import opened Crc

  const SECTOR_SIZE: nat := 512
  const ENTRY_COUNT: nat := 128
  const ENTRY_SIZE: nat := 128
  const ENTRIES_PER_SECTOR: nat := 4
  const ENTRY_ARRAY_SECTORS: nat := 32

  type Guid = seq<Byte>

  const NAGI_TYPE_PREFIX: seq<Byte> := [0x01, 0x47, 0x41, 0x4e, 0x01, 0x00, 0x41, 0x4e, 0x47, 0x49, 0, 0, 0, 0, 0]
  const SYSTEM_A_TYPE: Guid := NAGI_TYPE_PREFIX + [1]
  const SYSTEM_B_TYPE: Guid := NAGI_TYPE_PREFIX + [2]
  const USER_DATA_TYPE: Guid := NAGI_TYPE_PREFIX + [3]
  const MODEL_STORE_TYPE: Guid := NAGI_TYPE_PREFIX + [5]

  datatype Extent = Extent(start: nat, count: nat)

  datatype Layout = Layout(userData: Extent, modelStore: Option<Extent>, systemA: Option<Extent>, systemB: Option<Extent>)

  datatype GptError =
    | ReadFailed
    | ProtectiveMbr
    | BadHeader
    | HeaderChecksum
    | EntryArray
    | EntryChecksum
    | PartitionBounds
    | PartitionOverlap
    | DuplicateGuid
    | MissingUserData
    | MultipleUserData
    | MultipleModelStore

  type Sector = s: seq<Byte> | |s| == SECTOR_SIZE witness seq(SECTOR_SIZE, _ => 0)

  /** Each sector as it reads, `None` where the device fails. */
  type Disk = seq<Option<Sector>>

  // ----- Byte helpers -----

  function Field(b: seq<Byte>, offset: nat, size: nat): nat
    requires offset + size <= |b|
  {
    FromLe(b[offset..offset + size])
  }

  predicate IsZero(b: seq<Byte>) {
    forall k :: 0 <= k < |b| ==> b[k] == 0
  }

  function Pow2(n: nat): nat {
    if n == 0 then 1 else 2 * Pow2(n - 1)
  }

  /** Exclusive or of the low `n` bits. */
  function Xor(a: nat, b: nat, n: nat): (r: nat)
    ensures r < Pow2(n)
  {
    if n == 0 then 0 else (if a % 2 == b % 2 then 0 else 1) + 2 * Xor(a / 2, b / 2, n - 1)
  }

  /** Inclusive or of the low `n` bits. */
  function Or(a: nat, b: nat, n: nat): (r: nat)
    ensures r < Pow2(n)
  {
    if n == 0 then 0 else (if a % 2 == 1 || b % 2 == 1 then 1 else 0) + 2 * Or(a / 2, b / 2, n - 1)
  }

  lemma {:induction false} XorZero(a: nat, b: nat, n: nat)
    requires a < Pow2(n) && b < Pow2(n)
    ensures Xor(a, b, n) == 0 <==> a == b
  {
    if n > 0 {
      XorZero(a / 2, b / 2, n - 1);
    }
  }

  lemma {:induction false} OrZero(a: nat, b: nat, n: nat)
    requires a < Pow2(n) && b < Pow2(n)
    ensures Or(a, b, n) == 0 <==> a == 0 && b == 0
  {
    if n > 0 {
      OrZero(a / 2, b / 2, n - 1);
    }
  }

  lemma EightBits()
    ensures Pow2(8) == 256
  {
    assert Pow2(4) == 16 && Pow2(5) == 32 && Pow2(6) == 64 && Pow2(7) == 128;
  }

  /** Accumulate every difference before deciding. */
  method BytesEqual(left: seq<Byte>, right: seq<Byte>) returns (equal: bool)
    ensures equal <==> left == right
  {
    hide Xor;
    hide Or;
    hide Pow2;
    if |left| != |right| {
      return false;
    }
    EightBits();
    var difference: nat := 0;
    for i := 0 to |left|
      invariant difference < 256 && (difference == 0 <==> forall k :: 0 <= k < i ==> left[k] == right[k])
    {
      XorZero(left[i], right[i], 8);
      OrZero(difference, Xor(left[i], right[i], 8), 8);
      difference := Or(difference, Xor(left[i], right[i], 8), 8);
    }
    equal := difference == 0;
  }

  // ----- Headers -----

  datatype Header = Header(current: nat, backup: nat, firstUsable: nat, lastUsable: nat, guid: Guid, entriesLba: nat, entriesCrc: nat)

  function HeaderOf(b: Sector): Header {
    Header(Field(b, 24, 8), Field(b, 32, 8), Field(b, 40, 8), Field(b, 48, 8), b[56..72], Field(b, 72, 8), Field(b, 88, 4))
  }

  /** The checksummed bytes: the header with its own checksum field cleared. */
  function Checksummed(b: Sector): seq<Byte>
    requires Field(b, 12, 4) <= SECTOR_SIZE
  {
    (b[..16] + [0, 0, 0, 0] + b[20..])[..Field(b, 12, 4)]
  }

  predicate HeaderShape(b: Sector) {
    && b[..8] == [0x45, 0x46, 0x49, 0x20, 0x50, 0x41, 0x52, 0x54]
    && Field(b, 8, 4) == 0x1_0000 && 92 <= Field(b, 12, 4) <= SECTOR_SIZE && Field(b, 20, 4) == 0
    && Field(b, 80, 4) == ENTRY_COUNT && Field(b, 84, 4) == ENTRY_SIZE
  }

  predicate HeaderOk(b: Sector) {
    HeaderShape(b) && Crc32(Checksummed(b)) == Field(b, 16, 4) && !IsZero(b[56..72])
  }

  function ParseHeader(b: Sector): (r: Result<Header, GptError>)
    ensures r.Ok? <==> HeaderOk(b)
    ensures r.Ok? ==> r.value == HeaderOf(b)
    ensures r.Err? ==> r.error == BadHeader || (r.error == HeaderChecksum && HeaderShape(b) && Crc32(Checksummed(b)) != Field(b, 16, 4))
  {
    if !HeaderShape(b) then Err(BadHeader)
    else if Crc32(Checksummed(b)) != Field(b, 16, 4) then Err(HeaderChecksum)
    else if IsZero(b[56..72]) then Err(BadHeader)
    else Ok(HeaderOf(b))
  }

  predicate MbrOk(b: Sector, sectors: nat)
    requires sectors > 0
  {
    && b[510] == 0x55 && b[511] == 0xaa
    && b[450] == 0xee && Field(b, 454, 4) == 1 && Field(b, 458, 4) == (if sectors - 1 <= U32_MAX then sectors - 1 else U32_MAX)
    && IsZero(b[462..510])
  }

  predicate PrimaryOk(h: Header, sectors: nat)
    requires sectors >= ENTRY_ARRAY_SECTORS + 4
  {
    && h.current == 1 && h.backup == sectors - 1 && h.entriesLba == 2
    && 2 + ENTRY_ARRAY_SECTORS <= h.firstUsable <= h.lastUsable < sectors - 1 - ENTRY_ARRAY_SECTORS
  }

  predicate BackupOk(h: Header, primary: Header, sectors: nat)
    requires sectors >= ENTRY_ARRAY_SECTORS + 4
  {
    && h.current == sectors - 1 && h.backup == 1 && h.entriesLba == sectors - 1 - ENTRY_ARRAY_SECTORS
    && h.firstUsable == primary.firstUsable && h.lastUsable == primary.lastUsable
    && h.guid == primary.guid && h.entriesCrc == primary.entriesCrc
  }

  // ----- Entries -----

  predicate ArrayReadable(d: Disk, lba: nat) {
    lba + ENTRY_ARRAY_SECTORS <= |d| && forall k :: lba <= k < lba + ENTRY_ARRAY_SECTORS ==> d[k].Some?
  }

  /** A sector's bytes, all zero where the device fails. */
  function SectorAt(d: Disk, lba: nat): Sector {
    if lba < |d| && d[lba].Some? then d[lba].value else seq(SECTOR_SIZE, _ => 0)
  }

  /** The first `n` sectors of an entry array, one after another. */
  function ArrayBytes(d: Disk, lba: nat, n: nat): seq<Byte> {
    if n == 0 then [] else ArrayBytes(d, lba, n - 1) + SectorAt(d, lba + n - 1)
  }

  function EntryAt(d: Disk, lba: nat, i: nat): (e: seq<Byte>)
    ensures |e| == ENTRY_SIZE
  {
    var at := i % ENTRIES_PER_SECTOR * ENTRY_SIZE;
    SectorAt(d, lba + i / ENTRIES_PER_SECTOR)[at..at + ENTRY_SIZE]
  }

  function TypeOf(e: seq<Byte>): Guid
    requires |e| == ENTRY_SIZE
  {
    e[..16]
  }

  predicate Used(e: seq<Byte>)
    requires |e| == ENTRY_SIZE
  {
    !IsZero(TypeOf(e))
  }

  function First(e: seq<Byte>): nat
    requires |e| == ENTRY_SIZE
  {
    Field(e, 32, 8)
  }

  function Last(e: seq<Byte>): nat
    requires |e| == ENTRY_SIZE
  {
    Field(e, 40, 8)
  }

  predicate EntryOk(e: seq<Byte>, h: Header)
    requires |e| == ENTRY_SIZE
  {
    if Used(e) then !IsZero(e[16..32]) && h.firstUsable <= First(e) <= Last(e) <= h.lastUsable else IsZero(e)
  }

  /** Different names, no common sector. */
  predicate Apart(e: seq<Byte>, f: seq<Byte>)
    requires |e| == |f| == ENTRY_SIZE
  {
    e[16..32] != f[16..32] && (Last(e) < First(f) || Last(f) < First(e))
  }

  predicate EntriesOk(d: Disk, lba: nat, h: Header, n: nat)
  {
    && (forall i :: 0 <= i < n ==> EntryOk(EntryAt(d, lba, i), h))
    && (forall i, j :: 0 <= i < j < n && Used(EntryAt(d, lba, i)) && Used(EntryAt(d, lba, j)) ==> Apart(EntryAt(d, lba, j), EntryAt(d, lba, i)))
  }

  predicate HasType(e: seq<Byte>, t: Guid)
    requires |e| == ENTRY_SIZE
  {
    Used(e) && TypeOf(e) == t
  }

  /** How many of the first `n` entries have the type. */
  function CountOf(d: Disk, lba: nat, t: Guid, n: nat): nat
  {
    if n == 0 then 0 else CountOf(d, lba, t, n - 1) + if HasType(EntryAt(d, lba, n - 1), t) then 1 else 0
  }

  /** The last entry of the type among the first `n`. */
  function LastOf(d: Disk, lba: nat, t: Guid, n: nat): Option<nat>
  {
    if n == 0 then None
    else if HasType(EntryAt(d, lba, n - 1), t) then Some(n - 1)
    else LastOf(d, lba, t, n - 1)
  }

  function ExtentOf(e: seq<Byte>): Extent
    requires |e| == ENTRY_SIZE
  {
    if First(e) <= Last(e) then Extent(First(e), Last(e) - First(e) + 1) else Extent(0, 0)
  }

  function Found(d: Disk, lba: nat, t: Guid, n: nat): (r: Option<Extent>)
  {
    var i := LastOf(d, lba, t, n);
    if i.None? then None else Some(ExtentOf(EntryAt(d, lba, i.value)))
  }

  // ----- Acceptance -----

  predicate HeadersOk(d: Disk) {
    && |d| >= ENTRY_ARRAY_SECTORS + 4
    && d[0].Some? && MbrOk(d[0].value, |d|)
    && d[1].Some? && HeaderOk(d[1].value) && PrimaryOk(HeaderOf(d[1].value), |d|)
    && d[|d| - 1].Some? && HeaderOk(d[|d| - 1].value) && BackupOk(HeaderOf(d[|d| - 1].value), HeaderOf(d[1].value), |d|)
  }

  predicate ArraysOk(d: Disk, h: Header)
    requires |d| >= ENTRY_ARRAY_SECTORS + 4
  {
    var backup := |d| - 1 - ENTRY_ARRAY_SECTORS;
    && ArrayReadable(d, 2) && ArrayReadable(d, backup)
    && Crc32(ArrayBytes(d, 2, ENTRY_ARRAY_SECTORS)) == h.entriesCrc
    && d[backup..backup + ENTRY_ARRAY_SECTORS] == d[2..2 + ENTRY_ARRAY_SECTORS]
  }

  /** Both headers and both arrays are intact and agree, the partitions lie apart, and
      there is one User Data partition and at most one Model Store. */
  predicate ValidDisk(d: Disk) {
    && HeadersOk(d)
    && ArraysOk(d, HeaderOf(d[1].value)) && EntriesOk(d, 2, HeaderOf(d[1].value), ENTRY_COUNT)
    && CountOf(d, 2, USER_DATA_TYPE, ENTRY_COUNT) == 1 && CountOf(d, 2, MODEL_STORE_TYPE, ENTRY_COUNT) <= 1
  }

  // ----- What a refusal tells -----

  /** Entry `n` is at fault in the way the error says. */
  predicate EntryBlamed(d: Disk, h: Header, n: nat, error: GptError) {
    var e := EntryAt(d, 2, n);
    match error
    case EntryArray => if Used(e) then IsZero(e[16..32]) else !IsZero(e)
    case PartitionBounds => Used(e) && !(h.firstUsable <= First(e) <= Last(e) <= h.lastUsable)
    case DuplicateGuid => Used(e) && exists i :: 0 <= i < n && SameName(EntryAt(d, 2, i), e)
    case PartitionOverlap => Used(e) && exists i :: 0 <= i < n && Overlapping(EntryAt(d, 2, i), e)
    case _ => false
  }

  predicate SameName(e: seq<Byte>, f: seq<Byte>)
    requires |e| == |f| == ENTRY_SIZE
  {
    Used(e) && e[16..32] == f[16..32]
  }

  predicate Overlapping(e: seq<Byte>, f: seq<Byte>)
    requires |e| == |f| == ENTRY_SIZE
  {
    Used(e) && First(e) <= Last(f) && First(f) <= Last(e)
  }

  predicate ScanBlamed(d: Disk, h: Header, error: GptError) {
    match error
    case ReadFailed => !ArrayReadable(d, 2)
    case EntryChecksum => EntriesOk(d, 2, h, ENTRY_COUNT) && Crc32(ArrayBytes(d, 2, ENTRY_ARRAY_SECTORS)) != h.entriesCrc
    case _ => exists n :: 0 <= n < ENTRY_COUNT && EntryBlamed(d, h, n, error)
  }

  predicate HeaderBlamed(d: Disk, error: GptError) {
    match error
    case BadHeader => !HeadersOk(d)
    case ReadFailed => |d| >= ENTRY_ARRAY_SECTORS + 4 && (d[0].None? || d[1].None? || d[|d| - 1].None?)
    case ProtectiveMbr => |d| >= ENTRY_ARRAY_SECTORS + 4 && d[0].Some? && !MbrOk(d[0].value, |d|)
    case HeaderChecksum => |d| >= ENTRY_ARRAY_SECTORS + 4 && (ChecksumWrong(d[1]) || ChecksumWrong(d[|d| - 1]))
    case _ => false
  }

  predicate ChecksumWrong(b: Option<Sector>) {
    b.Some? && HeaderShape(b.value) && Crc32(Checksummed(b.value)) != Field(b.value, 16, 4)
  }

  /** The stage reached and the fault found there. */
  predicate Blamed(d: Disk, error: GptError) {
    if !HeadersOk(d) then HeaderBlamed(d, error)
    else
      var h := HeaderOf(d[1].value);
      if !(ArrayReadable(d, 2) && EntriesOk(d, 2, h, ENTRY_COUNT) && Crc32(ArrayBytes(d, 2, ENTRY_ARRAY_SECTORS)) == h.entriesCrc) then ScanBlamed(d, h, error)
      else if !ArraysOk(d, h) then error == EntryArray || (error == ReadFailed && !ArrayReadable(d, |d| - 1 - ENTRY_ARRAY_SECTORS))
      else if CountOf(d, 2, USER_DATA_TYPE, ENTRY_COUNT) == 0 then error == MissingUserData
      else if CountOf(d, 2, USER_DATA_TYPE, ENTRY_COUNT) > 1 then error == MultipleUserData
      else error == MultipleModelStore && CountOf(d, 2, MODEL_STORE_TYPE, ENTRY_COUNT) > 1
  }

  function SlotOf(d: Disk, t: Guid): Option<Extent>
  {
    if CountOf(d, 2, t, ENTRY_COUNT) == 1 then Found(d, 2, t, ENTRY_COUNT) else None
  }

  function LayoutOf(d: Disk): Layout
  {
    var user := Found(d, 2, USER_DATA_TYPE, ENTRY_COUNT);
    Layout(if user.Some? then user.value else Extent(0, 0), Found(d, 2, MODEL_STORE_TYPE, ENTRY_COUNT), SlotOf(d, SYSTEM_A_TYPE), SlotOf(d, SYSTEM_B_TYPE))
  }

  // ----- What an accepted disk guarantees -----

  lemma {:induction false} LastIs(d: Disk, lba: nat, t: Guid, n: nat)
    ensures LastOf(d, lba, t, n).Some? <==> CountOf(d, lba, t, n) > 0
    ensures LastOf(d, lba, t, n).Some? ==> LastOf(d, lba, t, n).value < n && HasType(EntryAt(d, lba, LastOf(d, lba, t, n).value), t)
  {
    hide EntryAt;
    hide HasType;
    if n > 0 {
      LastIs(d, lba, t, n - 1);
    }
  }

  predicate Inside(x: Extent, lba: nat) {
    x.start <= lba < x.start + x.count
  }

  /** An exposed extent is the partition of its type, inside the usable area. */
  lemma FoundUsable(d: Disk, t: Guid)
    requires ValidDisk(d)
    ensures var r := Found(d, 2, t, ENTRY_COUNT);
            r.Some? ==>
              var i := LastOf(d, 2, t, ENTRY_COUNT).value;
              && i < ENTRY_COUNT && HasType(EntryAt(d, 2, i), t) && r.value == ExtentOf(EntryAt(d, 2, i)) && r.value.count > 0
              && ENTRY_ARRAY_SECTORS + 2 <= r.value.start && r.value.start + r.value.count <= |d| - 1 - ENTRY_ARRAY_SECTORS
  {
    hide HeaderOk;
    LastIs(d, 2, t, ENTRY_COUNT);
    var i := LastOf(d, 2, t, ENTRY_COUNT);
    if i.Some? {
      assert EntryOk(EntryAt(d, 2, i.value), HeaderOf(d[1].value));
    }
  }

  lemma ExtentMeans(e: seq<Byte>, lba: nat)
    requires |e| == ENTRY_SIZE
    ensures Inside(ExtentOf(e), lba) <==> First(e) <= lba <= Last(e)
  {
  }

  /** Two partitions in use share no sector. */
  lemma EntriesApart(d: Disk, h: Header, i: nat, j: nat, lba: nat)
    requires EntriesOk(d, 2, h, ENTRY_COUNT) && i < ENTRY_COUNT && j < ENTRY_COUNT && i != j
    requires Used(EntryAt(d, 2, i)) && Used(EntryAt(d, 2, j))
    ensures !(First(EntryAt(d, 2, i)) <= lba <= Last(EntryAt(d, 2, i)) && First(EntryAt(d, 2, j)) <= lba <= Last(EntryAt(d, 2, j)))
  {
    hide EntryAt;
    hide Field;
    hide EntryOk;
    hide Used;
    assert i < j ==> Apart(EntryAt(d, 2, j), EntryAt(d, 2, i));
    assert j < i ==> Apart(EntryAt(d, 2, i), EntryAt(d, 2, j));
  }

  /** Not even a second partition of a type touches another type's extent. */
  lemma EveryEntryApart(d: Disk, t: Guid, i: nat, lba: nat)
    requires ValidDisk(d) && Found(d, 2, t, ENTRY_COUNT).Some? && i < ENTRY_COUNT && Used(EntryAt(d, 2, i)) && TypeOf(EntryAt(d, 2, i)) != t
    ensures !(Inside(Found(d, 2, t, ENTRY_COUNT).value, lba) && First(EntryAt(d, 2, i)) <= lba <= Last(EntryAt(d, 2, i)))
  {
    hide HeaderOk;
    hide MbrOk;
    hide EntriesOk;
    hide EntryAt;
    hide Field;
    hide ExtentOf;
    FoundUsable(d, t);
    var j := LastOf(d, 2, t, ENTRY_COUNT).value;
    ExtentMeans(EntryAt(d, 2, j), lba);
    EntriesApart(d, HeaderOf(d[1].value), i, j, lba);
  }

  /** Partitions of different types share no sector. */
  lemma FoundApart(d: Disk, t: Guid, u: Guid, lba: nat)
    requires ValidDisk(d) && t != u && Found(d, 2, t, ENTRY_COUNT).Some? && Found(d, 2, u, ENTRY_COUNT).Some?
    ensures !(Inside(Found(d, 2, t, ENTRY_COUNT).value, lba) && Inside(Found(d, 2, u, ENTRY_COUNT).value, lba))
  {
    hide HeadersOk;
    hide EntriesOk;
    hide EntryAt;
    hide Field;
    hide ExtentOf;
    FoundUsable(d, u);
    var j := LastOf(d, 2, u, ENTRY_COUNT).value;
    ExtentMeans(EntryAt(d, 2, j), lba);
    EveryEntryApart(d, t, j, lba);
  }

  // ----- The search -----

  datatype Tally = Tally(userCount: nat, modelCount: nat, aCount: nat, bCount: nat,
                         user: Option<Extent>, model: Option<Extent>, a: Option<Extent>, b: Option<Extent>)

  /** The counters after the first `n` entries. */
  function TallyOf(d: Disk, n: nat): Tally
  {
    Tally(CountOf(d, 2, USER_DATA_TYPE, n), CountOf(d, 2, MODEL_STORE_TYPE, n), CountOf(d, 2, SYSTEM_A_TYPE, n), CountOf(d, 2, SYSTEM_B_TYPE, n),
          Found(d, 2, USER_DATA_TYPE, n), Found(d, 2, MODEL_STORE_TYPE, n), Found(d, 2, SYSTEM_A_TYPE, n), Found(d, 2, SYSTEM_B_TYPE, n))
  }

  function Counted(t: Tally, e: seq<Byte>): Tally
    requires |e| == ENTRY_SIZE
  {
    if TypeOf(e) == USER_DATA_TYPE then t.(userCount := t.userCount + 1, user := Some(ExtentOf(e)))
    else if TypeOf(e) == SYSTEM_A_TYPE then t.(aCount := t.aCount + 1, a := Some(ExtentOf(e)))
    else if TypeOf(e) == SYSTEM_B_TYPE then t.(bCount := t.bCount + 1, b := Some(ExtentOf(e)))
    else if TypeOf(e) == MODEL_STORE_TYPE then t.(modelCount := t.modelCount + 1, model := Some(ExtentOf(e)))
    else t
  }

  lemma TypesDiffer()
    ensures USER_DATA_TYPE != SYSTEM_A_TYPE && USER_DATA_TYPE != SYSTEM_B_TYPE && USER_DATA_TYPE != MODEL_STORE_TYPE
    ensures SYSTEM_A_TYPE != SYSTEM_B_TYPE && SYSTEM_A_TYPE != MODEL_STORE_TYPE && SYSTEM_B_TYPE != MODEL_STORE_TYPE
  {
    assert USER_DATA_TYPE[15] == 3 && SYSTEM_A_TYPE[15] == 1 && SYSTEM_B_TYPE[15] == 2 && MODEL_STORE_TYPE[15] == 5;
  }

  lemma TallyStep(d: Disk, n: nat)
    ensures TallyOf(d, n + 1) == if Used(EntryAt(d, 2, n)) then Counted(TallyOf(d, n), EntryAt(d, 2, n)) else TallyOf(d, n)
  {
    hide EntryAt;
    hide Field;
    hide ExtentOf;
    hide IsZero;
    TypesDiffer();
  }

  /** One entry against everything before it. */
  method CheckEntry(d: Disk, h: Header, n: nat) returns (error: Option<GptError>)
    requires EntriesOk(d, 2, h, n)
    ensures error.None? <==> EntriesOk(d, 2, h, n + 1)
    ensures error.Some? ==> EntryBlamed(d, h, n, error.value)
  {
    hide EntryAt;
    hide Field;
    hide IsZero;
    var e := EntryAt(d, 2, n);
    if !Used(e) {
      return if IsZero(e) then None else Some(EntryArray);
    }
    if IsZero(e[16..32]) {
      return Some(EntryArray);
    }
    if First(e) < h.firstUsable || First(e) > Last(e) || Last(e) > h.lastUsable {
      return Some(PartitionBounds);
    }
    for i := 0 to n
      invariant forall k :: 0 <= k < i && Used(EntryAt(d, 2, k)) ==> Apart(e, EntryAt(d, 2, k))
    {
      var previous := EntryAt(d, 2, i);
      if Used(previous) {
        if e[16..32] == previous[16..32] {
          assert SameName(previous, e);
          return Some(DuplicateGuid);
        }
        if First(e) <= Last(previous) && First(previous) <= Last(e) {
          assert Overlapping(previous, e);
          return Some(PartitionOverlap);
        }
      }
    }
    error := None;
  }

  /** The four entries of one sector. */
  method ScanSector(d: Disk, h: Header, s: nat, tally: Tally) returns (error: Option<GptError>, next: Tally)
    requires EntriesOk(d, 2, h, s * ENTRIES_PER_SECTOR) && tally == TallyOf(d, s * ENTRIES_PER_SECTOR)
    ensures error.None? <==> EntriesOk(d, 2, h, (s + 1) * ENTRIES_PER_SECTOR)
    ensures error.Some? ==> exists n :: 0 <= n < (s + 1) * ENTRIES_PER_SECTOR && EntryBlamed(d, h, n, error.value)
    ensures error.None? ==> next == TallyOf(d, (s + 1) * ENTRIES_PER_SECTOR)
  {
    hide EntriesOk;
    hide TallyOf;
    hide EntryAt;
    hide Counted;
    hide EntryBlamed;
    next := tally;
    for slot := 0 to ENTRIES_PER_SECTOR
      invariant EntriesOk(d, 2, h, s * ENTRIES_PER_SECTOR + slot) && next == TallyOf(d, s * ENTRIES_PER_SECTOR + slot)
    {
      var n := s * ENTRIES_PER_SECTOR + slot;
      error := CheckEntry(d, h, n);
      if error.Some? {
        if EntriesOk(d, 2, h, (s + 1) * ENTRIES_PER_SECTOR) {
          EntriesShrink(d, h, n + 1, (s + 1) * ENTRIES_PER_SECTOR);
        }
        return;
      }
      TallyStep(d, n);
      if Used(EntryAt(d, 2, n)) {
        next := Counted(next, EntryAt(d, 2, n));
      }
    }
    error := None;
  }

  /** Walk the array sector by sector, checking, counting and checksumming. */
  method ScanEntries(d: Disk, h: Header) returns (r: Result<Tally, GptError>)
    requires |d| >= ENTRY_ARRAY_SECTORS + 4
    ensures r.Ok? <==> ArrayReadable(d, 2) && EntriesOk(d, 2, h, ENTRY_COUNT) && Crc32(ArrayBytes(d, 2, ENTRY_ARRAY_SECTORS)) == h.entriesCrc
    ensures r.Ok? ==> r.value == TallyOf(d, ENTRY_COUNT)
    ensures r.Err? ==> ScanBlamed(d, h, r.error)
  {
    hide EntriesOk;
    hide TallyOf;
    hide EntryBlamed;
    hide Update;
    var crc: bv32 := 0xffff_ffff;
    var tally := Tally(0, 0, 0, 0, None, None, None, None);
    EmptyScan(d, h);
    var s := 0;
    while s < ENTRY_ARRAY_SECTORS
      invariant 0 <= s <= ENTRY_ARRAY_SECTORS
      invariant forall k :: 2 <= k < 2 + s ==> d[k].Some?
      invariant EntriesOk(d, 2, h, s * ENTRIES_PER_SECTOR) && tally == TallyOf(d, s * ENTRIES_PER_SECTOR)
      invariant crc == Update(0xffff_ffff, ArrayBytes(d, 2, s))
    {
      if d[2 + s].None? {
        return Err(ReadFailed);
      }
      crc := ComputeUpdate(crc, SectorAt(d, 2 + s));
      UpdateAppend(0xffff_ffff, ArrayBytes(d, 2, s), SectorAt(d, 2 + s));
      var failed, next := ScanSector(d, h, s, tally);
      if failed.Some? {
        if EntriesOk(d, 2, h, ENTRY_COUNT) {
          EntriesShrink(d, h, (s + 1) * ENTRIES_PER_SECTOR, ENTRY_COUNT);
        }
        BlamedScan(d, h, failed.value);
        return Err(failed.value);
      }
      tally := next;
      s := s + 1;
    }
    if Finish(crc) != h.entriesCrc {
      return Err(EntryChecksum);
    }
    r := Ok(tally);
  }

  lemma BlamedScan(d: Disk, h: Header, error: GptError)
    requires exists n :: 0 <= n < ENTRY_COUNT && EntryBlamed(d, h, n, error)
    ensures ScanBlamed(d, h, error)
  {
  }

  lemma EmptyScan(d: Disk, h: Header)
    ensures EntriesOk(d, 2, h, 0) && TallyOf(d, 0) == Tally(0, 0, 0, 0, None, None, None, None)
    ensures Update(0xffff_ffff, ArrayBytes(d, 2, 0)) == 0xffff_ffff
  {
  }

  lemma EntriesShrink(d: Disk, h: Header, n: nat, m: nat)
    requires n <= m && EntriesOk(d, 2, h, m)
    ensures EntriesOk(d, 2, h, n)
  {
    hide EntryAt;
    hide EntryOk;
    hide Used;
    hide Apart;
  }

  predicate SameSectors(d: Disk, backup: nat, n: nat)
    requires backup + n <= |d| && 2 + n <= |d|
  {
    d[backup..backup + n] == d[2..2 + n]
  }

  lemma SameMore(d: Disk, backup: nat, n: nat)
    requires backup + n < |d| && 2 + n < |d|
    ensures SameSectors(d, backup, n + 1) <==> SameSectors(d, backup, n) && d[backup + n] == d[2 + n]
  {
    var x, y := d[backup..backup + n + 1], d[2..2 + n + 1];
    assert x == d[backup..backup + n] + [d[backup + n]] && y == d[2..2 + n] + [d[2 + n]];
    assert x[..n] == d[backup..backup + n] && y[..n] == d[2..2 + n] && x[n] == d[backup + n] && y[n] == d[2 + n];
  }

  lemma {:induction false} SameLess(d: Disk, backup: nat, n: nat, m: nat)
    requires n <= m && backup + m <= |d| && 2 + m <= |d| && SameSectors(d, backup, m)
    ensures SameSectors(d, backup, n)
    decreases m - n
  {
    hide SameSectors;
    if n < m {
      SameMore(d, backup, m - 1);
      SameLess(d, backup, n, m - 1);
    }
  }

  lemma SameReadable(d: Disk, backup: nat)
    requires ArrayReadable(d, 2) && backup + ENTRY_ARRAY_SECTORS <= |d| && SameSectors(d, backup, ENTRY_ARRAY_SECTORS)
    ensures ArrayReadable(d, backup)
  {
    forall k | backup <= k < backup + ENTRY_ARRAY_SECTORS
      ensures d[k].Some?
    {
      assert d[k] == d[backup..backup + ENTRY_ARRAY_SECTORS][k - backup] == d[2..2 + ENTRY_ARRAY_SECTORS][k - backup] == d[2 + k - backup];
    }
  }

  lemma SameBytes(d: Disk, a: nat, b: nat)
    requires a < |d| && b < |d| && d[a].Some? && d[b].Some?
    ensures SectorAt(d, a) == SectorAt(d, b) <==> d[a] == d[b]
  {
  }

  /** The backup array, sector by sector against the primary one. The second checksum
      cannot differ once every sector agrees. */
  method CompareArrays(d: Disk, backup: nat, checksum: nat) returns (error: Option<GptError>)
    requires ArrayReadable(d, 2) && backup + ENTRY_ARRAY_SECTORS <= |d| && Crc32(ArrayBytes(d, 2, ENTRY_ARRAY_SECTORS)) == checksum
    ensures error.None? <==> ArrayReadable(d, backup) && d[backup..backup + ENTRY_ARRAY_SECTORS] == d[2..2 + ENTRY_ARRAY_SECTORS]
    ensures error.Some? ==> error.value == EntryArray || (error.value == ReadFailed && !ArrayReadable(d, backup))
  {
    hide Update;
    hide SectorAt;
    hide SameSectors;
    var crc: bv32 := 0xffff_ffff;
    EmptyCrc(d);
    SameNone(d, backup);
    var s := 0;
    while s < ENTRY_ARRAY_SECTORS
      invariant 0 <= s <= ENTRY_ARRAY_SECTORS && SameSectors(d, backup, s)
      invariant crc == Update(0xffff_ffff, ArrayBytes(d, 2, s))
    {
      if d[backup + s].None? {
        return Some(ReadFailed);
      }
      var same := BytesEqual(SectorAt(d, backup + s), SectorAt(d, 2 + s));
      SameBytes(d, backup + s, 2 + s);
      SameMore(d, backup, s);
      if !same {
        Differs(d, backup, s);
        return Some(EntryArray);
      }
      crc := ComputeUpdate(crc, SectorAt(d, backup + s));
      UpdateAppend(0xffff_ffff, ArrayBytes(d, 2, s), SectorAt(d, 2 + s));
      s := s + 1;
    }
    SameReadable(d, backup);
    SameMeans(d, backup);
    assert Finish(crc) == checksum;
    error := None;
  }

  lemma SameNone(d: Disk, backup: nat)
    requires backup <= |d| && 2 <= |d|
    ensures SameSectors(d, backup, 0)
  {
  }

  lemma SameMeans(d: Disk, backup: nat)
    requires backup + ENTRY_ARRAY_SECTORS <= |d| && 2 + ENTRY_ARRAY_SECTORS <= |d|
    ensures SameSectors(d, backup, ENTRY_ARRAY_SECTORS) <==> d[backup..backup + ENTRY_ARRAY_SECTORS] == d[2..2 + ENTRY_ARRAY_SECTORS]
  {
  }

  lemma Differs(d: Disk, backup: nat, s: nat)
    requires s < ENTRY_ARRAY_SECTORS && backup + ENTRY_ARRAY_SECTORS <= |d| && 2 + ENTRY_ARRAY_SECTORS <= |d| && !SameSectors(d, backup, s + 1)
    ensures d[backup..backup + ENTRY_ARRAY_SECTORS] != d[2..2 + ENTRY_ARRAY_SECTORS]
  {
    hide SameSectors;
    SameMeans(d, backup);
    if SameSectors(d, backup, ENTRY_ARRAY_SECTORS) {
      SameLess(d, backup, s + 1, ENTRY_ARRAY_SECTORS);
    }
  }

  lemma EmptyCrc(d: Disk)
    ensures Update(0xffff_ffff, ArrayBytes(d, 2, 0)) == 0xffff_ffff
  {
  }

  /** A disk is accepted exactly when it is valid, and then the partitions are the ones
      its entries name. */
  method FindPartitions(d: Disk) returns (r: Result<Layout, GptError>)
    ensures r.Ok? <==> ValidDisk(d)
    ensures r.Ok? ==> r.value == LayoutOf(d)
    ensures r.Err? ==> Blamed(d, r.error)
  {
    hide EntriesOk;
    hide ScanBlamed;
    hide HeaderOk;
    hide CountOf;
    hide Found;
    hide Crc32;
    hide MbrOk;
    if |d| < ENTRY_ARRAY_SECTORS + 4 {
      return Err(BadHeader);
    }
    if d[0].None? {
      return Err(ReadFailed);
    }
    if !MbrOk(d[0].value, |d|) {
      return Err(ProtectiveMbr);
    }
    if d[1].None? {
      return Err(ReadFailed);
    }
    var primary := ParseHeader(d[1].value);
    if primary.Err? {
      return Err(primary.error);
    }
    if !PrimaryOk(primary.value, |d|) {
      return Err(BadHeader);
    }
    if d[|d| - 1].None? {
      return Err(ReadFailed);
    }
    var backup := ParseHeader(d[|d| - 1].value);
    if backup.Err? {
      return Err(backup.error);
    }
    if !BackupOk(backup.value, primary.value, |d|) {
      return Err(BadHeader);
    }
    var scanned := ScanEntries(d, primary.value);
    if scanned.Err? {
      return Err(scanned.error);
    }
    var differs := CompareArrays(d, backup.value.entriesLba, primary.value.entriesCrc);
    if differs.Some? {
      return Err(differs.value);
    }
    var t := scanned.value;
    if t.userCount != 1 {
      return Err(if t.userCount == 0 then MissingUserData else MultipleUserData);
    }
    if t.modelCount > 1 {
      return Err(MultipleModelStore);
    }
    UserFound(d);
    r := Ok(Layout(t.user.value, t.model, if t.aCount == 1 then t.a else None, if t.bCount == 1 then t.b else None));
  }

  lemma UserFound(d: Disk)
    ensures CountOf(d, 2, USER_DATA_TYPE, ENTRY_COUNT) == 1 ==> Found(d, 2, USER_DATA_TYPE, ENTRY_COUNT).Some?
  {
    LastIs(d, 2, USER_DATA_TYPE, ENTRY_COUNT);
  }
}
