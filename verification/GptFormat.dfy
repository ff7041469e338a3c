/** Writing partition tables, after section 5.3 of the UEFI Specification: the kernel
    reads back the headers and entries that were written. */
module GptFormat {
  import opened Prelude
  import opened Crc
  import opened BootRecord
  import opened Gpt

  const HEADER_SIZE: nat := 92

  /** Signature, revision 1.0 and the size of the header. */
  const OPENING: seq<Byte> := [0x45, 0x46, 0x49, 0x20, 0x50, 0x41, 0x52, 0x54, 0, 0, 1, 0, 0x5c, 0, 0, 0]

  predicate HeaderFits(h: Header) {
    && h.current <= U64_MAX && h.backup <= U64_MAX && h.firstUsable <= U64_MAX && h.lastUsable <= U64_MAX
    && |h.guid| == 16 && h.entriesLba <= U64_MAX && h.entriesCrc <= U32_MAX
  }

  /** What follows the checksum: a reserved zero, MyLBA, AlternateLBA, FirstUsableLBA,
      LastUsableLBA, DiskGUID, PartitionEntryLBA, the two entry sizes and the array's checksum. */
  function HeaderRest(h: Header): (r: seq<Byte>)
    requires |h.guid| == 16
    ensures |r| == HEADER_SIZE - 20
  {
    LeBytes(0, 4) + LeBytes(h.current, 8) + LeBytes(h.backup, 8) + LeBytes(h.firstUsable, 8) + LeBytes(h.lastUsable, 8)
    + h.guid + LeBytes(h.entriesLba, 8) + LeBytes(ENTRY_COUNT, 4) + LeBytes(ENTRY_SIZE, 4) + LeBytes(h.entriesCrc, 4)
  }

  function HeaderWith(h: Header, crc: nat): (r: Sector)
    requires |h.guid| == 16
  {
    OPENING + LeBytes(crc, 4) + HeaderRest(h) + Zeros(SECTOR_SIZE - HEADER_SIZE)
  }

  /** The checksum covers the header with its own field zero. */
  function HeaderSector(h: Header): Sector
    requires |h.guid| == 16
  {
    HeaderWith(h, Crc32(OPENING + LeBytes(0, 4) + HeaderRest(h)))
  }

  /** Type, name, StartingLBA, EndingLBA, and anything as attributes and label. */
  function EntryBytes(kind: Guid, name: Guid, first: nat, last: nat, rest: seq<Byte>): (r: seq<Byte>)
    requires |kind| == |name| == 16 && |rest| == ENTRY_SIZE - 48
    ensures |r| == ENTRY_SIZE
  {
    kind + name + LeBytes(first, 8) + LeBytes(last, 8) + rest
  }

  // ----- Reading back -----

  lemma FieldRead(b: seq<Byte>, offset: nat, size: nat, v: nat)
    requires offset + size <= |b| && b[offset..offset + size] == LeBytes(v, size) && v < Pow256(size)
    ensures Field(b, offset, size) == v
  {
    LeRoundTrip(v, size);
  }

  /** An entry reads as the partition it was written for. */
  lemma EntryReadsBack(kind: Guid, name: Guid, first: nat, last: nat, rest: seq<Byte>)
    requires |kind| == |name| == 16 && |rest| == ENTRY_SIZE - 48 && first <= U64_MAX && last <= U64_MAX
    ensures var e := EntryBytes(kind, name, first, last, rest);
            && TypeOf(e) == kind && e[16..32] == name && First(e) == first && Last(e) == last
            && (first <= last ==> ExtentOf(e) == Extent(first, last - first + 1))
  {
    hide LeBytes;
    hide FromLe;
    hide Pow256;
    var e := EntryBytes(kind, name, first, last, rest);
    assert e[..16] == kind && e[16..32] == name && e[32..40] == LeBytes(first, 8) && e[40..48] == LeBytes(last, 8);
    PowEight();
    FieldRead(e, 32, 8, first);
    FieldRead(e, 40, 8, last);
  }

  lemma RestParts(h: Header)
    requires |h.guid| == 16
    ensures var r := HeaderRest(h);
            && r[0..4] == LeBytes(0, 4) && r[4..12] == LeBytes(h.current, 8) && r[12..20] == LeBytes(h.backup, 8)
            && r[20..28] == LeBytes(h.firstUsable, 8) && r[28..36] == LeBytes(h.lastUsable, 8) && r[36..52] == h.guid
            && r[52..60] == LeBytes(h.entriesLba, 8) && r[60..64] == LeBytes(ENTRY_COUNT, 4) && r[64..68] == LeBytes(ENTRY_SIZE, 4)
            && r[68..72] == LeBytes(h.entriesCrc, 4)
  {
    hide LeBytes;
    assert HeaderRest(h)[68..] == LeBytes(h.entriesCrc, 4);
  }

  lemma SectorParts(h: Header, crc: nat)
    requires |h.guid| == 16
    ensures var b := HeaderWith(h, crc);
            b[..16] == OPENING && b[16..20] == LeBytes(crc, 4) && b[20..HEADER_SIZE] == HeaderRest(h)
  {
    hide LeBytes;
    hide HeaderRest;
  }

  lemma Within(b: seq<Byte>, from: nat, size: nat)
    requires HEADER_SIZE <= |b| && from + size <= HEADER_SIZE - 20
    ensures b[20..HEADER_SIZE][from..from + size] == b[20 + from..20 + from + size]
  {
  }

  lemma RestFields(h: Header, crc: nat)
    requires HeaderFits(h)
    ensures var b := HeaderWith(h, crc);
            && HeaderOf(b) == h && Field(b, 20, 4) == 0 && Field(b, 80, 4) == ENTRY_COUNT && Field(b, 84, 4) == ENTRY_SIZE
  {
    hide LeBytes;
    hide FromLe;
    hide Pow256;
    hide Field;
    SectorParts(h, crc);
    RestParts(h);
    hide HeaderRest;
    hide HeaderWith;
    PowFour();
    PowEight();
    var b := HeaderWith(h, crc);
    Within(b, 0, 4);
    FieldRead(b, 20, 4, 0);
    Within(b, 4, 8);
    FieldRead(b, 24, 8, h.current);
    Within(b, 12, 8);
    FieldRead(b, 32, 8, h.backup);
    Within(b, 20, 8);
    FieldRead(b, 40, 8, h.firstUsable);
    Within(b, 28, 8);
    FieldRead(b, 48, 8, h.lastUsable);
    Within(b, 36, 16);
    Within(b, 52, 8);
    FieldRead(b, 72, 8, h.entriesLba);
    Within(b, 60, 4);
    FieldRead(b, 80, 4, ENTRY_COUNT);
    Within(b, 64, 4);
    FieldRead(b, 84, 4, ENTRY_SIZE);
    Within(b, 68, 4);
    FieldRead(b, 88, 4, h.entriesCrc);
  }

  lemma OpeningFields(b: Sector)
    requires b[..16] == OPENING
    ensures b[..8] == OPENING[..8] && Field(b, 8, 4) == 0x1_0000 && Field(b, 12, 4) == HEADER_SIZE
  {
    hide Pow256;
    assert b[..16][..8] == b[..8] && b[..16][8..12] == b[8..12] && b[..16][12..16] == b[12..16];
    PowFour();
    assert LeBytes(0x1_0000, 4) == [0, 0, 1, 0] by {
      assert LeBytes(1, 2) == [1, 0];
      assert LeBytes(0x100, 3) == [0, 1, 0];
    }
    assert LeBytes(HEADER_SIZE, 4) == [0x5c, 0, 0, 0] by {
      assert LeBytes(0, 2) == [0, 0];
      assert LeBytes(0, 3) == [0, 0, 0];
    }
    FieldRead(b, 8, 4, 0x1_0000);
    FieldRead(b, 12, 4, HEADER_SIZE);
  }

  lemma ChecksummedIs(h: Header, crc: nat)
    requires |h.guid| == 16
    ensures Field(HeaderWith(h, crc), 12, 4) == HEADER_SIZE
    ensures Checksummed(HeaderWith(h, crc)) == OPENING + LeBytes(0, 4) + HeaderRest(h)
  {
    hide Field;
    hide FromLe;
    hide LeBytes;
    hide HeaderRest;
    var b := HeaderWith(h, crc);
    SectorParts(h, crc);
    OpeningFields(b);
    ZeroBytes();
    var cleared := b[..16] + [0, 0, 0, 0] + b[20..];
    assert b[20..][..HEADER_SIZE - 20] == b[20..HEADER_SIZE];
    assert cleared[..HEADER_SIZE] == b[..16] + [0, 0, 0, 0] + b[20..HEADER_SIZE];
  }

  lemma ZeroBytes()
    ensures LeBytes(0, 4) == [0, 0, 0, 0]
  {
    assert LeBytes(0, 2) == [0, 0];
    assert LeBytes(0, 3) == [0, 0, 0];
  }

  /** A written header is accepted, unless its disk name is zero, and reads as written. */
  lemma HeaderReadsBack(h: Header)
    requires HeaderFits(h) && !IsZero(h.guid)
    ensures ParseHeader(HeaderSector(h)) == Ok(h)
  {
    hide Crc32;
    hide Field;
    hide FromLe;
    hide LeBytes;
    hide Pow256;
    hide HeaderRest;
    hide HeaderWith;
    var crc := Crc32(OPENING + LeBytes(0, 4) + HeaderRest(h));
    var b := HeaderSector(h);
    SectorParts(h, crc);
    OpeningFields(b);
    RestFields(h, crc);
    ChecksummedIs(h, crc);
    CrcRange(OPENING + LeBytes(0, 4) + HeaderRest(h));
    PowFour();
    FieldRead(b, 16, 4, crc);
  }

  // ----- The protective MBR -----

  lemma FieldIs(b: seq<Byte>, offset: nat, size: nat, v: nat)
    requires offset + size <= |b| && v < Pow256(size)
    ensures Field(b, offset, size) == v <==> b[offset..offset + size] == LeBytes(v, size)
  {
    LeBytesBack(b[offset..offset + size]);
    LeRoundTrip(v, size);
  }

  /** A protective MBR is accepted exactly when its one partition is of type 0xEE, starts at
      sector 1 and covers the disk, or as much of it as 32 bits can say. */
  lemma MbrMeans(b: Sector, sectors: nat)
    requires sectors > 0
    ensures MbrOk(b, sectors) <==>
              && b[510] == 0x55 && b[511] == 0xaa && b[450] == 0xee && b[454..458] == [1, 0, 0, 0]
              && b[458..462] == LeBytes(if sectors - 1 <= 0xffff_ffff then sectors - 1 else 0xffff_ffff, 4)
              && forall k :: 462 <= k < 510 ==> b[k] == 0
  {
    hide Pow256;
    PowFour();
    FieldIs(b, 454, 4, 1);
    FieldIs(b, 458, 4, if sectors - 1 <= U32_MAX then sectors - 1 else U32_MAX);
    OneBytes();
    assert IsZero(b[462..510]) <==> forall k :: 462 <= k < 510 ==> b[k] == 0 by {
      assert forall k :: 462 <= k < 510 ==> b[k] == b[462..510][k - 462];
    }
  }

  lemma OneBytes()
    ensures LeBytes(1, 4) == [1, 0, 0, 0]
  {
    assert LeBytes(0, 2) == [0, 0];
    assert LeBytes(0, 3) == [0, 0, 0];
  }

  // ----- What an accepted disk looks like -----

  lemma {:induction false} CountedTwice(d: Disk, t: Guid, n: nat, i: nat, j: nat)
    requires i < j < n && HasType(EntryAt(d, 2, i), t) && HasType(EntryAt(d, 2, j), t)
    ensures CountOf(d, 2, t, n) >= 2
  {
    hide EntryAt;
    hide HasType;
    if j == n - 1 {
      CountedOnce(d, t, n - 1, i);
    } else {
      CountedTwice(d, t, n - 1, i, j);
    }
  }

  lemma {:induction false} CountedOnce(d: Disk, t: Guid, n: nat, i: nat)
    requires i < n && HasType(EntryAt(d, 2, i), t)
    ensures CountOf(d, 2, t, n) >= 1
  {
    hide EntryAt;
    hide HasType;
    if i < n - 1 {
      CountedOnce(d, t, n - 1, i);
    }
  }

  /** The primary header in sector 1 and the backup in the last sector point at each other
      and at their entry arrays, and agree in everything else. */
  predicate HeadersPaired(h: Header, b: Header, last: nat) {
    && h.current == 1 && h.backup == last && b.current == last && b.backup == 1
    && last > 34 && h.entriesLba == 2 && b.entriesLba == last - 32
    && h.guid == b.guid && h.firstUsable == b.firstUsable && h.lastUsable == b.lastUsable && h.entriesCrc == b.entriesCrc
    && 34 <= h.firstUsable <= h.lastUsable < last - 32
  }

  lemma HeadersAgree(d: Disk)
    requires ValidDisk(d)
    ensures |d| > 35 && d[1].Some? && d[|d| - 1].Some? && HeadersPaired(HeaderOf(d[1].value), HeaderOf(d[|d| - 1].value), |d| - 1)
  {
    hide EntriesOk;
    hide ArraysOk;
    hide CountOf;
    hide HeaderOk;
    hide MbrOk;
    hide HeaderOf;
  }

  /** Its entries are unused and all zero, or have a name of their own and sectors of their
      own in the usable area; one is User Data and at most one a Model Store. */
  lemma EntriesAgree(d: Disk, i: nat, j: nat)
    requires ValidDisk(d) && i < j < 128
    ensures var h, e, f := HeaderOf(d[1].value), EntryAt(d, 2, i), EntryAt(d, 2, j);
            && (e[..16] == Zeros(16) ==> forall k :: 0 <= k < 128 ==> e[k] == 0)
            && (e[..16] != Zeros(16) ==> e[16..32] != Zeros(16) && h.firstUsable <= First(e) <= Last(e) <= h.lastUsable)
            && (e[..16] != Zeros(16) && f[..16] != Zeros(16) ==> e[16..32] != f[16..32] && (Last(e) < First(f) || Last(f) < First(e)))
            && !(HasType(e, USER_DATA_TYPE) && HasType(f, USER_DATA_TYPE)) && !(HasType(e, MODEL_STORE_TYPE) && HasType(f, MODEL_STORE_TYPE))
    ensures exists k: nat :: k < 128 && HasType(EntryAt(d, 2, k), USER_DATA_TYPE)
  {
    hide HeaderOk;
    hide MbrOk;
    hide PrimaryOk;
    hide BackupOk;
    hide HeaderOf;
    hide ArraysOk;
    hide EntryAt;
    hide Field;
    var h, e, f := HeaderOf(d[1].value), EntryAt(d, 2, i), EntryAt(d, 2, j);
    assert EntryOk(e, h) && EntryOk(f, h);
    assert Used(e) && Used(f) ==> Apart(f, e);
    ZeroIs(e[..16]);
    ZeroIs(f[..16]);
    ZeroIs(e[16..32]);
    if HasType(e, USER_DATA_TYPE) && HasType(f, USER_DATA_TYPE) {
      CountedTwice(d, USER_DATA_TYPE, 128, i, j);
    }
    if HasType(e, MODEL_STORE_TYPE) && HasType(f, MODEL_STORE_TYPE) {
      CountedTwice(d, MODEL_STORE_TYPE, 128, i, j);
    }
    LastIs(d, 2, USER_DATA_TYPE, 128);
    assert HasType(EntryAt(d, 2, LastOf(d, 2, USER_DATA_TYPE, 128).value), USER_DATA_TYPE);
  }

  lemma ZeroIs(g: Guid)
    requires |g| == 16
    ensures IsZero(g) <==> g == Zeros(16)
  {
  }
}
