/** CRC-32 (reflected, polynomial 0xedb88320) and little-endian integers. */
module Crc {
  import opened Prelude

  function Shift(c: bv32): bv32 {
    if c & 1 == 1 then (c >> 1) ^ 0xedb8_8320 else c >> 1
  }

  function Shifts(c: bv32, n: nat): bv32
    decreases n
  {
    if n == 0 then c else Shifts(Shift(c), n - 1)
  }

  /** The bits of a byte as a 32-bit word. */
  function Widened(byte: Byte): bv32 {
    (if byte % 2 == 1 then 0x1 else 0) | (if byte / 2 % 2 == 1 then 0x2 else 0)
    | (if byte / 4 % 2 == 1 then 0x4 else 0) | (if byte / 8 % 2 == 1 then 0x8 else 0)
    | (if byte / 16 % 2 == 1 then 0x10 else 0) | (if byte / 32 % 2 == 1 then 0x20 else 0)
    | (if byte / 64 % 2 == 1 then 0x40 else 0) | (if byte / 128 % 2 == 1 then 0x80 else 0)
  }

  function Feed(c: bv32, byte: Byte): bv32 {
    Shifts(c ^ Widened(byte), 8)
  }

  function Update(c: bv32, bytes: seq<Byte>): bv32
    decreases |bytes|
  {
    if bytes == [] then c else Update(Feed(c, bytes[0]), bytes[1..])
  }

  function Finish(c: bv32): nat {
    (!c) as nat
  }

  function Crc32(bytes: seq<Byte>): nat {
    Finish(Update(0xffff_ffff, bytes))
  }

  /** Feeding a stream in pieces computes the checksum of the whole. */
  lemma {:induction false} UpdateAppend(c: bv32, x: seq<Byte>, y: seq<Byte>)
    ensures Update(c, x + y) == Update(Update(c, x), y)
    decreases |x|
  {
    hide Feed;
    if x == [] {
      assert x + y == y;
    } else {
      assert (x + y)[0] == x[0] && (x + y)[1..] == x[1..] + y;
      UpdateAppend(Feed(c, x[0]), x[1..], y);
    }
  }

  /** The branch-free bit loop of the source. */
  method ComputeFeed(start: bv32, byte: Byte) returns (crc: bv32)
    ensures crc == Feed(start, byte)
  {
    hide Shift;
    hide Widened;
    crc := start ^ Widened(byte);
    ghost var fed := crc;
    for n := 0 to 8
      invariant Shifts(crc, 8 - n) == Shifts(fed, 8)
    {
      var mask: bv32 := 0 - (crc & 1);
      MaskShift(crc);
      crc := (crc >> 1) ^ (0xedb8_8320 & mask);
    }
  }

  method ComputeUpdate(start: bv32, bytes: seq<Byte>) returns (crc: bv32)
    ensures crc == Update(start, bytes)
  {
    hide Feed;
    crc := start;
    for i := 0 to |bytes|
      invariant Update(crc, bytes[i..]) == Update(start, bytes)
    {
      assert bytes[i..][1..] == bytes[i + 1..];
      crc := ComputeFeed(crc, bytes[i]);
    }
  }

  method ComputeCrc(bytes: seq<Byte>) returns (crc: nat)
    ensures crc == Crc32(bytes)
  {
    hide Update;
    hide Finish;
    var c := ComputeUpdate(0xffff_ffff, bytes);
    crc := Finish(c);
  }

  lemma MaskShift(c: bv32)
    ensures (c >> 1) ^ (0xedb8_8320 & (0 - (c & 1))) == Shift(c)
  {
    assert c & 1 == 0 || c & 1 == 1;
    if c & 1 == 1 {
      assert (0 as bv32) - 1 == 0xffff_ffff;
    }
  }

  function Pow256(n: nat): nat {
    if n == 0 then 1 else 256 * Pow256(n - 1)
  }

  function LeBytes(v: nat, n: nat): (r: seq<Byte>)
    ensures |r| == n
  {
    if n == 0 then [] else [v % 256] + LeBytes(v / 256, n - 1)
  }

  function FromLe(bytes: seq<Byte>): nat {
    if bytes == [] then 0 else bytes[0] + 256 * FromLe(bytes[1..])
  }

  lemma {:induction false} LeRoundTrip(v: nat, n: nat)
    requires v < Pow256(n)
    ensures FromLe(LeBytes(v, n)) == v
  {
    if n > 0 {
      LeRoundTrip(v / 256, n - 1);
    }
  }

  lemma {:induction false} LeBytesBack(bytes: seq<Byte>)
    ensures FromLe(bytes) < Pow256(|bytes|)
    ensures LeBytes(FromLe(bytes), |bytes|) == bytes
  {
    if bytes != [] {
      LeBytesBack(bytes[1..]);
      LowByte(bytes[0], FromLe(bytes[1..]));
      assert bytes == [bytes[0]] + bytes[1..];
    }
  }

  lemma LowByte(b: Byte, rest: nat)
    ensures (b + 256 * rest) % 256 == b && (b + 256 * rest) / 256 == rest
  {
  }
}

/** The 32-byte boot-control record. */
module BootRecord {
  import opened Prelude
  import opened Crc

  const MAX_BOOT_ATTEMPTS: nat := 3
  const RECORD_SIZE: nat := 32
  const CHECKSUM_OFFSET: nat := 28
  const NO_PENDING_SLOT: Byte := 0xff
  const RECORD_MAGIC: seq<Byte> := [0x4e, 0x41, 0x42, 0x53]
  const RECORD_VERSION: Byte := 1

  datatype SystemSlot = A | B {
    function Other(): SystemSlot {
      if this == A then B else A
    }

    function Code(): Byte {
      if this == A then 0 else 1
    }
  }

  function FromCode(code: Byte): Option<SystemSlot> {
    if code == 0 then Some(A) else if code == 1 then Some(B) else None
  }

  datatype BootState = BootState(confirmed: SystemSlot, pending: Option<SystemSlot>, attempts: nat, generation: nat)

  function Initial(): BootState {
    BootState(A, None, 0, 0)
  }

  /** What every persisted state satisfies; the generation is a 64-bit counter. */
  predicate ValidState(s: BootState) {
    && s.attempts <= MAX_BOOT_ATTEMPTS
    && s.pending != Some(s.confirmed)
    && (s.pending.None? ==> s.attempts == 0)
  }

  function Zeros(n: nat): (r: seq<Byte>)
    ensures |r| == n && forall k :: 0 <= k < n ==> r[k] == 0
  {
    seq(n, _ => 0)
  }

  function Body(s: BootState): (r: seq<Byte>)
    requires ValidState(s)
    ensures |r| == CHECKSUM_OFFSET
  {
    RECORD_MAGIC
    + [RECORD_VERSION, s.confirmed.Code(), if s.pending.None? then NO_PENDING_SLOT else s.pending.value.Code(), s.attempts, MAX_BOOT_ATTEMPTS, 0]
    + LeBytes(s.generation, 8) + Zeros(10)
  }

  function EncodeRecord(s: BootState): (r: Option<seq<Byte>>)
    ensures r.Some? ==> |r.value| == RECORD_SIZE
  {
    if !ValidState(s) then None else Some(Body(s) + LeBytes(Crc32(Body(s)), 4))
  }

  function DecodeRecord(bytes: seq<Byte>): Option<BootState>
    requires |bytes| == RECORD_SIZE
  {
    if bytes[0..4] != RECORD_MAGIC || bytes[4] != RECORD_VERSION || bytes[8] != MAX_BOOT_ATTEMPTS || bytes[9] != 0
       || (exists k :: 18 <= k < CHECKSUM_OFFSET && bytes[k] != 0) then None
    else if Crc32(bytes[..CHECKSUM_OFFSET]) != FromLe(bytes[CHECKSUM_OFFSET..]) then None
    else if FromCode(bytes[5]).None? then None
    else if bytes[6] != NO_PENDING_SLOT && FromCode(bytes[6]).None? then None
    else
      var s := BootState(FromCode(bytes[5]).value, if bytes[6] == NO_PENDING_SLOT then None else FromCode(bytes[6]),
                         bytes[7], FromLe(bytes[10..18]));
      if ValidState(s) then Some(s) else None
  }

  /** Write `v` into the record in place, low byte first. */
  method PutLe(bytes: array<Byte>, at: nat, v: nat, n: nat)
    requires at + n <= bytes.Length
    modifies bytes
    ensures forall j :: 0 <= j < bytes.Length ==> bytes[j] == if at <= j < at + n then LeBytes(v, n)[j - at] else old(bytes[j])
  {
    var rest := v;
    for k := 0 to n
      invariant LeBytes(v, n)[k..] == LeBytes(rest, n - k)
      invariant forall j :: 0 <= j < bytes.Length ==> bytes[j] == if at <= j < at + k then LeBytes(v, n)[j - at] else old(bytes[j])
    {
      assert LeBytes(v, n)[k] == LeBytes(v, n)[k..][0];
      assert LeBytes(v, n)[k + 1..] == LeBytes(v, n)[k..][1..];
      bytes[at + k] := rest % 256;
      rest := rest / 256;
    }
  }

  /** Fill a zeroed buffer field by field and seal it with its checksum. */
  method FillRecord(s: BootState) returns (r: Option<seq<Byte>>)
    ensures r == EncodeRecord(s)
  {
    hide Crc32;
    hide LeBytes;
    if !ValidState(s) {
      return None;
    }
    var bytes := new Byte[RECORD_SIZE](_ => 0);
    FillBody(bytes, s);
    assert bytes[..CHECKSUM_OFFSET] == Body(s);
    hide Body;
    var crc := ComputeCrc(bytes[..CHECKSUM_OFFSET]);
    PutLe(bytes, CHECKSUM_OFFSET, crc, 4);
    assert bytes[..] == Body(s) + LeBytes(crc, 4);
    r := Some(bytes[..]);
  }

  method FillBody(bytes: array<Byte>, s: BootState)
    requires ValidState(s) && bytes.Length == RECORD_SIZE && forall j :: 0 <= j < RECORD_SIZE ==> bytes[j] == 0
    modifies bytes
    ensures forall j :: 0 <= j < CHECKSUM_OFFSET ==> bytes[j] == Body(s)[j]
  {
    hide LeBytes;
    PutLe(bytes, 10, s.generation, 8);
    for k := 0 to 4
      invariant forall j :: 0 <= j < k ==> bytes[j] == RECORD_MAGIC[j]
      invariant forall j :: k <= j < 10 ==> bytes[j] == 0
      invariant forall j :: 10 <= j < CHECKSUM_OFFSET ==> bytes[j] == Body(s)[j]
    {
      bytes[k] := RECORD_MAGIC[k];
    }
    bytes[4] := RECORD_VERSION;
    bytes[5] := s.confirmed.Code();
    bytes[6] := if s.pending.None? then NO_PENDING_SLOT else s.pending.value.Code();
    bytes[7] := s.attempts;
    bytes[8] := MAX_BOOT_ATTEMPTS;
  }

  /** Read a number back from its bytes, low byte first. */
  method GetLe(bytes: seq<Byte>) returns (v: nat)
    ensures v == FromLe(bytes)
  {
    v := 0;
    var k := |bytes|;
    while k > 0
      invariant 0 <= k <= |bytes| && v == FromLe(bytes[k..])
    {
      k := k - 1;
      assert bytes[k..][1..] == bytes[k + 1..];
      v := bytes[k] + 256 * v;
    }
    assert bytes[0..] == bytes;
  }

  /** Check the fixed bytes, the padding and the checksum, then the fields. */
  method ReadRecord(bytes: seq<Byte>) returns (r: Option<BootState>)
    requires |bytes| == RECORD_SIZE
    ensures r == DecodeRecord(bytes)
  {
    hide Crc32;
    if bytes[0..4] != RECORD_MAGIC || bytes[4] != RECORD_VERSION || bytes[8] != MAX_BOOT_ATTEMPTS || bytes[9] != 0 {
      return None;
    }
    for k := 18 to CHECKSUM_OFFSET
      invariant forall j :: 18 <= j < k ==> bytes[j] == 0
    {
      if bytes[k] != 0 {
        return None;
      }
    }
    var expected := GetLe(bytes[CHECKSUM_OFFSET..]);
    var crc := ComputeCrc(bytes[..CHECKSUM_OFFSET]);
    if crc != expected {
      return None;
    }
    var confirmed := FromCode(bytes[5]);
    if confirmed.None? {
      return None;
    }
    var pending := None;
    if bytes[6] != NO_PENDING_SLOT {
      pending := FromCode(bytes[6]);
      if pending.None? {
        return None;
      }
    }
    var generation := GetLe(bytes[10..18]);
    var s := BootState(confirmed.value, pending, bytes[7], generation);
    r := if ValidState(s) then Some(s) else None;
  }

  lemma PowFour()
    ensures Pow256(4) == U32_MAX + 1
  {
    assert Pow256(1) == 256 && Pow256(2) == 0x10000;
  }

  lemma PowEight()
    ensures Pow256(8) == U64_MAX + 1
  {
    PowFour();
    assert Pow256(5) == 256 * Pow256(4) && Pow256(6) == 256 * Pow256(5) && Pow256(7) == 256 * Pow256(6);
  }

  /** Every valid state survives the round trip. */
  lemma DecodesEncoded(s: BootState)
    requires ValidState(s) && s.generation <= U64_MAX
    ensures DecodeRecord(EncodeRecord(s).value) == Some(s)
  {
    hide Crc32;
    hide LeBytes;
    hide FromLe;
    hide Pow256;
    var body := Body(s);
    var bytes := EncodeRecord(s).value;
    assert bytes[..CHECKSUM_OFFSET] == body && bytes[CHECKSUM_OFFSET..] == LeBytes(Crc32(body), 4);
    assert bytes[10..18] == LeBytes(s.generation, 8);
    assert bytes[0..4] == RECORD_MAGIC;
    PowFour();
    PowEight();
    LeRoundTrip(s.generation, 8);
    CrcRange(body);
    LeRoundTrip(Crc32(body), 4);
  }

  lemma CrcRange(bytes: seq<Byte>)
    ensures Crc32(bytes) <= U32_MAX
  {
  }

  /** Whatever decodes is valid and is the one encoding of its state. */
  lemma EncodesDecoded(bytes: seq<Byte>)
    requires |bytes| == RECORD_SIZE && DecodeRecord(bytes).Some?
    ensures ValidState(DecodeRecord(bytes).value) && DecodeRecord(bytes).value.generation <= U64_MAX
    ensures EncodeRecord(DecodeRecord(bytes).value) == Some(bytes)
  {
    hide Crc32;
    hide LeBytes;
    hide FromLe;
    hide Pow256;
    var s := DecodeRecord(bytes).value;
    LeBytesBack(bytes[10..18]);
    PowEight();
    LeBytesBack(bytes[CHECKSUM_OFFSET..]);
    var body := Body(s);
    forall k | 0 <= k < CHECKSUM_OFFSET
      ensures body[k] == bytes[k]
    {
      if k < 4 {
        assert bytes[k] == bytes[0..4][k];
      } else if 10 <= k < 18 {
        assert body[k] == LeBytes(s.generation, 8)[k - 10];
        assert bytes[k] == bytes[10..18][k - 10];
      }
    }
    assert body == bytes[..CHECKSUM_OFFSET];
    assert bytes == bytes[..CHECKSUM_OFFSET] + bytes[CHECKSUM_OFFSET..];
  }
}
