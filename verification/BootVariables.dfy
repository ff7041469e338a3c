/** The two 20-byte records that the kernel leaves for the loader in firmware variables. */
module BootVariables {
  import opened Prelude
  import opened Crc
  import opened BootRecord
  import opened BootGates
  import opened BootProtocol
  import Checksums

  const VARIABLE_SIZE: nat := 20
  const SEALED: nat := 16
  const READY_MAGIC: seq<Byte> := [0x4e, 0x42, 0x52, 0x44]
  const STAGE_MAGIC: seq<Byte> := [0x4e, 0x42, 0x53, 0x54]
  const VARIABLE_VERSION: Byte := 1

  /** Magic, version, slot, attempt, a zero and the generation. */
  function Fields(magic: seq<Byte>, slot: Byte, attempt: Byte, generation: nat): (r: seq<Byte>)
    requires |magic| == 4
    ensures |r| == SEALED
  {
    magic + [VARIABLE_VERSION, slot, attempt, 0] + LeBytes(generation, 8)
  }

  function Sealed(body: seq<Byte>): seq<Byte> {
    body + LeBytes(Crc32(body), 4)
  }

  /** Magic, version, padding and checksum are right. */
  predicate Intact(bytes: seq<Byte>, magic: seq<Byte>) {
    && |bytes| == VARIABLE_SIZE && bytes[..4] == magic && bytes[4] == VARIABLE_VERSION && bytes[7] == 0
    && Crc32(bytes[..SEALED]) == FromLe(bytes[SEALED..])
  }

  function EncodeReady(r: ReadyRecord): Option<seq<Byte>> {
    if r.slot > 1 || !(1 <= r.attempt <= 3) || r.generation == 0 then None
    else Some(Sealed(Fields(READY_MAGIC, r.slot, r.attempt, r.generation)))
  }

  function DecodeReady(bytes: seq<Byte>): Option<ReadyRecord> {
    if !Intact(bytes, READY_MAGIC) then None
    else
      var r := ReadyRecord(bytes[5], bytes[6], FromLe(bytes[8..SEALED]));
      if EncodeReady(r).None? then None else Some(r)
  }

  function EncodeStage(r: StageRecord): Option<seq<Byte>> {
    if r.slot > 1 then None else Some(Sealed(Fields(STAGE_MAGIC, r.slot, 0, r.generation)))
  }

  function DecodeStage(bytes: seq<Byte>): Option<StageRecord> {
    if !Intact(bytes, STAGE_MAGIC) || bytes[6] != 0 then None
    else
      var r := StageRecord(bytes[5], FromLe(bytes[8..SEALED]));
      if EncodeStage(r).None? then None else Some(r)
  }

  /** Fill a zeroed buffer field by field and seal it. */
  method FillVariable(magic: seq<Byte>, slot: Byte, attempt: Byte, generation: nat) returns (r: seq<Byte>)
    requires |magic| == 4
    ensures r == Sealed(Fields(magic, slot, attempt, generation))
  {
    hide Crc32;
    hide LeBytes;
    var bytes := new Byte[VARIABLE_SIZE](_ => 0);
    for k := 0 to 4
      invariant forall j :: 0 <= j < VARIABLE_SIZE ==> bytes[j] == if j < k then magic[j] else 0
    {
      bytes[k] := magic[k];
    }
    bytes[4], bytes[5], bytes[6] := VARIABLE_VERSION, slot, attempt;
    PutLe(bytes, 8, generation, 8);
    assert bytes[..SEALED] == Fields(magic, slot, attempt, generation);
    var crc := ComputeCrc(bytes[..SEALED]);
    PutLe(bytes, SEALED, crc, 4);
    assert bytes[..] == Fields(magic, slot, attempt, generation) + LeBytes(crc, 4);
    r := bytes[..];
  }

  // ----- Round trips -----

  lemma SealedReads(magic: seq<Byte>, slot: Byte, attempt: Byte, generation: nat)
    requires |magic| == 4 && generation <= U64_MAX
    ensures var bytes := Sealed(Fields(magic, slot, attempt, generation));
            Intact(bytes, magic) && bytes[5] == slot && bytes[6] == attempt && FromLe(bytes[8..SEALED]) == generation
  {
    hide Crc32;
    hide LeBytes;
    hide FromLe;
    hide Pow256;
    var body := Fields(magic, slot, attempt, generation);
    var bytes := Sealed(body);
    assert bytes[..SEALED] == body && bytes[SEALED..] == LeBytes(Crc32(body), 4);
    assert bytes[8..SEALED] == LeBytes(generation, 8);
    PowFour();
    PowEight();
    LeRoundTrip(generation, 8);
    CrcRange(body);
    LeRoundTrip(Crc32(body), 4);
  }

  lemma IntactIsSealed(bytes: seq<Byte>, magic: seq<Byte>)
    requires |magic| == 4 && Intact(bytes, magic)
    ensures FromLe(bytes[8..SEALED]) <= U64_MAX && bytes == Sealed(Fields(magic, bytes[5], bytes[6], FromLe(bytes[8..SEALED])))
  {
    hide Crc32;
    hide LeBytes;
    hide FromLe;
    hide Pow256;
    var generation := FromLe(bytes[8..SEALED]);
    var body := Fields(magic, bytes[5], bytes[6], generation);
    LeBytesBack(bytes[8..SEALED]);
    LeBytesBack(bytes[SEALED..]);
    PowEight();
    forall k | 0 <= k < SEALED
      ensures body[k] == bytes[k]
    {
      if k < 4 {
        assert bytes[k] == bytes[..4][k];
      } else if k >= 8 {
        assert bytes[k] == bytes[8..SEALED][k - 8];
      }
    }
    assert body == bytes[..SEALED];
  }

  /** Every readiness record of a trial survives the variable, and what decodes is its one
      encoding. */
  lemma ReadyRoundTrip(r: ReadyRecord, bytes: seq<Byte>)
    ensures EncodeReady(r).Some? && r.generation <= U64_MAX ==> DecodeReady(EncodeReady(r).value) == Some(r)
    ensures DecodeReady(bytes).Some? ==> EncodeReady(DecodeReady(bytes).value) == Some(bytes)
  {
    hide Crc32;
    hide Intact;
    hide Fields;
    hide Sealed;
    if EncodeReady(r).Some? && r.generation <= U64_MAX {
      SealedReads(READY_MAGIC, r.slot, r.attempt, r.generation);
      IntactSize(EncodeReady(r).value, READY_MAGIC);
    }
    if DecodeReady(bytes).Some? {
      IntactSize(bytes, READY_MAGIC);
      IntactIsSealed(bytes, READY_MAGIC);
    }
  }

  lemma IntactSize(bytes: seq<Byte>, magic: seq<Byte>)
    requires Intact(bytes, magic)
    ensures |bytes| == VARIABLE_SIZE
  {
  }

  lemma StageRoundTrip(r: StageRecord, bytes: seq<Byte>)
    ensures EncodeStage(r).Some? && r.generation <= U64_MAX ==> DecodeStage(EncodeStage(r).value) == Some(r)
    ensures DecodeStage(bytes).Some? ==> EncodeStage(DecodeStage(bytes).value) == Some(bytes)
  {
    hide Crc32;
    hide Intact;
    hide Fields;
    hide Sealed;
    if EncodeStage(r).Some? && r.generation <= U64_MAX {
      SealedReads(STAGE_MAGIC, r.slot, 0, r.generation);
      IntactSize(EncodeStage(r).value, STAGE_MAGIC);
    }
    if DecodeStage(bytes).Some? {
      IntactSize(bytes, STAGE_MAGIC);
      IntactIsSealed(bytes, STAGE_MAGIC);
    }
  }

  /** Neither record can be taken for the other. */
  lemma RecordsNotConfused(bytes: seq<Byte>)
    ensures !(DecodeReady(bytes).Some? && DecodeStage(bytes).Some?)
  {
    hide Crc32;
    assert READY_MAGIC[2] != STAGE_MAGIC[2];
  }

  /** A record with any one byte damaged is not taken for a record. */
  lemma VariableDamaged(bytes: seq<Byte>, k: nat, b: Byte)
    requires k < |bytes| && b != bytes[k]
    ensures DecodeReady(bytes).Some? ==> DecodeReady(bytes[k := b]).None?
    ensures DecodeStage(bytes).Some? ==> DecodeStage(bytes[k := b]).None?
  {
    hide Crc32;
    hide FromLe;
    if DecodeReady(bytes).Some? || DecodeStage(bytes).Some? {
      Checksums.SealBroken(bytes, SEALED, k, b);
    }
  }

  // ----- What the loader makes of a variable -----

  function ReadyVariable(stored: Option<seq<Byte>>): Variable<ReadyRecord> {
    if stored.None? then Absent
    else if DecodeReady(stored.value).None? then Junk
    else Holding(DecodeReady(stored.value).value)
  }

  function StageVariable(stored: Option<seq<Byte>>): Variable<StageRecord> {
    if stored.None? then Absent
    else if DecodeStage(stored.value).None? then Junk
    else Holding(DecodeStage(stored.value).value)
  }

  /** A kernel whose gate is armed always has a record to write, and the loader reads that
      very record back from the bytes. */
  lemma ReportsReadBack(c: Context)
    requires c.generation <= U64_MAX
    ensures IsTrial(c) ==> EncodeReady(ReadyOf(c)).Some? && ReadyVariable(EncodeReady(ReadyOf(c))) == Holding(ReadyOf(c))
    ensures IsUpdateStageable(c) ==> EncodeStage(StageOf(c)).Some? && StageVariable(EncodeStage(StageOf(c))) == Holding(StageOf(c))
  {
    hide Sealed;
    hide Intact;
    ReadyRoundTrip(ReadyOf(c), []);
    StageRoundTrip(StageOf(c), []);
  }
}
