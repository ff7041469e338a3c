/** Writing ELF-64 files, after the System V ABI chapters "ELF Header" and "Program
    Header": the parser reads back what such a file says. */
module ElfFormat {
  import opened Prelude
  import opened Crc
  import opened BootRecord
  import opened Elf

  datatype ProgramHeader = ProgramHeader(kind: nat, flags: nat, offset: nat, vaddr: nat, paddr: nat, fileSize: nat, memorySize: nat, alignment: nat)

  predicate Fits(h: ProgramHeader) {
    && h.kind <= U32_MAX && h.flags <= U32_MAX && h.offset <= U64_MAX && h.vaddr <= U64_MAX && h.paddr <= U64_MAX
    && h.fileSize <= U64_MAX && h.memorySize <= U64_MAX && h.alignment <= U64_MAX
  }

  /** p_type, p_flags, p_offset, p_vaddr, p_paddr, p_filesz, p_memsz, p_align. */
  function HeaderBytes(h: ProgramHeader): (r: seq<Byte>)
    ensures |r| == PROGRAM_HEADER_SIZE
  {
    LeBytes(h.kind, 4) + LeBytes(h.flags, 4) + LeBytes(h.offset, 8) + LeBytes(h.vaddr, 8)
    + LeBytes(h.paddr, 8) + LeBytes(h.fileSize, 8) + LeBytes(h.memorySize, 8) + LeBytes(h.alignment, 8)
  }

  function TableBytes(hs: seq<ProgramHeader>): (r: seq<Byte>)
    ensures |r| == |hs| * PROGRAM_HEADER_SIZE
  {
    if hs == [] then [] else TableBytes(hs[..|hs| - 1]) + HeaderBytes(hs[|hs| - 1])
  }

  /** e_ident: class 64, little-endian, version 1. */
  const IDENT: seq<Byte> := [0x7f, 0x45, 0x4c, 0x46, 2, 1, 1, 0, 0, 0, 0, 0, 0, 0, 0, 0]

  /** An executable for x86-64 with its program headers right behind the ELF header. */
  function FileHeader(entry: nat, count: nat): (r: seq<Byte>)
    ensures |r| == ELF_HEADER_SIZE
  {
    IDENT + LeBytes(2, 2) + LeBytes(62, 2) + LeBytes(1, 4) + LeBytes(entry, 8) + LeBytes(ELF_HEADER_SIZE, 8) + LeBytes(0, 8)
    + LeBytes(0, 4) + LeBytes(ELF_HEADER_SIZE, 2) + LeBytes(PROGRAM_HEADER_SIZE, 2) + LeBytes(count, 2) + LeBytes(0, 2) + LeBytes(0, 2) + LeBytes(0, 2)
  }

  function File(entry: nat, hs: seq<ProgramHeader>, contents: seq<Byte>): seq<Byte> {
    FileHeader(entry, |hs|) + TableBytes(hs) + contents
  }

  // ----- Reading fields of what was written -----

  /** A field written somewhere in a file is read from there. */
  lemma FieldRead(bytes: seq<Byte>, offset: nat, size: nat, v: nat)
    requires offset + size <= |bytes| && bytes[offset..offset + size] == LeBytes(v, size) && v < Pow256(size)
    ensures Field(bytes, offset, size) == v
  {
    LeRoundTrip(v, size);
  }

  lemma Powers()
    ensures Pow256(2) == 0x1_0000 && Pow256(4) == U32_MAX + 1 && Pow256(8) == U64_MAX + 1
  {
    PowFour();
    PowEight();
    assert Pow256(1) == 256;
  }

  lemma {:induction false} HeaderPlace(hs: seq<ProgramHeader>, k: nat)
    requires k < |hs|
    ensures (k + 1) * PROGRAM_HEADER_SIZE <= |TableBytes(hs)|
    ensures TableBytes(hs)[k * PROGRAM_HEADER_SIZE..(k + 1) * PROGRAM_HEADER_SIZE] == HeaderBytes(hs[k])
  {
    hide HeaderBytes;
    var front := hs[..|hs| - 1];
    if k < |front| {
      HeaderPlace(front, k);
      assert front[k] == hs[k];
    }
  }

  /** The header starts at `o`. */
  predicate Holds(bytes: seq<Byte>, o: nat, h: ProgramHeader) {
    o + PROGRAM_HEADER_SIZE <= |bytes| && bytes[o..o + PROGRAM_HEADER_SIZE] == HeaderBytes(h)
  }

  lemma Within(bytes: seq<Byte>, o: nat, part: seq<Byte>, from: nat, size: nat)
    requires o + |part| <= |bytes| && bytes[o..o + |part|] == part && from + size <= |part|
    ensures bytes[o + from..o + from + size] == part[from..from + size]
  {
    var whole, x, y := bytes[o..o + |part|], bytes[o + from..o + from + size], part[from..from + size];
    forall j | 0 <= j < |x|
      ensures x[j] == y[j]
    {
      assert whole[from + j] == bytes[o + from + j];
    }
  }

  lemma HeaderParts(h: ProgramHeader)
    ensures var b := HeaderBytes(h);
            && b[0..4] == LeBytes(h.kind, 4) && b[4..8] == LeBytes(h.flags, 4) && b[8..16] == LeBytes(h.offset, 8) && b[16..24] == LeBytes(h.vaddr, 8)
            && b[32..40] == LeBytes(h.fileSize, 8) && b[40..48] == LeBytes(h.memorySize, 8) && b[48..56] == LeBytes(h.alignment, 8)
  {
    hide LeBytes;
    assert HeaderBytes(h)[48..] == LeBytes(h.alignment, 8);
  }

  lemma HeaderFields(bytes: seq<Byte>, o: nat, h: ProgramHeader)
    requires Holds(bytes, o, h) && Fits(h)
    ensures Field(bytes, o, 4) == h.kind && Field(bytes, o + 4, 4) == h.flags
    ensures Field(bytes, o + 8, 8) == h.offset && Field(bytes, o + 16, 8) == h.vaddr
    ensures Field(bytes, o + 32, 8) == h.fileSize && Field(bytes, o + 40, 8) == h.memorySize && Field(bytes, o + 48, 8) == h.alignment
  {
    hide LeBytes;
    hide FromLe;
    hide Pow256;
    hide Field;
    HeaderParts(h);
    hide HeaderBytes;
    Powers();
    var b := HeaderBytes(h);
    Within(bytes, o, b, 0, 4);
    FieldRead(bytes, o, 4, h.kind);
    Within(bytes, o, b, 4, 4);
    FieldRead(bytes, o + 4, 4, h.flags);
    Within(bytes, o, b, 8, 8);
    FieldRead(bytes, o + 8, 8, h.offset);
    Within(bytes, o, b, 16, 8);
    FieldRead(bytes, o + 16, 8, h.vaddr);
    Within(bytes, o, b, 32, 8);
    FieldRead(bytes, o + 32, 8, h.fileSize);
    Within(bytes, o, b, 40, 8);
    FieldRead(bytes, o + 40, 8, h.memorySize);
    Within(bytes, o, b, 48, 8);
    FieldRead(bytes, o + 48, 8, h.alignment);
  }

  lemma FileParts(entry: nat, count: nat)
    ensures var b := FileHeader(entry, count);
            && b[0..16] == IDENT && b[16..18] == LeBytes(2, 2) && b[18..20] == LeBytes(62, 2) && b[20..24] == LeBytes(1, 4)
            && b[24..32] == LeBytes(entry, 8) && b[32..40] == LeBytes(ELF_HEADER_SIZE, 8)
            && b[52..54] == LeBytes(ELF_HEADER_SIZE, 2) && b[54..56] == LeBytes(PROGRAM_HEADER_SIZE, 2) && b[56..58] == LeBytes(count, 2)
  {
    hide LeBytes;
  }

  lemma FileFields(bytes: seq<Byte>, entry: nat, count: nat)
    requires |bytes| >= ELF_HEADER_SIZE && bytes[0..ELF_HEADER_SIZE] == FileHeader(entry, count) && entry <= U64_MAX && count < 0x1_0000
    ensures bytes[0..16] == IDENT && Field(bytes, 16, 2) == 2 && Field(bytes, 18, 2) == 62 && Field(bytes, 20, 4) == 1
    ensures Field(bytes, 24, 8) == entry && TableStart(bytes) == ELF_HEADER_SIZE
    ensures Field(bytes, 52, 2) == ELF_HEADER_SIZE && Field(bytes, 54, 2) == PROGRAM_HEADER_SIZE && HeaderCount(bytes) == count
  {
    hide LeBytes;
    hide FromLe;
    hide Pow256;
    hide Field;
    FileParts(entry, count);
    hide FileHeader;
    Powers();
    var b := FileHeader(entry, count);
    Within(bytes, 0, b, 0, 16);
    Within(bytes, 0, b, 16, 2);
    FieldRead(bytes, 16, 2, 2);
    Within(bytes, 0, b, 18, 2);
    FieldRead(bytes, 18, 2, 62);
    Within(bytes, 0, b, 20, 4);
    FieldRead(bytes, 20, 4, 1);
    Within(bytes, 0, b, 24, 8);
    FieldRead(bytes, 24, 8, entry);
    Within(bytes, 0, b, 32, 8);
    FieldRead(bytes, 32, 8, ELF_HEADER_SIZE);
    Within(bytes, 0, b, 52, 2);
    FieldRead(bytes, 52, 2, ELF_HEADER_SIZE);
    Within(bytes, 0, b, 54, 2);
    FieldRead(bytes, 54, 2, PROGRAM_HEADER_SIZE);
    Within(bytes, 0, b, 56, 2);
    FieldRead(bytes, 56, 2, count);
  }

  // ----- The plan of a written file -----

  function SegmentOf(h: ProgramHeader): Segment {
    Segment(h.offset, h.vaddr, h.fileSize, h.memorySize, h.flags)
  }

  function TlsOf(h: ProgramHeader): Tls {
    Tls(h.offset, h.vaddr, h.fileSize, h.memorySize, h.alignment)
  }

  /** The PT_LOAD headers, in order. */
  function LoadsOf(hs: seq<ProgramHeader>): seq<Segment> {
    if hs == [] then []
    else LoadsOf(hs[..|hs| - 1]) + if hs[|hs| - 1].kind == 1 then [SegmentOf(hs[|hs| - 1])] else []
  }

  /** The last PT_TLS header that is not empty. */
  function TemplateOf(hs: seq<ProgramHeader>): Option<Tls> {
    if hs == [] then None
    else
      var h := hs[|hs| - 1];
      if h.kind == 7 && (h.fileSize != 0 || h.memorySize != 0) then Some(TlsOf(h)) else TemplateOf(hs[..|hs| - 1])
  }

  predicate Writes(bytes: seq<Byte>, hs: seq<ProgramHeader>) {
    TableStart(bytes) == ELF_HEADER_SIZE && forall k :: 0 <= k < |hs| ==> Fits(hs[k]) && Holds(bytes, ELF_HEADER_SIZE + k * PROGRAM_HEADER_SIZE, hs[k])
  }

  lemma {:induction false} PlanReads(bytes: seq<Byte>, hs: seq<ProgramHeader>)
    requires Writes(bytes, hs)
    ensures Loads(bytes, |hs|) == LoadsOf(hs) && LastTls(bytes, |hs|) == TemplateOf(hs)
  {
    hide Field;
    hide Holds;
    hide Fits;
    if hs != [] {
      var front := hs[..|hs| - 1];
      assert forall k :: 0 <= k < |front| ==> front[k] == hs[k];
      PlanReads(bytes, front);
      HeaderFields(bytes, At(bytes, |front|), hs[|front|]);
    }
  }

  lemma FileWrites(entry: nat, hs: seq<ProgramHeader>, contents: seq<Byte>)
    requires entry <= U64_MAX && |hs| < 0x1_0000 && forall k :: 0 <= k < |hs| ==> Fits(hs[k])
    ensures var bytes := File(entry, hs, contents);
            && |bytes| >= ELF_HEADER_SIZE && bytes[0..ELF_HEADER_SIZE] == FileHeader(entry, |hs|) && Writes(bytes, hs)
  {
    hide Fits;
    hide TableBytes;
    hide FileHeader;
    hide Field;
    hide HeaderBytes;
    var bytes := File(entry, hs, contents);
    assert bytes[0..ELF_HEADER_SIZE] == FileHeader(entry, |hs|);
    FileFields(bytes, entry, |hs|);
    forall k | 0 <= k < |hs|
      ensures Holds(bytes, ELF_HEADER_SIZE + k * PROGRAM_HEADER_SIZE, hs[k])
    {
      HeaderPlace(hs, k);
      var table := TableBytes(hs);
      assert bytes[ELF_HEADER_SIZE..ELF_HEADER_SIZE + |table|] == table;
      Within(bytes, ELF_HEADER_SIZE, table, k * PROGRAM_HEADER_SIZE, PROGRAM_HEADER_SIZE);
    }
  }

  /** The parser's plan of a written file is exactly what the file was written from, and a
      file with at least one program header passes the header checks. */
  lemma FileReadsBack(entry: nat, hs: seq<ProgramHeader>, contents: seq<Byte>)
    requires entry <= U64_MAX && |hs| < 0x1_0000 && forall k :: 0 <= k < |hs| ==> Fits(hs[k])
    ensures PlanOf(File(entry, hs, contents)) == Plan(entry, LoadsOf(hs), TemplateOf(hs))
    ensures HeaderError(File(entry, hs, contents)).None? <==> hs != []
  {
    hide Field;
    hide Fits;
    hide LoadsOf;
    hide TemplateOf;
    hide Loads;
    hide LastTls;
    hide FileHeader;
    hide TableBytes;
    var bytes := File(entry, hs, contents);
    FileWrites(entry, hs, contents);
    FileFields(bytes, entry, |hs|);
    PlanReads(bytes, hs);
    IdentReads(bytes);
  }

  lemma IdentReads(bytes: seq<Byte>)
    requires |bytes| >= ELF_HEADER_SIZE && bytes[0..16] == IDENT
    ensures bytes[0..4] == [0x7f, 0x45, 0x4c, 0x46] && bytes[4] == 2 && bytes[5] == 1 && bytes[6] == 1
  {
    Within(bytes, 0, IDENT, 0, 4);
    assert forall k :: 0 <= k < 16 ==> bytes[0..16][k] == bytes[k];
  }
}
