/** Parsing a user ELF image: program headers as the System V ABI, chapter 5, lays
    them out, checked into a load plan. */
module Elf {
  import opened Prelude
  import opened Crc

  const PAGE_SIZE: nat := 4096
  const USER_IMAGE_BASE: nat := 0x4000_0000_0000
  const USER_IMAGE_LIMIT: nat := USER_IMAGE_BASE + 0x2000_0000
  const MAX_LOAD_SEGMENTS: nat := 16
  const ELF_HEADER_SIZE: nat := 64
  const PROGRAM_HEADER_SIZE: nat := 56
  const PT_LOAD: nat := 1
  const PT_TLS: nat := 7

  datatype Segment = Segment(fileOffset: nat, vaddr: nat, fileSize: nat, memorySize: nat, flags: nat) {
    predicate Executable() {
      flags % 2 == 1
    }

    predicate Writable() {
      flags / 2 % 2 == 1
    }
  }

  datatype Tls = Tls(fileOffset: nat, vaddr: nat, fileSize: nat, memorySize: nat, alignment: nat)

  datatype Plan = Plan(entry: nat, segments: seq<Segment>, tls: Option<Tls>)

  datatype ElfError =
    | Truncated
    | BadMagic
    | UnsupportedClass
    | UnsupportedEncoding
    | UnsupportedVersion
    | UnsupportedType
    | UnsupportedMachine
    | InvalidProgramHeaders
    | NoLoadSegments
    | TooManyLoadSegments
    | DuplicateTlsSegment
    | InvalidSegment
    | SegmentOutOfRange
    | InvalidTlsSegment
    | TlsSegmentOutOfRange
    | TlsSegmentTooLarge
    | WritableExecutable
    | OverlappingSegments
    | EntryNotExecutable

  /** A little-endian field; the callers check the bounds first. */
  function Field(bytes: seq<Byte>, offset: nat, size: nat): nat {
    if offset + size <= |bytes| then FromLe(bytes[offset..offset + size]) else 0
  }

  // ----- Headers -----

  function TableStart(bytes: seq<Byte>): nat {
    Field(bytes, 32, 8)
  }

  function HeaderCount(bytes: seq<Byte>): nat {
    Field(bytes, 56, 2)
  }

  function HeaderError(bytes: seq<Byte>): Option<ElfError> {
    if |bytes| < ELF_HEADER_SIZE then Some(Truncated)
    else if bytes[0..4] != [0x7f, 0x45, 0x4c, 0x46] then Some(BadMagic)
    else if bytes[4] != 2 then Some(UnsupportedClass)
    else if bytes[5] != 1 then Some(UnsupportedEncoding)
    else if bytes[6] != 1 || Field(bytes, 20, 4) != 1 then Some(UnsupportedVersion)
    else if Field(bytes, 16, 2) != 2 then Some(UnsupportedType)
    else if Field(bytes, 18, 2) != 62 then Some(UnsupportedMachine)
    else if Field(bytes, 52, 2) != ELF_HEADER_SIZE || Field(bytes, 54, 2) != PROGRAM_HEADER_SIZE then Some(InvalidProgramHeaders)
    else if HeaderCount(bytes) == 0 || TableStart(bytes) + HeaderCount(bytes) * PROGRAM_HEADER_SIZE > |bytes| then Some(InvalidProgramHeaders)
    else None
  }

  function At(bytes: seq<Byte>, k: nat): nat {
    TableStart(bytes) + k * PROGRAM_HEADER_SIZE
  }

  function Kind(bytes: seq<Byte>, k: nat): nat {
    Field(bytes, At(bytes, k), 4)
  }

  function SegmentAt(bytes: seq<Byte>, k: nat): Segment {
    var o := At(bytes, k);
    Segment(Field(bytes, o + 8, 8), Field(bytes, o + 16, 8), Field(bytes, o + 32, 8), Field(bytes, o + 40, 8), Field(bytes, o + 4, 4))
  }

  function TlsAt(bytes: seq<Byte>, k: nat): Tls {
    var o := At(bytes, k);
    Tls(Field(bytes, o + 8, 8), Field(bytes, o + 16, 8), Field(bytes, o + 32, 8), Field(bytes, o + 40, 8), Field(bytes, o + 48, 8))
  }

  /** The loadable segments of the first `n` headers, in order. */
  function Loads(bytes: seq<Byte>, n: nat): seq<Segment> {
    if n == 0 then []
    else if Kind(bytes, n - 1) == PT_LOAD then Loads(bytes, n - 1) + [SegmentAt(bytes, n - 1)]
    else Loads(bytes, n - 1)
  }

  function TlsCount(bytes: seq<Byte>, n: nat): nat {
    if n == 0 then 0 else TlsCount(bytes, n - 1) + if Kind(bytes, n - 1) == PT_TLS then 1 else 0
  }

  predicate Carries(t: Tls) {
    t.fileSize != 0 || t.memorySize != 0
  }

  /** The last thread-local template among the first `n` headers; empty ones carry nothing. */
  function LastTls(bytes: seq<Byte>, n: nat): Option<Tls> {
    if n == 0 then None
    else if Kind(bytes, n - 1) == PT_TLS && Carries(TlsAt(bytes, n - 1)) then Some(TlsAt(bytes, n - 1))
    else LastTls(bytes, n - 1)
  }

  // ----- Validation, in the order of the source -----

  function CountError(bytes: seq<Byte>, n: nat): Option<ElfError> {
    if n == 0 then None
    else if CountError(bytes, n - 1).Some? then CountError(bytes, n - 1)
    else if |Loads(bytes, n)| > MAX_LOAD_SEGMENTS then Some(TooManyLoadSegments)
    else if TlsCount(bytes, n) > 1 then Some(DuplicateTlsSegment)
    else None
  }

  predicate Overlap(a: Segment, b: Segment) {
    a.vaddr < b.vaddr + b.memorySize && b.vaddr < a.vaddr + a.memorySize
  }

  function SegmentError(size: nat, earlier: seq<Segment>, s: Segment): Option<ElfError> {
    if s.memorySize == 0 || s.fileSize > s.memorySize || s.vaddr % PAGE_SIZE != 0 || s.fileOffset % PAGE_SIZE != 0 then Some(InvalidSegment)
    else if s.Writable() && s.Executable() then Some(WritableExecutable)
    else if s.fileOffset + s.fileSize > size then Some(InvalidSegment)
    else if s.vaddr + s.memorySize > U64_MAX || s.vaddr < USER_IMAGE_BASE || s.vaddr + s.memorySize > USER_IMAGE_LIMIT then Some(SegmentOutOfRange)
    else if exists k :: 0 <= k < |earlier| && Overlap(s, earlier[k]) then Some(OverlappingSegments)
    else None
  }

  function Alignment(t: Tls): nat {
    if t.alignment == 0 then 1 else t.alignment
  }

  predicate PowerOfTwo(a: nat) {
    a in {1, 2, 4, 8, 16, 32, 64, 128, 256, 512, 1024, 2048, 4096}
  }

  function RoundUp(size: nat, unit: nat): nat
    requires unit > 0
  {
    (size + unit - 1) / unit * unit
  }

  function TlsError(size: nat, t: Tls): Option<ElfError> {
    if t.memorySize == 0 || t.fileSize > t.memorySize || t.alignment > PAGE_SIZE || !PowerOfTwo(Alignment(t))
       || t.vaddr % Alignment(t) != t.fileOffset % Alignment(t) then Some(InvalidTlsSegment)
    else if t.vaddr < USER_IMAGE_BASE || t.vaddr + t.memorySize > USER_IMAGE_LIMIT then Some(TlsSegmentOutOfRange)
    else if t.fileOffset + t.fileSize > size then Some(TlsSegmentOutOfRange)
    else if RoundUp(t.memorySize, Alignment(t)) > PAGE_SIZE then Some(TlsSegmentTooLarge)
    else None
  }

  function BodyError(bytes: seq<Byte>, n: nat): Option<ElfError> {
    if n == 0 then None
    else if BodyError(bytes, n - 1).Some? then BodyError(bytes, n - 1)
    else if Kind(bytes, n - 1) == PT_LOAD then SegmentError(|bytes|, Loads(bytes, n - 1), SegmentAt(bytes, n - 1))
    else if Kind(bytes, n - 1) == PT_TLS && Carries(TlsAt(bytes, n - 1)) then TlsError(|bytes|, TlsAt(bytes, n - 1))
    else None
  }

  predicate Starts(s: Segment, entry: nat) {
    s.Executable() && s.vaddr <= entry < s.vaddr + s.fileSize
  }

  /** The template lies in one segment's memory and comes from that segment's file part. */
  predicate Covers(s: Segment, t: Tls) {
    && s.vaddr <= t.vaddr && t.vaddr + t.memorySize <= s.vaddr + s.memorySize
    && (t.fileSize != 0 ==>
          && s.fileOffset <= t.fileOffset && t.fileOffset + t.fileSize <= s.fileOffset + s.fileSize
          && t.vaddr - s.vaddr == t.fileOffset - s.fileOffset)
  }

  function PlanOf(bytes: seq<Byte>): Plan {
    Plan(Field(bytes, 24, 8), Loads(bytes, HeaderCount(bytes)), LastTls(bytes, HeaderCount(bytes)))
  }

  function PlanError(p: Plan): Option<ElfError> {
    if p.segments == [] then Some(NoLoadSegments)
    else if forall k :: 0 <= k < |p.segments| ==> !Starts(p.segments[k], p.entry) then Some(EntryNotExecutable)
    else if p.tls.Some? && forall k :: 0 <= k < |p.segments| ==> !Covers(p.segments[k], p.tls.value) then Some(TlsSegmentOutOfRange)
    else None
  }

  /** Why an image is refused, `None` if it is accepted. */
  function Verdict(bytes: seq<Byte>): Option<ElfError> {
    if HeaderError(bytes).Some? then HeaderError(bytes)
    else if CountError(bytes, HeaderCount(bytes)).Some? then CountError(bytes, HeaderCount(bytes))
    else if BodyError(bytes, HeaderCount(bytes)).Some? then BodyError(bytes, HeaderCount(bytes))
    else PlanError(PlanOf(bytes))
  }

  // ----- What acceptance means -----

  predicate SegmentOk(size: nat, s: Segment) {
    && 0 < s.memorySize && s.fileSize <= s.memorySize && s.vaddr % PAGE_SIZE == 0 && s.fileOffset % PAGE_SIZE == 0
    && !(s.Writable() && s.Executable())
    && s.fileOffset + s.fileSize <= size
    && USER_IMAGE_BASE <= s.vaddr && s.vaddr + s.memorySize <= USER_IMAGE_LIMIT
  }

  /** Every segment is sound by itself and no two overlap. */
  predicate SegmentsOk(size: nat, segments: seq<Segment>) {
    && (forall k :: 0 <= k < |segments| ==> SegmentOk(size, segments[k]))
    && (forall j, k :: 0 <= j < k < |segments| ==> !Overlap(segments[j], segments[k]))
  }

  /** Every carried template among the first `n` headers is sound. */
  predicate TemplatesOk(bytes: seq<Byte>, n: nat) {
    forall k :: 0 <= k < n && Kind(bytes, k) == PT_TLS && Carries(TlsAt(bytes, k)) ==> TlsError(|bytes|, TlsAt(bytes, k)).None?
  }

  predicate PlanOk(p: Plan) {
    && p.segments != [] && (exists k :: 0 <= k < |p.segments| && Starts(p.segments[k], p.entry))
    && (p.tls.Some? ==> exists k :: 0 <= k < |p.segments| && Covers(p.segments[k], p.tls.value))
  }

  predicate WellFormed(bytes: seq<Byte>) {
    && HeaderError(bytes).None?
    && |Loads(bytes, HeaderCount(bytes))| <= MAX_LOAD_SEGMENTS && TlsCount(bytes, HeaderCount(bytes)) <= 1
    && SegmentsOk(|bytes|, Loads(bytes, HeaderCount(bytes))) && TemplatesOk(bytes, HeaderCount(bytes))
    && PlanOk(PlanOf(bytes))
  }

  lemma {:induction false} CountMeans(bytes: seq<Byte>, n: nat)
    ensures CountError(bytes, n).None? <==> |Loads(bytes, n)| <= MAX_LOAD_SEGMENTS && TlsCount(bytes, n) <= 1
  {
    if n > 0 {
      CountMeans(bytes, n - 1);
    }
  }

  lemma {:induction false} BodyMeans(bytes: seq<Byte>, n: nat)
    ensures BodyError(bytes, n).None? <==> SegmentsOk(|bytes|, Loads(bytes, n)) && TemplatesOk(bytes, n)
  {
    hide TlsError;
    hide Kind;
    hide SegmentError;
    hide SegmentsOk;
    hide SegmentAt;
    hide TlsAt;
    hide Carries;
    if n == 0 {
      NoSegments(|bytes|);
    } else {
      BodyMeans(bytes, n - 1);
      var before := Loads(bytes, n - 1);
      if Kind(bytes, n - 1) == PT_LOAD {
        SegmentAdded(|bytes|, before, SegmentAt(bytes, n - 1));
      }
    }
  }

  lemma NoSegments(size: nat)
    ensures SegmentsOk(size, [])
  {
  }

  lemma SegmentAdded(size: nat, before: seq<Segment>, s: Segment)
    ensures SegmentsOk(size, before + [s]) <==> SegmentsOk(size, before) && SegmentError(size, before, s).None?
  {
    var after := before + [s];
    if SegmentsOk(size, after) {
      assert SegmentOk(size, after[|before|]);
      forall k | 0 <= k < |before|
        ensures SegmentOk(size, before[k]) && !Overlap(s, before[k])
      {
        assert after[k] == before[k] && !Overlap(after[k], after[|before|]);
      }
      forall j, k | 0 <= j < k < |before|
        ensures !Overlap(before[j], before[k])
      {
        assert !Overlap(after[j], after[k]);
      }
    }
  }

  /** The parser accepts exactly the well-formed images. */
  lemma VerdictMeans(bytes: seq<Byte>)
    ensures Verdict(bytes).None? <==> WellFormed(bytes)
  {
    hide Loads;
    hide LastTls;
    hide SegmentsOk;
    hide TemplatesOk;
    CountMeans(bytes, HeaderCount(bytes));
    BodyMeans(bytes, HeaderCount(bytes));
  }

  // ----- The parser -----

  method Parse(bytes: seq<Byte>) returns (r: Result<Plan, ElfError>)
    ensures r == if Verdict(bytes).Some? then Err(Verdict(bytes).value) else Ok(PlanOf(bytes))
    ensures r.Ok? <==> WellFormed(bytes)
  {
    VerdictMeans(bytes);
    hide WellFormed;
    hide Field;
    hide Kind;
    hide SegmentError;
    hide TlsError;
    var bad := HeaderError(bytes);
    if bad.Some? {
      return Err(bad.value);
    }
    var count := HeaderCount(bytes);
    var loads, templates := 0, 0;
    for k := 0 to count
      invariant loads == |Loads(bytes, k)| && templates == TlsCount(bytes, k) && CountError(bytes, k).None?
    {
      if Kind(bytes, k) == PT_LOAD {
        loads := loads + 1;
        if loads > MAX_LOAD_SEGMENTS {
          CountStays(bytes, k + 1, count);
          return Err(TooManyLoadSegments);
        }
      } else if Kind(bytes, k) == PT_TLS {
        templates := templates + 1;
        if templates > 1 {
          CountMeans(bytes, k);
          CountStays(bytes, k + 1, count);
          return Err(DuplicateTlsSegment);
        }
      }
      CountMeans(bytes, k);
    }
    var plan := Plan(Field(bytes, 24, 8), [], None);
    for k := 0 to count
      invariant plan == Plan(Field(bytes, 24, 8), Loads(bytes, k), LastTls(bytes, k)) && BodyError(bytes, k).None?
    {
      if Kind(bytes, k) == PT_LOAD {
        var segment := SegmentAt(bytes, k);
        var refused := SegmentError(|bytes|, plan.segments, segment);
        if refused.Some? {
          BodyStays(bytes, k + 1, count);
          return Err(refused.value);
        }
        plan := plan.(segments := plan.segments + [segment]);
      } else if Kind(bytes, k) == PT_TLS && Carries(TlsAt(bytes, k)) {
        var refused := TlsError(|bytes|, TlsAt(bytes, k));
        if refused.Some? {
          BodyStays(bytes, k + 1, count);
          return Err(refused.value);
        }
        plan := plan.(tls := Some(TlsAt(bytes, k)));
      }
    }
    var last := PlanError(plan);
    r := if last.Some? then Err(last.value) else Ok(plan);
  }

  lemma {:induction false} CountStays(bytes: seq<Byte>, k: nat, n: nat)
    requires k <= n && CountError(bytes, k).Some?
    ensures CountError(bytes, n) == CountError(bytes, k)
  {
    if k < n {
      CountStays(bytes, k, n - 1);
    }
  }

  lemma {:induction false} BodyStays(bytes: seq<Byte>, k: nat, n: nat)
    requires k <= n && BodyError(bytes, k).Some?
    ensures BodyError(bytes, n) == BodyError(bytes, k)
  {
    if k < n {
      BodyStays(bytes, k, n - 1);
    }
  }
}
