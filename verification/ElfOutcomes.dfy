/** What the ELF parser's verdicts mean, header by header. */
module ElfOutcomes {
  import opened Prelude
  import opened Crc
  import opened Elf

  // ----- Thread-local templates -----

  function PowerOf(n: nat): nat {
    if n == 0 then 1 else 2 * PowerOf(n - 1)
  }

  /** The alignment is 2^n for some n up to 12; zero stands for 1. */
  predicate AlignedBy(t: Tls, n: nat) {
    n <= 12 && (if t.alignment == 0 then 1 else t.alignment) == PowerOf(n)
  }

  /** A template the kernel can copy into a thread's one-page block: placed like its file
      part modulo its alignment, inside the image window and the file, at most a page. */
  ghost predicate TlsSound(size: nat, t: Tls) {
    && 0 < t.memorySize <= PAGE_SIZE && t.fileSize <= t.memorySize
    && (exists n: nat :: AlignedBy(t, n) && t.vaddr % PowerOf(n) == t.fileOffset % PowerOf(n))
    && USER_IMAGE_BASE <= t.vaddr && t.vaddr + t.memorySize <= USER_IMAGE_LIMIT && t.fileOffset + t.fileSize <= size
  }

  lemma Powers()
    ensures PowerOf(0) == 1 && PowerOf(1) == 2 && PowerOf(2) == 4 && PowerOf(3) == 8 && PowerOf(4) == 16 && PowerOf(5) == 32 && PowerOf(6) == 64
    ensures PowerOf(7) == 128 && PowerOf(8) == 256 && PowerOf(9) == 512 && PowerOf(10) == 1024 && PowerOf(11) == 2048 && PowerOf(12) == 4096
  {
    assert PowerOf(2) == 4 && PowerOf(4) == 16 && PowerOf(6) == 64 && PowerOf(8) == 256 && PowerOf(10) == 1024;
  }

  lemma PowerIs(a: nat) returns (n: nat)
    requires PowerOfTwo(a)
    ensures n <= 12 && PowerOf(n) == a
  {
    Powers();
    n := if a == 1 then 0 else if a == 2 then 1 else if a == 4 then 2 else if a == 8 then 3 else if a == 16 then 4 else if a == 32 then 5
         else if a == 64 then 6 else if a == 128 then 7 else if a == 256 then 8 else if a == 512 then 9 else if a == 1024 then 10
         else if a == 2048 then 11 else 12;
  }

  lemma IsPower(n: nat)
    requires n <= 12
    ensures PowerOfTwo(PowerOf(n))
  {
    Powers();
  }

  /** Rounding up to a divisor of the page size stays within a page exactly for sizes that do. */
  lemma RoundsWithin(size: nat, a: nat, q: nat)
    requires a > 0 && q * a == PAGE_SIZE
    ensures RoundUp(size, a) <= PAGE_SIZE <==> size <= PAGE_SIZE
  {
    var m := (size + a - 1) / a;
    Divided(size + a - 1, a, m);
    if m <= q {
      Times(m, q, a);
    } else {
      Times(q + 1, m, a);
      assert (q + 1) * a == PAGE_SIZE + a;
    }
  }

  lemma DividesPage(a: nat) returns (q: nat)
    requires PowerOfTwo(a)
    ensures a > 0 && q * a == PAGE_SIZE
  {
    q := PAGE_SIZE / a;
  }

  lemma Divided(x: nat, a: nat, m: nat)
    requires a > 0 && m == x / a
    ensures m * a <= x < m * a + a
  {
  }

  lemma Times(x: nat, y: nat, a: nat)
    requires x <= y
    ensures x * a <= y * a
  {
  }

  /** A template is accepted exactly when it is sound. */
  lemma TlsMeans(size: nat, t: Tls)
    ensures TlsError(size, t).None? <==> TlsSound(size, t)
  {
    hide PowerOf;
    hide PowerOfTwo;
    hide RoundUp;
    if PowerOfTwo(Alignment(t)) {
      var n := PowerIs(Alignment(t));
      assert AlignedBy(t, n);
      var q := DividesPage(Alignment(t));
      RoundsWithin(t.memorySize, Alignment(t), q);
      PageBound(Alignment(t));
    }
    if n: nat :| AlignedBy(t, n) {
      IsPower(n);
      var q := DividesPage(Alignment(t));
      RoundsWithin(t.memorySize, Alignment(t), q);
      PageBound(Alignment(t));
    }
  }

  lemma PageBound(a: nat)
    requires PowerOfTwo(a)
    ensures 1 <= a <= PAGE_SIZE
  {
  }

  // ----- Who is to blame -----

  predicate Loadable(bytes: seq<Byte>, k: nat) {
    Kind(bytes, k) == 1
  }

  /** Header `k` is at fault in the way the error says. */
  ghost predicate Blamed(bytes: seq<Byte>, k: nat, error: ElfError) {
    var s := SegmentAt(bytes, k);
    match error
    case WritableExecutable => Loadable(bytes, k) && s.flags % 2 == 1 && s.flags / 2 % 2 == 1
    case InvalidSegment =>
      Loadable(bytes, k) && (s.memorySize == 0 || s.fileSize > s.memorySize || s.vaddr % 4096 != 0 || s.fileOffset % 4096 != 0 || s.fileOffset + s.fileSize > |bytes|)
    case SegmentOutOfRange => Loadable(bytes, k) && !(USER_IMAGE_BASE <= s.vaddr && s.vaddr + s.memorySize <= USER_IMAGE_LIMIT)
    case OverlappingSegments => Loadable(bytes, k) && exists j :: 0 <= j < k && Loadable(bytes, j) && Overlap(s, SegmentAt(bytes, j))
    case _ => Kind(bytes, k) == 7 && !TlsSound(|bytes|, TlsAt(bytes, k)) && error in {InvalidTlsSegment, TlsSegmentOutOfRange, TlsSegmentTooLarge}
  }

  lemma {:induction false} LoadsFrom(bytes: seq<Byte>, n: nat, i: nat)
    requires i < |Loads(bytes, n)|
    ensures exists j :: 0 <= j < n && Loadable(bytes, j) && SegmentAt(bytes, j) == Loads(bytes, n)[i]
  {
    hide SegmentAt;
    if n > 0 {
      if i < |Loads(bytes, n - 1)| {
        LoadsFrom(bytes, n - 1, i);
        var j :| 0 <= j < n - 1 && Loadable(bytes, j) && SegmentAt(bytes, j) == Loads(bytes, n - 1)[i];
      } else {
        assert Loadable(bytes, n - 1);
      }
    }
  }

  /** Whatever the second pass reports is a true fault of some header. */
  lemma {:induction false} BodyBlames(bytes: seq<Byte>, n: nat)
    requires BodyError(bytes, n).Some?
    ensures exists k :: 0 <= k < n && Blamed(bytes, k, BodyError(bytes, n).value)
  {
    hide Blamed;
    if BodyError(bytes, n - 1).Some? {
      BodyBlames(bytes, n - 1);
    } else {
      HeaderBlames(bytes, n - 1);
    }
  }

  lemma HeaderBlames(bytes: seq<Byte>, k: nat)
    requires BodyError(bytes, k).None? && BodyError(bytes, k + 1).Some?
    ensures Blamed(bytes, k, BodyError(bytes, k + 1).value)
  {
    var error := BodyError(bytes, k + 1).value;
    if Kind(bytes, k) == PT_LOAD {
      if error == OverlappingSegments {
        var earlier := Loads(bytes, k);
        var i :| 0 <= i < |earlier| && Overlap(SegmentAt(bytes, k), earlier[i]);
        LoadsFrom(bytes, k, i);
      }
    } else {
      TlsMeans(|bytes|, TlsAt(bytes, k));
    }
  }

  /** A loadable header that is both writable and executable, and has no earlier or other
      fault before that test, is reported as just that. */
  lemma WritableExecutableReported(size: nat, earlier: seq<Segment>, s: Segment)
    ensures SegmentError(size, earlier, s) == Some(WritableExecutable) <==>
              && 0 < s.memorySize && s.fileSize <= s.memorySize && s.vaddr % 4096 == 0 && s.fileOffset % 4096 == 0
              && s.flags % 2 == 1 && s.flags / 2 % 2 == 1
  {
  }
}
