/** Building the init process image from a load plan. Full file pages are mapped in
    place; every other page gets a cleared frame with the file bytes copied in. */
module ImageLoad {
  import opened Prelude
  import opened Counts
  import opened Elf
  import PA = PageAllocator
  import M = Mmap

  const IMAGE_PAGES: nat := 0x2_0000
  /** Frames below 4 GiB. */
  const IDENTITY_FRAMES: nat := 0x10_0000

  datatype LoadError = InvalidLoadPlan | ImageTooLarge | ImageOutOfBounds | ImageNotMapped | PhysicalMemoryExhausted | InvalidPhysicalAddress

  // ----- The kernel's own check of the plan -----

  function DirectEnd(s: Segment): nat {
    s.fileOffset + s.fileSize / PAGE_SIZE * PAGE_SIZE
  }

  /** The two segments map a common file page in place with different permissions. */
  predicate AliasConflict(a: Segment, b: Segment) {
    && a.fileOffset < DirectEnd(b) && b.fileOffset < DirectEnd(a)
    && (a.Writable() != b.Writable() || a.Executable() != b.Executable())
  }

  function SegmentRefused(size: nat, earlier: seq<Segment>, s: Segment): Option<LoadError> {
    if s.memorySize == 0 || s.fileSize > s.memorySize || s.vaddr < USER_IMAGE_BASE || s.vaddr % PAGE_SIZE != 0 || s.fileOffset % PAGE_SIZE != 0
       || (s.Writable() && s.Executable()) then Some(InvalidLoadPlan)
    else if s.vaddr + s.memorySize > USER_IMAGE_LIMIT then Some(ImageTooLarge)
    else if exists k :: 0 <= k < |earlier| && (Overlap(s, earlier[k]) || AliasConflict(s, earlier[k])) then Some(InvalidLoadPlan)
    else if s.fileOffset + s.fileSize > size then Some(ImageOutOfBounds)
    else None
  }

  function PlanRefused(size: nat, p: Plan, n: nat): Option<LoadError>
    requires n <= |p.segments|
  {
    if n == 0 then None
    else if PlanRefused(size, p, n - 1).Some? then PlanRefused(size, p, n - 1)
    else SegmentRefused(size, p.segments[..n - 1], p.segments[n - 1])
  }

  predicate NoAlias(segments: seq<Segment>) {
    forall j, k :: 0 <= j < k < |segments| ==> !AliasConflict(segments[k], segments[j])
  }

  lemma AliasAdded(before: seq<Segment>, s: Segment)
    ensures NoAlias(before + [s]) <==> NoAlias(before) && forall k :: 0 <= k < |before| ==> !AliasConflict(s, before[k])
  {
    hide AliasConflict;
    var after := before + [s];
    assert forall k :: 0 <= k < |before| ==> after[k] == before[k];
    if NoAlias(after) {
      forall j, k | 0 <= j < k < |before|
        ensures !AliasConflict(before[k], before[j])
      {
        assert !AliasConflict(after[k], after[j]);
      }
      forall k | 0 <= k < |before|
        ensures !AliasConflict(s, before[k])
      {
        assert !AliasConflict(after[|before|], after[k]);
      }
    }
  }

  lemma {:induction false} RefusedPrefix(size: nat, p: Plan, n: nat)
    requires n <= |p.segments| && SegmentsOk(size, p.segments)
    ensures PlanRefused(size, p, n).None? <==> NoAlias(p.segments[..n])
  {
    hide AliasConflict;
    hide Overlap;
    hide NoAlias;
    if n == 0 {
      NoAliasEmpty();
    } else {
      RefusedPrefix(size, p, n - 1);
      var before, s := p.segments[..n - 1], p.segments[n - 1];
      assert p.segments[..n] == before + [s];
      AliasAdded(before, s);
      assert SegmentOk(size, s);
      forall k | 0 <= k < |before|
        ensures !Overlap(s, before[k])
      {
        assert !Overlap(p.segments[k], p.segments[n - 1]);
        OverlapBoth(p.segments[k], s);
      }
    }
  }

  lemma NoAliasEmpty()
    ensures NoAlias([])
  {
  }

  lemma OverlapBoth(a: Segment, b: Segment)
    ensures Overlap(a, b) <==> Overlap(b, a)
  {
  }

  /** Of a plan the parser made, the kernel refuses exactly the ones that would map a
      file page in place under two permissions. */
  lemma ParsedPlanRefused(bytes: seq<Byte>)
    requires WellFormed(bytes)
    ensures var p := PlanOf(bytes);
            PlanRefused(|bytes|, p, |p.segments|).None? <==> NoAlias(p.segments)
  {
    hide Loads;
    hide LastTls;
    hide HeaderError;
    hide TemplatesOk;
    var p := PlanOf(bytes);
    RefusedPrefix(|bytes|, p, |p.segments|);
    assert p.segments[..|p.segments|] == p.segments;
  }

  // ----- What the alias check finds -----

  predicate PermissionsDiffer(a: Segment, b: Segment) {
    a.flags % 2 != b.flags % 2 || a.flags / 2 % 2 != b.flags / 2 % 2
  }

  /** File page `f` is mapped in place by the segment. */
  predicate MapsInPlace(s: Segment, f: nat) {
    s.fileOffset <= f * PAGE_SIZE && (f + 1) * PAGE_SIZE <= s.fileOffset + s.fileSize
  }

  ghost predicate Shares(a: Segment, b: Segment) {
    exists f: nat :: MapsInPlace(a, f) && MapsInPlace(b, f)
  }

  /** The segment maps nothing in place, and starts behind the start and before the end of
      what the other maps in place. */
  predicate StartsInside(a: Segment, b: Segment) {
    a.fileSize < PAGE_SIZE && b.fileOffset < a.fileOffset && a.fileOffset + PAGE_SIZE <= b.fileOffset + b.fileSize
  }

  lemma InPlacePages(s: Segment, f: nat)
    requires s.fileOffset % PAGE_SIZE == 0
    ensures MapsInPlace(s, f) <==> s.fileOffset / PAGE_SIZE <= f < DirectEnd(s) / PAGE_SIZE
    ensures DirectEnd(s) % PAGE_SIZE == 0 && DirectEnd(s) / PAGE_SIZE == s.fileOffset / PAGE_SIZE + s.fileSize / PAGE_SIZE
  {
    var p, n := s.fileOffset / PAGE_SIZE, s.fileSize / PAGE_SIZE;
    assert s.fileOffset == p * PAGE_SIZE && DirectEnd(s) == (p + n) * PAGE_SIZE;
    assert s.fileSize < (n + 1) * PAGE_SIZE;
  }

  /** The check refuses two segments of different permissions exactly when they would map one
      file page in place, or when one of them maps no page in place but starts inside what
      the other does. */
  lemma AliasExactly(a: Segment, b: Segment)
    requires a.fileOffset % PAGE_SIZE == 0 && b.fileOffset % PAGE_SIZE == 0
    ensures AliasConflict(a, b) <==> PermissionsDiffer(a, b) && (Shares(a, b) || StartsInside(a, b) || StartsInside(b, a))
  {
    var pa, pb := a.fileOffset / PAGE_SIZE, b.fileOffset / PAGE_SIZE;
    var na, nb := a.fileSize / PAGE_SIZE, b.fileSize / PAGE_SIZE;
    InPlacePages(a, pa);
    InPlacePages(b, pb);
    InPlacePages(a, pb);
    InPlacePages(b, pa);
    assert a.fileOffset < DirectEnd(b) <==> pa < pb + nb;
    assert b.fileOffset < DirectEnd(a) <==> pb < pa + na;
    assert StartsInside(a, b) <==> na == 0 && pb < pa < pb + nb;
    assert StartsInside(b, a) <==> nb == 0 && pa < pb < pa + na;
    if Shares(a, b) {
      var f: nat :| MapsInPlace(a, f) && MapsInPlace(b, f);
      InPlacePages(a, f);
      InPlacePages(b, f);
    }
  }

  /** So it refuses just the pairs that share a page of different permissions if and only if
      neither segment of the pair is such a start of different permissions. */
  lemma RefusesJustSharing(a: Segment, b: Segment)
    requires a.fileOffset % PAGE_SIZE == 0 && b.fileOffset % PAGE_SIZE == 0
    ensures (AliasConflict(a, b) <==> PermissionsDiffer(a, b) && Shares(a, b))
            <==> !(PermissionsDiffer(a, b) && (StartsInside(a, b) || StartsInside(b, a)))
  {
    AliasExactly(a, b);
    if Shares(a, b) {
      var f: nat :| MapsInPlace(a, f) && MapsInPlace(b, f);
      assert a.fileSize >= PAGE_SIZE && b.fileSize >= PAGE_SIZE;
    }
  }

  /** A sound pair that shares no page and is refused all the same: code of two pages, and
      four bytes of data whose file part starts at the second of them. */
  lemma RefusedWithoutSharing()
    ensures var code := Segment(0, USER_IMAGE_BASE, 2 * PAGE_SIZE, 2 * PAGE_SIZE, 5);
            var data := Segment(PAGE_SIZE, USER_IMAGE_BASE + 2 * PAGE_SIZE, 4, 4, 6);
            SegmentsOk(2 * PAGE_SIZE, [code, data]) && !Shares(code, data) && AliasConflict(data, code)
  {
    var data := Segment(PAGE_SIZE, USER_IMAGE_BASE + 2 * PAGE_SIZE, 4, 4, 6);
    assert forall f: nat :: !MapsInPlace(data, f);
  }

  // ----- Pages -----

  function PageCount(s: Segment): nat {
    (s.memorySize + PAGE_SIZE - 1) / PAGE_SIZE
  }

  function PageOf(s: Segment, r: nat): nat
    requires s.vaddr >= USER_IMAGE_BASE
  {
    (s.vaddr - USER_IMAGE_BASE) / PAGE_SIZE + r
  }

  function FlagsOf(s: Segment): set<M.Flag> {
    {M.Present, M.User} + (if s.Writable() then {M.Writable} else {}) + (if s.Executable() then {} else {M.NoExecute})
  }

  /** The page is wholly covered by the file, so it is mapped in place. */
  predicate Direct(s: Segment, r: nat) {
    (r + 1) * PAGE_SIZE <= s.fileSize
  }

  /** How many bytes of page `r` come from the file. */
  function FileBytes(s: Segment, r: nat): nat {
    if s.fileSize <= r * PAGE_SIZE then 0
    else if s.fileSize - r * PAGE_SIZE < PAGE_SIZE then s.fileSize - r * PAGE_SIZE
    else PAGE_SIZE
  }

  /** What page `r` of a segment must hold: file bytes, then zeros. */
  function Expected(bytes: seq<Byte>, s: Segment, r: nat): (page: seq<Byte>)
    requires s.fileOffset + s.fileSize <= |bytes|
    ensures |page| == PAGE_SIZE
    ensures forall j :: 0 <= j < PAGE_SIZE ==> page[j] == if r * PAGE_SIZE + j < s.fileSize then bytes[s.fileOffset + r * PAGE_SIZE + j] else 0
  {
    seq(PAGE_SIZE, j requires 0 <= j < PAGE_SIZE => if r * PAGE_SIZE + j < s.fileSize then bytes[s.fileOffset + r * PAGE_SIZE + j] else 0)
  }

  /** Pages of segments that do not overlap never collide. */
  lemma PagesApart(size: nat, a: Segment, ra: nat, b: Segment, rb: nat)
    requires SegmentOk(size, a) && SegmentOk(size, b) && !Overlap(a, b) && ra < PageCount(a) && rb < PageCount(b)
    ensures PageOf(a, ra) != PageOf(b, rb)
  {
    if a.vaddr + a.memorySize <= b.vaddr {
      PagesBelow(a, b.vaddr, ra);
    } else {
      PagesBelow(b, a.vaddr, rb);
    }
  }

  lemma PagesBelow(a: Segment, end: nat, r: nat)
    requires USER_IMAGE_BASE <= a.vaddr && a.vaddr % PAGE_SIZE == 0 && end % PAGE_SIZE == 0 && a.vaddr + a.memorySize <= end && r < PageCount(a)
    ensures PageOf(a, r) < (end - USER_IMAGE_BASE) / PAGE_SIZE
  {
    var first, last := a.vaddr / PAGE_SIZE, end / PAGE_SIZE;
    assert a.vaddr == first * PAGE_SIZE && end == last * PAGE_SIZE;
    assert r * PAGE_SIZE < a.memorySize;
    assert (first + r) * PAGE_SIZE < last * PAGE_SIZE;
    assert USER_IMAGE_BASE % PAGE_SIZE == 0;
  }

  lemma PageInWindow(size: nat, s: Segment, r: nat)
    requires SegmentOk(size, s) && r < PageCount(s)
    ensures PageOf(s, r) < IMAGE_PAGES
  {
    PagesBelow(s, USER_IMAGE_LIMIT, r);
  }

  // ----- The address space under construction -----

  datatype Space = Space(entries: seq<Option<M.Entry>>, mem: map<nat, seq<Byte>>, frames: PA.Holding)

  /** Where the image lies: its bytes start at frame `base`; `mapped` are the frames
      the kernel can reach. */
  datatype Source = Source(bytes: seq<Byte>, base: nat, mapped: set<nat>)

  predicate InImage(src: Source, f: nat) {
    src.base <= f < src.base + (|src.bytes| + PAGE_SIZE - 1) / PAGE_SIZE
  }

  function Copied(src: Source, s: Segment, r: nat): (page: seq<Byte>)
    requires s.fileOffset + s.fileSize <= |src.bytes|
    ensures page == Expected(src.bytes, s, r)
  {
    var n := FileBytes(s, r);
    var start := s.fileOffset + r * PAGE_SIZE;
    var page := if n == 0 then M.ZeroPage() else src.bytes[start..start + n] + seq(PAGE_SIZE - n, _ => 0);
    assert forall j :: 0 <= j < PAGE_SIZE ==> page[j] == Expected(src.bytes, s, r)[j];
    page
  }

  /** Copy the file part of page `r`, byte by byte, into a cleared page. */
  method FillPage(src: Source, s: Segment, r: nat) returns (contents: seq<Byte>)
    requires s.fileOffset + s.fileSize <= |src.bytes|
    ensures contents == Expected(src.bytes, s, r)
  {
    var page := new Byte[PAGE_SIZE](_ => 0);
    var n, start := FileBytes(s, r), s.fileOffset + r * PAGE_SIZE;
    for j := 0 to n
      invariant forall k :: 0 <= k < PAGE_SIZE ==> page[k] == if k < j then src.bytes[start + k] else 0
    {
      page[j] := src.bytes[start + j];
    }
    contents := page[..];
    assert forall k :: 0 <= k < PAGE_SIZE ==> contents[k] == Expected(src.bytes, s, r)[k];
  }

  /** Map page `r` of a segment. */
  function Place(x: Space, src: Source, s: Segment, r: nat): (Space, Option<LoadError>)
    requires s.vaddr >= USER_IMAGE_BASE && s.fileOffset + s.fileSize <= |src.bytes|
  {
    if Direct(s, r) && (r + 1) * PAGE_SIZE <= s.memorySize then
      Link(x, s, r, src.base + (s.fileOffset + r * PAGE_SIZE) / PAGE_SIZE)
    else
      var (pages, frame) := PA.AllocateBelow(x.frames.pages, IDENTITY_FRAMES);
      if frame.None? then (x, Some(PhysicalMemoryExhausted))
      else
        var taken := PA.Step(x.frames, PA.TakeBelow(IDENTITY_FRAMES));
        if frame.value !in src.mapped then (x.(frames := PA.Step(taken, PA.Give(frame.value))), Some(ImageNotMapped))
        else Link(x.(mem := x.mem[frame.value := Copied(src, s, r)], frames := taken), s, r, frame.value)
  }

  function Link(x: Space, s: Segment, r: nat, frame: nat): (Space, Option<LoadError>)
    requires s.vaddr >= USER_IMAGE_BASE
  {
    if frame >= M.MAX_FRAME then (x, Some(InvalidPhysicalAddress))
    else if PageOf(s, r) >= |x.entries| || x.entries[PageOf(s, r)].Some? then (x, Some(InvalidLoadPlan))
    else (x.(entries := x.entries[PageOf(s, r) := Some(M.Entry(frame, FlagsOf(s)))]), None)
  }

  // ----- Invariant -----

  /** Each image byte is in the frame it was loaded to. */
  ghost predicate ImagePresent(x: Space, src: Source) {
    && (forall f :: InImage(src, f) ==> f in x.mem && |x.mem[f]| == PAGE_SIZE)
    && (forall k :: 0 <= k < |src.bytes| ==> InImage(src, src.base + k / PAGE_SIZE) && x.mem[src.base + k / PAGE_SIZE][k % PAGE_SIZE] == src.bytes[k])
  }

  /** The allocator never hands out a frame of the image. */
  ghost predicate ImageReserved(x: Space, src: Source) {
    forall f: nat :: InImage(src, f) ==> Total(PA.CoverW(f), x.frames.pages.ranges) == 0
  }

  predicate FramesHeld(x: Space, src: Source) {
    forall p :: 0 <= p < |x.entries| && x.entries[p].Some? ==>
      x.entries[p].value.frame in x.mem && (InImage(src, x.entries[p].value.frame) || x.entries[p].value.frame in x.frames.held)
  }

  /** Two pages share a frame only if it is a frame of the image. */
  predicate Unshared(x: Space, src: Source) {
    forall p, q :: 0 <= p < q < |x.entries| && x.entries[p].Some? && x.entries[q].Some? && x.entries[p].value.frame == x.entries[q].value.frame ==>
      InImage(src, x.entries[p].value.frame)
  }

  ghost predicate SpaceOk(x: Space, src: Source) {
    && |x.entries| == IMAGE_PAGES
    && PA.Accounted(x.frames) && PA.Disjoint(x.frames.pages.ranges)
    && ImagePresent(x, src) && ImageReserved(x, src) && FramesHeld(x, src) && Unshared(x, src)
  }

  /** Page `r` of the segment is mapped with the segment's permissions and holds what
      it must; in-place pages show the image itself. */
  predicate PageLoaded(x: Space, src: Source, s: Segment, r: nat)
    requires s.vaddr >= USER_IMAGE_BASE && s.fileOffset + s.fileSize <= |src.bytes|
  {
    var p := PageOf(s, r);
    && p < |x.entries| && x.entries[p].Some? && x.entries[p].value.flags == FlagsOf(s)
    && x.entries[p].value.frame in x.mem && x.mem[x.entries[p].value.frame] == Expected(src.bytes, s, r)
    && (Direct(s, r) ==> x.entries[p].value.frame == src.base + s.fileOffset / PAGE_SIZE + r)
    && (!Direct(s, r) ==> !InImage(src, x.entries[p].value.frame))
  }

  /** A frame taken now was held by nobody and is not part of the image. */
  lemma TakenFresh(h: PA.Holding, limit: nat)
    requires PA.Accounted(h) && PA.Disjoint(h.pages.ranges) && PA.AllocateBelow(h.pages, limit).1.Some?
    ensures var f := PA.AllocateBelow(h.pages, limit).1.value;
            && f !in h.held && Total(PA.CoverW(f), h.pages.ranges) > 0
            && f in PA.Step(h, PA.TakeBelow(limit)).held
  {
    var f := PA.AllocateBelow(h.pages, limit).1.value;
    var h' := PA.Step(h, PA.TakeBelow(limit));
    PA.StepAccounted(h, PA.TakeBelow(limit));
    PA.StepBounds(h, PA.TakeBelow(limit));
    assert h'.held == h.held + [f] && h'.held[|h.held|] == f;
    assert PA.Disjoint(h'.pages.ranges) by {
      assert forall i, j :: 0 <= i < j < |h'.pages.ranges| ==> PA.Apart(h.pages.ranges[i], h.pages.ranges[j]);
    }
    PA.CoveredOnce(h'.pages.ranges, f);
    PA.HandedCovered(h'.pages.ranges, f);
    PA.Appended(h.held, f, f);
    TotalPositive(PA.IsW(f), h.held);
    assert forall k :: 0 <= k < |h.held| ==> PA.IsW(f)(h.held[k]) == 0;
    BoundsCover(h'.pages.ranges, h.pages.ranges, f);
  }

  lemma BoundsCover(a: seq<PA.Range>, b: seq<PA.Range>, f: nat)
    requires PA.SameBounds(a, b)
    ensures Total(PA.CoverW(f), a) == Total(PA.CoverW(f), b)
  {
    TotalSame(PA.CoverW(f), a, b);
  }

  /** Only page `at` changed; every other mapped page still shows the same bytes. */
  predicate Kept(x: Space, x': Space, at: nat) {
    && |x'.entries| == |x.entries|
    && forall p :: 0 <= p < |x.entries| && p != at ==>
         && x'.entries[p] == x.entries[p]
         && (x.entries[p].Some? && x.entries[p].value.frame in x.mem ==>
               x.entries[p].value.frame in x'.mem && x'.mem[x.entries[p].value.frame] == x.mem[x.entries[p].value.frame])
  }

  lemma DirectFrame(src: Source, s: Segment, r: nat)
    requires s.fileOffset % PAGE_SIZE == 0
    ensures (s.fileOffset + r * PAGE_SIZE) / PAGE_SIZE == s.fileOffset / PAGE_SIZE + r
  {
  }

  /** A page mapped in place shows the file. */
  lemma DirectShows(x: Space, src: Source, s: Segment, r: nat)
    requires ImagePresent(x, src) && SegmentOk(|src.bytes|, s) && Direct(s, r)
    ensures var f := src.base + s.fileOffset / PAGE_SIZE + r;
            InImage(src, f) && f in x.mem && x.mem[f] == Expected(src.bytes, s, r)
  {
    var f := src.base + s.fileOffset / PAGE_SIZE + r;
    var page := Expected(src.bytes, s, r);
    forall j | 0 <= j < PAGE_SIZE
      ensures InImage(src, f) && x.mem[f][j] == page[j]
    {
      var k := s.fileOffset + r * PAGE_SIZE + j;
      assert r * PAGE_SIZE + j < s.fileSize;
      assert k / PAGE_SIZE == s.fileOffset / PAGE_SIZE + r && k % PAGE_SIZE == j by {
        var q := s.fileOffset / PAGE_SIZE;
        assert k == (q + r) * PAGE_SIZE + j;
      }
      assert x.mem[src.base + k / PAGE_SIZE][k % PAGE_SIZE] == src.bytes[k];
    }
    assert InImage(src, f) && |x.mem[f]| == PAGE_SIZE;
    assert x.mem[f] == page;
  }

  lemma PlaceDirect(x: Space, src: Source, s: Segment, r: nat)
    requires SpaceOk(x, src) && SegmentOk(|src.bytes|, s) && r < PageCount(s) && x.entries[PageOf(s, r)].None? && Direct(s, r)
    ensures var (x', error) := Place(x, src, s, r);
            && (error.Some? ==> error == Some(InvalidPhysicalAddress))
            && (error.None? ==> SpaceOk(x', src) && PageLoaded(x', src, s, r) && Kept(x, x', PageOf(s, r)))
  {
    hide PA.Accounted;
    hide PA.Disjoint;
    hide Total;
    hide Expected;
    PageInWindow(|src.bytes|, s, r);
    DirectFrame(src, s, r);
    DirectShows(x, src, s, r);
  }

  lemma PlaceCopied(x: Space, src: Source, s: Segment, r: nat)
    requires SpaceOk(x, src) && SegmentOk(|src.bytes|, s) && r < PageCount(s) && x.entries[PageOf(s, r)].None? && !Direct(s, r)
    ensures var (x', error) := Place(x, src, s, r);
            && (error.Some? ==> error != Some(InvalidLoadPlan))
            && (error.None? ==> SpaceOk(x', src) && PageLoaded(x', src, s, r) && Kept(x, x', PageOf(s, r)))
  {
    hide PA.Accounted;
    hide PA.AllocateBelow;
    hide PA.Step;
    hide Total;
    hide Expected;
    PageInWindow(|src.bytes|, s, r);
    if PA.AllocateBelow(x.frames.pages, IDENTITY_FRAMES).1.Some? {
      var f := PA.AllocateBelow(x.frames.pages, IDENTITY_FRAMES).1.value;
      TakenFresh(x.frames, IDENTITY_FRAMES);
      var taken := PA.Step(x.frames, PA.TakeBelow(IDENTITY_FRAMES));
      PA.StepAccounted(x.frames, PA.TakeBelow(IDENTITY_FRAMES));
      PA.StepBounds(x.frames, PA.TakeBelow(IDENTITY_FRAMES));
      HeldGrows(x.frames, IDENTITY_FRAMES);
      if Place(x, src, s, r).1.None? {
        CopiedOk(x, src, s, r, f, taken);
      }
    }
  }

  lemma HeldGrows(h: PA.Holding, limit: nat)
    ensures forall g :: g in h.held ==> g in PA.Step(h, PA.TakeBelow(limit)).held
  {
  }

  lemma CopiedOk(x: Space, src: Source, s: Segment, r: nat, f: nat, taken: PA.Holding)
    requires SpaceOk(x, src) && SegmentOk(|src.bytes|, s) && r < PageCount(s) && PageOf(s, r) < IMAGE_PAGES && x.entries[PageOf(s, r)].None? && !Direct(s, r)
    requires PA.Accounted(taken) && PA.SameBounds(taken.pages.ranges, x.frames.pages.ranges)
    requires f !in x.frames.held && f in taken.held && Total(PA.CoverW(f), x.frames.pages.ranges) > 0 && forall g :: g in x.frames.held ==> g in taken.held
    ensures var x' := Space(x.entries[PageOf(s, r) := Some(M.Entry(f, FlagsOf(s)))], x.mem[f := Copied(src, s, r)], taken);
            SpaceOk(x', src) && PageLoaded(x', src, s, r) && Kept(x, x', PageOf(s, r))
  {
    hide PA.Accounted;
    hide Expected;
    var x' := Space(x.entries[PageOf(s, r) := Some(M.Entry(f, FlagsOf(s)))], x.mem[f := Copied(src, s, r)], taken);
    assert !InImage(src, f);
    forall g: nat | InImage(src, g)
      ensures Total(PA.CoverW(g), taken.pages.ranges) == 0
    {
      BoundsCover(taken.pages.ranges, x.frames.pages.ranges, g);
    }
    hide Total;
    assert PA.Disjoint(taken.pages.ranges) by {
      assert forall i, j :: 0 <= i < j < |taken.pages.ranges| ==> PA.Apart(x.frames.pages.ranges[i], x.frames.pages.ranges[j]);
    }
    assert ImagePresent(x', src);
    assert Unshared(x', src);
  }

  lemma KeptLoaded(x: Space, x': Space, src: Source, s: Segment, r: nat, at: nat)
    requires s.vaddr >= USER_IMAGE_BASE && s.fileOffset + s.fileSize <= |src.bytes|
    requires PageLoaded(x, src, s, r) && Kept(x, x', at) && PageOf(s, r) != at
    ensures PageLoaded(x', src, s, r)
  {
    hide Expected;
  }
}
