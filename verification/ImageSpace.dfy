/** The finished init image: the loader loops, and what the address space then shows. */
module ImageSpace {
  import opened Prelude
  import opened Counts
  import opened Elf
  import opened ImageLoad
  import PA = PageAllocator
  import PO = PageOutcomes
  import M = Mmap

  predicate InSegment(s: Segment, p: nat)
    requires s.vaddr >= USER_IMAGE_BASE
  {
    PageOf(s, 0) <= p < PageOf(s, 0) + PageCount(s)
  }

  /** Nothing outside the segment's first `n` pages changed. */
  predicate KeptOutside(x: Space, x': Space, s: Segment, n: nat)
    requires s.vaddr >= USER_IMAGE_BASE
  {
    && |x'.entries| == |x.entries|
    && forall p :: 0 <= p < |x.entries| && !(PageOf(s, 0) <= p < PageOf(s, 0) + n) ==>
         && x'.entries[p] == x.entries[p]
         && (x.entries[p].Some? && x.entries[p].value.frame in x.mem ==>
               x.entries[p].value.frame in x'.mem && x'.mem[x.entries[p].value.frame] == x.mem[x.entries[p].value.frame])
  }

  predicate SegmentLoaded(x: Space, src: Source, s: Segment, n: nat)
    requires s.vaddr >= USER_IMAGE_BASE && s.fileOffset + s.fileSize <= |src.bytes|
  {
    forall r :: 0 <= r < n ==> PageLoaded(x, src, s, r)
  }

  predicate ImageLoaded(x: Space, src: Source, segments: seq<Segment>, n: nat)
    requires n <= |segments| && SegmentsOk(|src.bytes|, segments)
  {
    forall k :: 0 <= k < n ==> SegmentLoaded(x, src, segments[k], PageCount(segments[k]))
  }

  /** Only pages of the first `n` segments are mapped. */
  predicate OnlySegments(x: Space, segments: seq<Segment>, n: nat)
    requires n <= |segments| && forall k :: 0 <= k < |segments| ==> segments[k].vaddr >= USER_IMAGE_BASE
  {
    forall p :: 0 <= p < |x.entries| && x.entries[p].Some? ==> exists k :: 0 <= k < n && InSegment(segments[k], p)
  }

  /** Map pages `r` onward, stopping at the first that fails. */
  function PlaceFrom(x: Space, src: Source, s: Segment, r: nat): (Space, Option<LoadError>)
    requires s.vaddr >= USER_IMAGE_BASE && s.fileOffset + s.fileSize <= |src.bytes| && r <= PageCount(s)
    decreases PageCount(s) - r
  {
    if r == PageCount(s) then (x, None)
    else
      var (x', error) := Place(x, src, s, r);
      if error.Some? then (x', error) else PlaceFrom(x', src, s, r + 1)
  }

  /** Map segments `k` onward, stopping at the first that fails. */
  function PlaceSegments(x: Space, src: Source, segments: seq<Segment>, k: nat): (Space, Option<LoadError>)
    requires SegmentsOk(|src.bytes|, segments) && k <= |segments|
    decreases |segments| - k
  {
    if k == |segments| then (x, None)
    else
      var (x', error) := PlaceFrom(x, src, segments[k], 0);
      if error.Some? then (x', error) else PlaceSegments(x', src, segments, k + 1)
  }

  /** The space under construction, over the boot allocator. */
  class ImageBuilder {
    var entries: seq<Option<M.Entry>>
    var mem: map<nat, seq<Byte>>
    const pages: PA.BootPages
    ghost var held: seq<nat>

    ghost function View(): Space
      reads this, pages
    {
      Space(entries, mem, PA.Holding(pages.View(), held))
    }

    constructor (x: Space)
      ensures View() == x && fresh(pages)
    {
      entries, mem := x.entries, x.mem;
      held := x.frames.held;
      pages := new PA.BootPages();
      new;
      pages.ranges, pages.freed := x.frames.pages.ranges, x.frames.pages.freed;
    }

    /** A cleared frame the kernel can reach; an unreachable one goes straight back. */
    method TakeFrame(src: Source) returns (frame: Option<nat>, error: Option<LoadError>)
      modifies this`held, pages
      ensures var (p, f) := PA.AllocateBelow(old(View()).frames.pages, IDENTITY_FRAMES);
              var taken := PA.Step(old(View()).frames, PA.TakeBelow(IDENTITY_FRAMES));
              if f.None? then frame.None? && error == Some(PhysicalMemoryExhausted) && View() == old(View())
              else if f.value !in src.mapped then
                frame.None? && error == Some(ImageNotMapped) && View() == old(View()).(frames := PA.Step(taken, PA.Give(f.value)))
              else frame == f && error == None && View() == old(View()).(frames := taken)
    {
      hide PA.AllocateBelow;
      var f := pages.AllocatePageBelow(IDENTITY_FRAMES);
      if f.None? {
        Unchanged(old(View()).frames.pages);
        return None, Some(PhysicalMemoryExhausted);
      }
      held := held + [f.value];
      if f.value !in src.mapped {
        ghost var now := PA.Holding(pages.View(), held);
        held := PA.Step(now, PA.Give(f.value)).held;
        GivenBack(now, f.value);
        var _ := pages.FreePage(f.value * PAGE_SIZE);
        return None, Some(ImageNotMapped);
      }
      frame, error := f, None;
    }

    /** Put page `r` of a segment in place: the file's own frame where a whole page of
        it is on disk, a filled copy otherwise. */
    method MapPage(src: Source, s: Segment, r: nat) returns (error: Option<LoadError>)
      requires s.vaddr >= USER_IMAGE_BASE && s.fileOffset + s.fileSize <= |src.bytes|
      modifies this, pages
      ensures (View(), error) == Place(old(View()), src, s, r)
    {
      hide PA.AllocateBelow;
      hide PA.Step;
      hide Expected;
      hide Copied;
      var frame;
      if Direct(s, r) && (r + 1) * PAGE_SIZE <= s.memorySize {
        frame := src.base + (s.fileOffset + r * PAGE_SIZE) / PAGE_SIZE;
      } else {
        var taken, failed := TakeFrame(src);
        if taken.None? {
          return failed;
        }
        frame := taken.value;
        var contents := FillPage(src, s, r);
        mem := mem[frame := contents];
      }
      if frame >= M.MAX_FRAME {
        return Some(InvalidPhysicalAddress);
      }
      if PageOf(s, r) >= |entries| || entries[PageOf(s, r)].Some? {
        return Some(InvalidLoadPlan);
      }
      entries := entries[PageOf(s, r) := Some(M.Entry(frame, FlagsOf(s)))];
      error := None;
    }

    /** Every page of the segment is put in place, and nothing else is disturbed. The
        page slots are always free, so only memory can run out. */
    method MapSegment(src: Source, s: Segment) returns (error: Option<LoadError>)
      requires SpaceOk(View(), src) && SegmentOk(|src.bytes|, s)
      requires forall p :: 0 <= p < |entries| && InSegment(s, p) ==> entries[p].None?
      modifies this, pages
      ensures (View(), error) == PlaceFrom(old(View()), src, s, 0)
      ensures error != Some(InvalidLoadPlan)
      ensures error.None? ==> SpaceOk(View(), src) && SegmentLoaded(View(), src, s, PageCount(s)) && KeptOutside(old(View()), View(), s, PageCount(s))
    {
      hide SpaceOk;
      hide Place;
      hide Kept;
      hide PageLoaded;
      ghost var x := View();
      KeptStart(x, s);
      SpaceSize(x, src);
      var r := 0;
      while r < PageCount(s)
        invariant 0 <= r <= PageCount(s)
        invariant PlaceFrom(View(), src, s, r) == PlaceFrom(x, src, s, 0)
        invariant SpaceOk(View(), src) && SegmentLoaded(View(), src, s, r) && KeptOutside(x, View(), s, r)
      {
        ghost var before := View();
        PageInWindow(|src.bytes|, s, r);
        assert entries[PageOf(s, r)] == x.entries[PageOf(s, r)];
        if Direct(s, r) {
          PlaceDirect(before, src, s, r);
        } else {
          PlaceCopied(before, src, s, r);
        }
        var failed := MapPage(src, s, r);
        if failed.Some? {
          return failed;
        }
        KeptMore(x, before, View(), s, r);
        forall q | 0 <= q < r
          ensures PageLoaded(View(), src, s, q)
        {
          KeptLoaded(before, View(), src, s, q, PageOf(s, r));
        }
        r := r + 1;
      }
      error := None;
    }

    /** Check the plan, then map its segments one by one. */
    method Build(src: Source, plan: Plan) returns (error: Option<LoadError>)
      requires SpaceOk(View(), src) && SegmentsOk(|src.bytes|, plan.segments)
      requires forall p :: 0 <= p < |entries| ==> entries[p].None?
      modifies this, pages
      ensures error == Some(InvalidLoadPlan) <==> !NoAlias(plan.segments)
      ensures (View(), error) == if NoAlias(plan.segments) then PlaceSegments(old(View()), src, plan.segments, 0) else (old(View()), Some(InvalidLoadPlan))
      ensures error.None? ==>
                && SpaceOk(View(), src)
                && ImageLoaded(View(), src, plan.segments, |plan.segments|)
                && OnlySegments(View(), plan.segments, |plan.segments|)
    {
      hide SpaceOk;
      hide PlaceFrom;
      hide PlaceSegments;
      hide SegmentLoaded;
      hide NoAlias;
      hide SegmentRefused;
      RefusedPrefix(|src.bytes|, plan, |plan.segments|);
      assert plan.segments[..|plan.segments|] == plan.segments;
      RefusedKinds(|src.bytes|, plan, |plan.segments|);
      var refused := PlanRefused(|src.bytes|, plan, |plan.segments|);
      if refused.Some? {
        return refused;
      }
      var k := 0;
      while k < |plan.segments|
        invariant 0 <= k <= |plan.segments|
        invariant PlaceSegments(View(), src, plan.segments, k) == PlaceSegments(old(View()), src, plan.segments, 0)
        invariant SpaceOk(View(), src) && ImageLoaded(View(), src, plan.segments, k) && OnlySegments(View(), plan.segments, k)
      {
        ghost var before := View();
        var s := plan.segments[k];
        forall p | 0 <= p < |entries| && InSegment(s, p)
          ensures entries[p].None?
        {
          SlotFree(before, |src.bytes|, plan.segments, k, p);
        }
        SegmentStep(before, src, plan.segments, k);
        var failed := MapSegment(src, s);
        if failed.Some? {
          return failed;
        }
        EarlierKept(before, View(), src, plan.segments, k);
        OnlyMore(before, View(), plan.segments, k);
        k := k + 1;
      }
      SegmentsDone(View(), src, plan.segments);
      error := None;
    }
  }

  // ----- Allocator steps -----

  lemma Unchanged(p: PA.Pages)
    ensures PA.AllocateBelow(p, IDENTITY_FRAMES).1.None? ==> PA.AllocateBelow(p, IDENTITY_FRAMES).0 == p
  {
  }

  /** A frame just taken is given back through its address. */
  lemma GivenBack(h: PA.Holding, frame: nat)
    requires frame in h.held
    ensures (frame * PAGE_SIZE) % PAGE_SIZE == 0 && (frame * PAGE_SIZE) / PAGE_SIZE == frame
    ensures PA.Step(h, PA.Give(frame)).pages == PA.Free(h.pages, frame).0
  {
  }

  // ----- Loop steps -----

  lemma SegmentStep(x: Space, src: Source, segments: seq<Segment>, k: nat)
    requires SegmentsOk(|src.bytes|, segments) && k < |segments|
    ensures var (x', error) := PlaceFrom(x, src, segments[k], 0);
            PlaceSegments(x, src, segments, k) == if error.Some? then (x', error) else PlaceSegments(x', src, segments, k + 1)
  {
    hide PlaceFrom;
  }

  lemma SegmentsDone(x: Space, src: Source, segments: seq<Segment>)
    requires SegmentsOk(|src.bytes|, segments)
    ensures PlaceSegments(x, src, segments, |segments|) == (x, None)
  {
  }

  lemma KeptStart(x: Space, s: Segment)
    requires s.vaddr >= USER_IMAGE_BASE
    ensures KeptOutside(x, x, s, 0)
  {
  }

  lemma SpaceSize(x: Space, src: Source)
    requires SpaceOk(x, src)
    ensures |x.entries| == IMAGE_PAGES
  {
  }

  lemma KeptMore(x: Space, mid: Space, x': Space, s: Segment, r: nat)
    requires s.vaddr >= USER_IMAGE_BASE && KeptOutside(x, mid, s, r) && Kept(mid, x', PageOf(s, r))
    ensures KeptOutside(x, x', s, r + 1)
  {
  }

  lemma {:induction false} RefusedKinds(size: nat, p: Plan, n: nat)
    requires n <= |p.segments| && SegmentsOk(size, p.segments)
    ensures PlanRefused(size, p, n).Some? ==> PlanRefused(size, p, n) == Some(InvalidLoadPlan)
  {
    hide AliasConflict;
    hide Overlap;
    if n > 0 {
      RefusedKinds(size, p, n - 1);
      assert SegmentOk(size, p.segments[n - 1]);
    }
  }

  /** A page of a later segment is not taken by an earlier one. */
  lemma SlotFree(x: Space, size: nat, segments: seq<Segment>, k: nat, p: nat)
    requires SegmentsOk(size, segments) && k < |segments| && OnlySegments(x, segments, k) && p < |x.entries| && InSegment(segments[k], p)
    ensures x.entries[p].None?
  {
    hide Overlap;
    hide PageCount;
    if x.entries[p].Some? {
      var j :| 0 <= j < k && InSegment(segments[j], p);
      var a, b := segments[j], segments[k];
      assert !Overlap(a, b);
      PagesApart(size, a, p - PageOf(a, 0), b, p - PageOf(b, 0));
    }
  }

  lemma EarlierKept(x: Space, x': Space, src: Source, segments: seq<Segment>, k: nat)
    requires SegmentsOk(|src.bytes|, segments) && k < |segments| && ImageLoaded(x, src, segments, k)
    requires KeptOutside(x, x', segments[k], PageCount(segments[k])) && SegmentLoaded(x', src, segments[k], PageCount(segments[k]))
    ensures ImageLoaded(x', src, segments, k + 1)
  {
    hide PageLoaded;
    forall j | 0 <= j < k
      ensures SegmentLoaded(x', src, segments[j], PageCount(segments[j]))
    {
      assert SegmentLoaded(x, src, segments[j], PageCount(segments[j]));
      forall r | 0 <= r < PageCount(segments[j])
        ensures PageLoaded(x', src, segments[j], r)
      {
        assert PageLoaded(x, src, segments[j], r);
        StillLoaded(x, x', src, segments[j], r, segments[k]);
      }
    }
  }

  lemma StillLoaded(x: Space, x': Space, src: Source, a: Segment, r: nat, b: Segment)
    requires SegmentOk(|src.bytes|, a) && SegmentOk(|src.bytes|, b) && !Overlap(a, b) && r < PageCount(a)
    requires PageLoaded(x, src, a, r) && KeptOutside(x, x', b, PageCount(b))
    ensures PageLoaded(x', src, a, r)
  {
    hide Expected;
    var p := PageOf(a, r);
    if PageOf(b, 0) <= p < PageOf(b, 0) + PageCount(b) {
      PagesApart(|src.bytes|, a, r, b, p - PageOf(b, 0));
    }
  }

  lemma OnlyMore(x: Space, x': Space, segments: seq<Segment>, k: nat)
    requires k < |segments| && (forall j :: 0 <= j < |segments| ==> segments[j].vaddr >= USER_IMAGE_BASE)
    requires OnlySegments(x, segments, k) && KeptOutside(x, x', segments[k], PageCount(segments[k]))
    ensures OnlySegments(x', segments, k + 1)
  {
    forall p | 0 <= p < |x'.entries| && x'.entries[p].Some?
      ensures exists j :: 0 <= j < k + 1 && InSegment(segments[j], p)
    {
      if !InSegment(segments[k], p) {
        assert x.entries[p].Some?;
        var j :| 0 <= j < k && InSegment(segments[j], p);
      }
    }
  }

  // ----- What the image shows -----

  /** The page-table entry a user access to `address` goes through. */
  function EntryFor(x: Space, address: nat): Option<M.Entry>
    requires address >= USER_IMAGE_BASE
  {
    var p := (address - USER_IMAGE_BASE) / PAGE_SIZE;
    if p < |x.entries| && x.entries[p].Some? && {M.Present, M.User} <= x.entries[p].value.flags then x.entries[p] else None
  }

  /** The byte a user load at `address` sees. */
  function ReadByte(x: Space, address: nat): Option<Byte>
    requires address >= USER_IMAGE_BASE
  {
    var e, j := EntryFor(x, address), address % PAGE_SIZE;
    if e.Some? && e.value.frame in x.mem && j < |x.mem[e.value.frame]| then Some(x.mem[e.value.frame][j]) else None
  }

  predicate CanStore(x: Space, address: nat)
    requires address >= USER_IMAGE_BASE
  {
    EntryFor(x, address).Some? && M.Writable in EntryFor(x, address).value.flags
  }

  predicate CanFetch(x: Space, address: nat)
    requires address >= USER_IMAGE_BASE
  {
    EntryFor(x, address).Some? && M.NoExecute !in EntryFor(x, address).value.flags
  }

  lemma WithinPage(s: Segment, k: nat)
    requires s.vaddr >= USER_IMAGE_BASE && s.vaddr % PAGE_SIZE == 0 && k < s.memorySize
    ensures var r, j := k / PAGE_SIZE, k % PAGE_SIZE;
            && r < PageCount(s) && k == r * PAGE_SIZE + j
            && (s.vaddr + k - USER_IMAGE_BASE) / PAGE_SIZE == PageOf(s, r) && (s.vaddr + k) % PAGE_SIZE == j
  {
    var r, j := k / PAGE_SIZE, k % PAGE_SIZE;
    var v := s.vaddr / PAGE_SIZE;
    assert s.vaddr + k == (v + r) * PAGE_SIZE + j;
  }

  /** Every segment reads as its file bytes followed by zeros. */
  lemma SegmentReads(x: Space, src: Source, segments: seq<Segment>, i: nat, k: nat)
    requires SegmentsOk(|src.bytes|, segments) && ImageLoaded(x, src, segments, |segments|) && i < |segments| && k < segments[i].memorySize
    ensures var s := segments[i];
            ReadByte(x, s.vaddr + k) == Some(if k < s.fileSize then src.bytes[s.fileOffset + k] else 0)
  {
    var s := segments[i];
    WithinPage(s, k);
    assert SegmentLoaded(x, src, s, PageCount(s));
    assert PageLoaded(x, src, s, k / PAGE_SIZE);
  }

  /** User code may store to and fetch from a segment exactly as its program header says
      (bit 1 and bit 0 of its flags), and nothing can be done outside the segments. */
  lemma SegmentPermissions(x: Space, src: Source, segments: seq<Segment>, address: nat)
    requires SegmentsOk(|src.bytes|, segments) && ImageLoaded(x, src, segments, |segments|) && OnlySegments(x, segments, |segments|)
    requires address >= USER_IMAGE_BASE
    ensures forall i :: 0 <= i < |segments| && segments[i].vaddr <= address < segments[i].vaddr + segments[i].memorySize ==>
              && (CanStore(x, address) <==> segments[i].flags / 2 % 2 == 1)
              && (CanFetch(x, address) <==> segments[i].flags % 2 == 1)
    ensures (forall i :: 0 <= i < |segments| ==> !InSegment(segments[i], (address - USER_IMAGE_BASE) / PAGE_SIZE)) ==>
              ReadByte(x, address).None? && !CanStore(x, address) && !CanFetch(x, address)
  {
    hide Expected;
    hide InSegment;
    forall i | 0 <= i < |segments| && segments[i].vaddr <= address < segments[i].vaddr + segments[i].memorySize
      ensures CanStore(x, address) <==> segments[i].flags / 2 % 2 == 1
      ensures CanFetch(x, address) <==> segments[i].flags % 2 == 1
    {
      var s := segments[i];
      assert SegmentLoaded(x, src, s, PageCount(s));
      WithinPage(s, address - s.vaddr);
      assert PageLoaded(x, src, s, (address - s.vaddr) / PAGE_SIZE);
    }
  }

  /** So an accepted image starts: its entry point holds a byte of the file that can be
      fetched and not stored to. */
  lemma EntryStarts(x: Space, src: Source, plan: Plan)
    requires WellFormed(src.bytes) && plan == PlanOf(src.bytes)
    requires ImageLoaded(x, src, plan.segments, |plan.segments|) && OnlySegments(x, plan.segments, |plan.segments|)
    ensures plan.entry >= USER_IMAGE_BASE && CanFetch(x, plan.entry) && !CanStore(x, plan.entry)
    ensures exists i :: 0 <= i < |plan.segments| && plan.segments[i].vaddr <= plan.entry < plan.segments[i].vaddr + plan.segments[i].fileSize
                        && plan.segments[i].fileOffset + plan.entry - plan.segments[i].vaddr < |src.bytes|
                        && ReadByte(x, plan.entry) == Some(src.bytes[plan.segments[i].fileOffset + plan.entry - plan.segments[i].vaddr])
  {
    hide Loads;
    hide LastTls;
    hide HeaderError;
    hide TemplatesOk;
    hide PageLoaded;
    var i :| 0 <= i < |plan.segments| && Starts(plan.segments[i], plan.entry);
    assert SegmentOk(|src.bytes|, plan.segments[i]);
    SegmentPermissions(x, src, plan.segments, plan.entry);
    SegmentReads(x, src, plan.segments, i, plan.entry - plan.segments[i].vaddr);
  }

  /** The thread-local template of an accepted image is what its segment was loaded with. */
  lemma TemplateReads(x: Space, src: Source, plan: Plan, i: nat, j: nat)
    requires SegmentsOk(|src.bytes|, plan.segments) && ImageLoaded(x, src, plan.segments, |plan.segments|)
    requires i < |plan.segments| && plan.tls.Some? && Covers(plan.segments[i], plan.tls.value) && j < plan.tls.value.fileSize <= plan.tls.value.memorySize
    ensures plan.tls.value.fileOffset + j < |src.bytes|
    ensures ReadByte(x, plan.tls.value.vaddr + j) == Some(src.bytes[plan.tls.value.fileOffset + j])
  {
    var s, t := plan.segments[i], plan.tls.value;
    SegmentReads(x, src, plan.segments, i, t.vaddr - s.vaddr + j);
  }

  /** A mapped page belongs to one segment and carries its permissions. */
  lemma PageSource(x: Space, src: Source, segments: seq<Segment>, p: nat) returns (k: nat, r: nat)
    requires SegmentsOk(|src.bytes|, segments) && ImageLoaded(x, src, segments, |segments|) && OnlySegments(x, segments, |segments|)
    requires p < |x.entries| && x.entries[p].Some?
    ensures k < |segments| && r < PageCount(segments[k]) && PageOf(segments[k], r) == p && PageLoaded(x, src, segments[k], r)
  {
    k :| 0 <= k < |segments| && InSegment(segments[k], p);
    r := p - PageOf(segments[k], 0);
    assert SegmentLoaded(x, src, segments[k], PageCount(segments[k]));
  }

  /** No frame can be written through one page and executed through another, even when
      segments share file pages. */
  lemma NoWritableExecutableFrame(x: Space, src: Source, segments: seq<Segment>, p: nat, q: nat)
    requires SpaceOk(x, src) && SegmentsOk(|src.bytes|, segments) && NoAlias(segments)
    requires ImageLoaded(x, src, segments, |segments|) && OnlySegments(x, segments, |segments|)
    requires p < |x.entries| && q < |x.entries| && x.entries[p].Some? && x.entries[q].Some? && x.entries[p].value.frame == x.entries[q].value.frame
    ensures !(M.Writable in x.entries[p].value.flags && M.NoExecute !in x.entries[q].value.flags)
  {
    hide Expected;
    hide ImagePresent;
    hide ImageReserved;
    hide PA.Accounted;
    var i, r := PageSource(x, src, segments, p);
    var j, t := PageSource(x, src, segments, q);
    var a, b := segments[i], segments[j];
    assert SegmentOk(|src.bytes|, a) && SegmentOk(|src.bytes|, b);
    if i != j {
      assert p != q by {
        assert i < j ==> !Overlap(a, b);
        assert j < i ==> !Overlap(b, a);
        PagesApart(|src.bytes|, a, r, b, t);
      }
      assert InImage(src, x.entries[p].value.frame);
      assert Direct(a, r) && Direct(b, t);
      SharedPage(a, r, b, t);
      assert i < j ==> !AliasConflict(b, a);
      assert j < i ==> !AliasConflict(a, b);
    }
  }

  /** In-place pages with the same frame are one file page. */
  lemma SharedPage(a: Segment, r: nat, b: Segment, t: nat)
    requires a.fileOffset % PAGE_SIZE == 0 && b.fileOffset % PAGE_SIZE == 0 && Direct(a, r) && Direct(b, t)
    requires a.fileOffset / PAGE_SIZE + r == b.fileOffset / PAGE_SIZE + t
    ensures a.fileOffset < DirectEnd(b) && b.fileOffset < DirectEnd(a)
  {
    DirectWithin(a, r);
    DirectWithin(b, t);
    assert a.fileOffset + r * PAGE_SIZE == b.fileOffset + t * PAGE_SIZE;
  }

  lemma DirectWithin(a: Segment, r: nat)
    requires Direct(a, r)
    ensures a.fileOffset + (r + 1) * PAGE_SIZE <= DirectEnd(a)
  {
    assert r + 1 <= a.fileSize / PAGE_SIZE;
  }

  // ----- When a page cannot be put in place -----

  /** A copied page fails for want of a frame below 4 GiB only when none is left there, and for
      a frame the kernel cannot reach only with that frame. */
  lemma PlaceRefused(x: Space, src: Source, s: Segment, r: nat)
    requires SegmentOk(|src.bytes|, s) && !(Direct(s, r) && (r + 1) * PAGE_SIZE <= s.memorySize)
    ensures var p, error := x.frames.pages, Place(x, src, s, r).1;
            && (error == Some(PhysicalMemoryExhausted) <==>
                  && (forall k :: 0 <= k < |p.freed| ==> p.freed[k] >= 0x10_0000)
                  && (forall k :: 0 <= k < |p.ranges| ==> p.ranges[k].next >= p.ranges[k].end || p.ranges[k].next >= 0x10_0000))
            && (error == Some(ImageNotMapped) <==>
                  PA.AllocateBelow(p, 0x10_0000).1.Some? && PA.AllocateBelow(p, 0x10_0000).1.value !in src.mapped)
  {
    hide Copied;
    PO.AllocationSucceeds(x.frames.pages, IDENTITY_FRAMES);
    hide PA.AllocateBelow;
    hide PA.Step;
  }

  /** A frame taken and given back at once leaves every holding as it was if and only if the
      free list has room for it; otherwise it stays held. */
  lemma TakenAndGiven(h: PA.Holding, f: nat)
    requires PA.Accounted(h) && PA.Disjoint(h.pages.ranges) && |h.pages.freed| <= 128 && PA.AllocateBelow(h.pages, IDENTITY_FRAMES).1.Some?
    ensures var (p, frame) := PA.AllocateBelow(h.pages, IDENTITY_FRAMES);
            var h' := PA.Step(PA.Step(h, PA.TakeBelow(IDENTITY_FRAMES)), PA.Give(frame.value));
            if |p.freed| < 128 then Total(PA.IsW(f), h'.held) == Total(PA.IsW(f), h.held) else h'.held == h.held + [frame.value]
  {
    var op := PA.TakeBelow(IDENTITY_FRAMES);
    var frame := PA.AllocateBelow(h.pages, IDENTITY_FRAMES).1.value;
    FewerFreed(h.pages);
    hide PA.AllocateBelow;
    hide PA.Accounted;
    hide PA.Free;
    hide Total;
    var taken := PA.Step(h, op);
    PA.StepAccounted(h, op);
    PA.StepBounds(h, op);
    assert taken.held == h.held + [frame];
    assert PA.Disjoint(taken.pages.ranges) by {
      assert forall i, j :: 0 <= i < j < |taken.pages.ranges| ==> PA.Apart(h.pages.ranges[i], h.pages.ranges[j]);
    }
    assert taken.held[|h.held|] == frame;
    PO.FreeSucceeds(taken, frame);
    PA.Appended(h.held, frame, f);
    PA.Removed(taken.held, PA.FirstOf(taken.held, frame).value, f);
  }

  /** An unreachable frame is not kept: everyone holds what they held before if the free list
      has room, and otherwise that frame is held for good. Nothing else changes. */
  lemma UnreachableGivenBack(x: Space, src: Source, s: Segment, r: nat, f: nat)
    requires SegmentOk(|src.bytes|, s) && Place(x, src, s, r).1 == Some(ImageNotMapped)
    requires PA.Accounted(x.frames) && PA.Disjoint(x.frames.pages.ranges) && |x.frames.pages.freed| <= 128
    ensures var (p, frame) := PA.AllocateBelow(x.frames.pages, IDENTITY_FRAMES);
            var held := Place(x, src, s, r).0.frames.held;
            && frame.Some?
            && if |p.freed| < 128 then Total(PA.IsW(f), held) == Total(PA.IsW(f), x.frames.held) else held == x.frames.held + [frame.value]
    ensures Place(x, src, s, r).0.entries == x.entries && Place(x, src, s, r).0.mem == x.mem
  {
    hide PA.AllocateBelow;
    hide PA.Accounted;
    hide PA.Disjoint;
    hide PA.Step;
    hide Copied;
    hide Total;
    TakenAndGiven(x.frames, f);
  }

  lemma FewerFreed(p: PA.Pages)
    ensures |PA.AllocateBelow(p, IDENTITY_FRAMES).0.freed| <= |p.freed|
  {
  }
}
