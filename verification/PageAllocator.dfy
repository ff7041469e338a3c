/** The boot page allocator. Frames are counted in pages: a physical address is a
    frame number times the page size. */
module PageAllocator {
  import opened Prelude
  import opened Counts

  const PAGE_SIZE: nat := 4096
  const MAX_RANGES: nat := 128
  const MAX_FREED_PAGES: nat := 128
  const CONVENTIONAL: nat := 7

  /** Frames `start..next` were handed out, `next..end` were not. */
  datatype Range = Range(start: nat, next: nat, end: nat)

  datatype Pages = Pages(ranges: seq<Range>, freed: seq<nat>)

  datatype MapEntry = MapEntry(kind: nat, physicalStart: nat, pageCount: nat)

  datatype AllocatorError = InvalidMemoryMap | AddressOverflow | TooManyRanges

  function Usable(e: MapEntry): bool {
    e.kind == CONVENTIONAL && e.pageCount != 0
  }

  function RangesOf(entries: seq<MapEntry>): (r: Result<seq<Range>, AllocatorError>)
    decreases |entries|
  {
    if entries == [] then Ok([])
    else
      var e := entries[|entries| - 1];
      match RangesOf(entries[..|entries| - 1])
      case Err(error) => Err(error)
      case Ok(ranges) =>
        if !Usable(e) then Ok(ranges)
        else if e.physicalStart % PAGE_SIZE != 0 then Err(InvalidMemoryMap)
        else if e.physicalStart + e.pageCount * PAGE_SIZE > U64_MAX then Err(AddressOverflow)
        else if |ranges| == MAX_RANGES then Err(TooManyRanges)
        else
          var first := e.physicalStart / PAGE_SIZE;
          Ok(ranges + [Range(first, first, first + e.pageCount)])
  }

  function FromMap(entries: seq<MapEntry>): Result<Pages, AllocatorError> {
    match RangesOf(entries)
    case Err(error) => Err(error)
    case Ok(ranges) => if ranges == [] then Err(InvalidMemoryMap) else Ok(Pages(ranges, []))
  }

  // ----- Operations -----

  function FirstOpen(ranges: seq<Range>, below: Option<nat>): (r: Option<nat>)
    ensures r.Some? ==> r.value < |ranges| && ranges[r.value].next < ranges[r.value].end && (below.Some? ==> ranges[r.value].next < below.value)
    ensures r.None? ==> forall k :: 0 <= k < |ranges| ==> ranges[k].next >= ranges[k].end || (below.Some? && ranges[k].next >= below.value)
  {
    if ranges == [] then None
    else if ranges[0].next < ranges[0].end && (below.Some? ==> ranges[0].next < below.value) then Some(0)
    else
      assert forall k :: 0 < k < |ranges| ==> ranges[k] == ranges[1..][k - 1];
      match FirstOpen(ranges[1..], below)
      case None => None
      case Some(i) => Some(i + 1)
  }

  function TakeFrom(p: Pages, below: Option<nat>): (Pages, Option<nat>) {
    match FirstOpen(p.ranges, below)
    case None => (p, None)
    case Some(i) => (p.(ranges := p.ranges[i := p.ranges[i].(next := p.ranges[i].next + 1)]), Some(p.ranges[i].next))
  }

  function Allocate(p: Pages): (Pages, Option<nat>) {
    if p.freed != [] then (p.(freed := p.freed[..|p.freed| - 1]), Some(p.freed[|p.freed| - 1])) else TakeFrom(p, None)
  }

  function FirstBelow(freed: seq<nat>, limit: nat): (r: Option<nat>)
    ensures r.Some? ==> r.value < |freed| && freed[r.value] < limit
  {
    if freed == [] then None
    else if freed[0] < limit then Some(0)
    else match FirstBelow(freed[1..], limit)
      case None => None
      case Some(i) => Some(i + 1)
  }

  /** The taken entry is replaced by the last one. */
  function SwapRemove(s: seq<nat>, i: nat): seq<nat>
    requires i < |s|
  {
    s[i := s[|s| - 1]][..|s| - 1]
  }

  function AllocateBelow(p: Pages, limit: nat): (Pages, Option<nat>) {
    match FirstBelow(p.freed, limit)
    case Some(i) => (p.(freed := SwapRemove(p.freed, i)), Some(p.freed[i]))
    case None => TakeFrom(p, Some(limit))
  }

  predicate Handed(r: Range, frame: nat) {
    r.start <= frame < r.next
  }

  function Free(p: Pages, frame: nat): (Pages, bool) {
    if (forall k :: 0 <= k < |p.ranges| ==> !Handed(p.ranges[k], frame)) || frame in p.freed || |p.freed| == MAX_FREED_PAGES then (p, false)
    else (p.(freed := p.freed + [frame]), true)
  }

  // ----- Who holds what -----

  /** The allocator and the frames its callers hold, with repetitions. */
  datatype Holding = Holding(pages: Pages, held: seq<nat>)

  datatype PageOp = Take | TakeBelow(limit: nat) | Give(frame: nat)

  function Keep(h: Holding, r: (Pages, Option<nat>)): Holding {
    Holding(r.0, if r.1.Some? then h.held + [r.1.value] else h.held)
  }

  function FirstOf(s: seq<nat>, x: nat): (r: Option<nat>)
    ensures r.Some? ==> r.value < |s| && s[r.value] == x
    ensures r.None? ==> x !in s
  {
    if s == [] then None
    else if s[0] == x then Some(0)
    else match FirstOf(s[1..], x)
      case None => None
      case Some(i) => Some(i + 1)
  }

  /** Callers give back frames they hold. */
  function Step(h: Holding, op: PageOp): Holding {
    match op
    case Take => Keep(h, Allocate(h.pages))
    case TakeBelow(limit) => Keep(h, AllocateBelow(h.pages, limit))
    case Give(frame) =>
      match FirstOf(h.held, frame)
      case None => h
      case Some(i) =>
        var (p, ok) := Free(h.pages, frame);
        if ok then Holding(p, SwapRemove(h.held, i)) else h
  }

  function IsW(x: nat): nat -> nat {
    (y: nat) => if y == x then 1 else 0
  }

  function HandedW(frame: nat): Range -> nat {
    (r: Range) => if Handed(r, frame) then 1 else 0
  }

  function CoverW(frame: nat): Range -> nat {
    (r: Range) => if r.start <= frame < r.end then 1 else 0
  }

  predicate Shaped(ranges: seq<Range>) {
    forall k :: 0 <= k < |ranges| ==> ranges[k].start <= ranges[k].next <= ranges[k].end
  }

  /** Every frame handed out so far is held or on the free list, once per range that
      handed it out. */
  ghost predicate Accounted(h: Holding) {
    && Shaped(h.pages.ranges)
    && forall frame: nat :: Total(IsW(frame), h.held) + Total(IsW(frame), h.pages.freed) == Total(HandedW(frame), h.pages.ranges)
  }

  lemma Appended(s: seq<nat>, x: nat, frame: nat)
    ensures Total(IsW(frame), s + [x]) == Total(IsW(frame), s) + IsW(frame)(x)
  {
    TotalAppend(IsW(frame), s, [x]);
    assert [x][1..] == [];
  }

  lemma Removed(s: seq<nat>, i: nat, frame: nat)
    requires i < |s|
    ensures Total(IsW(frame), SwapRemove(s, i)) == Total(IsW(frame), s) - IsW(frame)(s[i])
  {
    hide Total;
    hide IsW;
    var last := s[|s| - 1];
    var filled := s[i := last];
    TotalUpdate(IsW(frame), s, i, last);
    TotalTake(IsW(frame), filled, |s|);
    assert filled[..|s|] == filled && filled[|s| - 1] == last;
  }

  lemma TakeFromAccounted(h: Holding, below: Option<nat>)
    requires Accounted(h)
    ensures Accounted(Keep(h, TakeFrom(h.pages, below)))
  {
    var (p, frame) := TakeFrom(h.pages, below);
    if frame.Some? {
      var i := FirstOpen(h.pages.ranges, below).value;
      forall x: nat
        ensures Total(HandedW(x), p.ranges) == Total(HandedW(x), h.pages.ranges) + IsW(x)(frame.value)
        ensures Total(IsW(x), h.held + [frame.value]) == Total(IsW(x), h.held) + IsW(x)(frame.value)
      {
        TotalUpdate(HandedW(x), h.pages.ranges, i, p.ranges[i]);
        Appended(h.held, frame.value, x);
      }
    }
  }

  lemma StepAccounted(h: Holding, op: PageOp)
    requires Accounted(h)
    ensures Accounted(Step(h, op))
  {
    hide Total;
    match op
    case Take =>
      if h.pages.freed == [] {
        TakeFromAccounted(h, None);
      } else {
        var n := |h.pages.freed|;
        var frame := h.pages.freed[n - 1];
        forall x: nat
          ensures Total(IsW(x), h.pages.freed) == Total(IsW(x), h.pages.freed[..n - 1]) + IsW(x)(frame)
          ensures Total(IsW(x), h.held + [frame]) == Total(IsW(x), h.held) + IsW(x)(frame)
        {
          TotalTake(IsW(x), h.pages.freed, n);
          assert h.pages.freed[..n] == h.pages.freed;
          Appended(h.held, frame, x);
        }
      }
    case TakeBelow(limit) =>
      var at := FirstBelow(h.pages.freed, limit);
      if at.None? {
        TakeFromAccounted(h, Some(limit));
      } else {
        var frame := h.pages.freed[at.value];
        forall x: nat
          ensures Total(IsW(x), SwapRemove(h.pages.freed, at.value)) == Total(IsW(x), h.pages.freed) - IsW(x)(frame)
          ensures Total(IsW(x), h.held + [frame]) == Total(IsW(x), h.held) + IsW(x)(frame)
        {
          Removed(h.pages.freed, at.value, x);
          Appended(h.held, frame, x);
        }
      }
    case Give(frame) =>
      var at := FirstOf(h.held, frame);
      if at.Some? {
        forall x: nat
          ensures Total(IsW(x), SwapRemove(h.held, at.value)) == Total(IsW(x), h.held) - IsW(x)(frame)
          ensures Total(IsW(x), h.pages.freed + [frame]) == Total(IsW(x), h.pages.freed) + IsW(x)(frame)
        {
          Removed(h.held, at.value, x);
          Appended(h.pages.freed, frame, x);
        }
      }
  }

  function Run(h: Holding, ops: seq<PageOp>): Holding
    decreases |ops|
  {
    if ops == [] then h else Run(Step(h, ops[0]), ops[1..])
  }

  /** The two ranges share no frame. */
  predicate Apart(a: Range, b: Range) {
    a.end <= b.start || b.end <= a.start || a.start >= a.end || b.start >= b.end
  }

  predicate Disjoint(ranges: seq<Range>) {
    forall i, j :: 0 <= i < j < |ranges| ==> Apart(ranges[i], ranges[j])
  }

  predicate SameBounds(a: seq<Range>, b: seq<Range>) {
    |a| == |b| && forall k :: 0 <= k < |a| ==> a[k].start == b[k].start && a[k].end == b[k].end
  }

  lemma StepBounds(h: Holding, op: PageOp)
    ensures SameBounds(Step(h, op).pages.ranges, h.pages.ranges)
  {
  }

  lemma {:induction false} RunAccounted(h: Holding, ops: seq<PageOp>)
    requires Accounted(h)
    ensures Accounted(Run(h, ops)) && SameBounds(Run(h, ops).pages.ranges, h.pages.ranges)
    decreases |ops|
  {
    hide Accounted;
    hide Step;
    if ops != [] {
      StepAccounted(h, ops[0]);
      StepBounds(h, ops[0]);
      RunAccounted(Step(h, ops[0]), ops[1..]);
    }
  }

  /** A fresh allocator: nothing handed out, nothing freed, nobody holds a frame. */
  predicate Unused(h: Holding) {
    && h.held == [] && h.pages.freed == []
    && forall k :: 0 <= k < |h.pages.ranges| ==> h.pages.ranges[k].start == h.pages.ranges[k].next <= h.pages.ranges[k].end
  }

  lemma UnusedAccounted(h: Holding)
    requires Unused(h)
    ensures Accounted(h)
  {
    forall frame: nat
      ensures Total(HandedW(frame), h.pages.ranges) == 0
    {
      TotalZero(HandedW(frame), h.pages.ranges);
    }
  }

  lemma {:induction false} CoveredOnce(ranges: seq<Range>, frame: nat)
    requires Disjoint(ranges)
    ensures Total(CoverW(frame), ranges) <= 1
  {
    if ranges != [] {
      var rest := ranges[1..];
      assert forall i, j :: 0 <= i < j < |rest| ==> rest[i] == ranges[i + 1] && rest[j] == ranges[j + 1];
      CoveredOnce(rest, frame);
      if CoverW(frame)(ranges[0]) == 1 {
        forall k | 0 <= k < |rest|
          ensures CoverW(frame)(rest[k]) == 0
        {
          assert Apart(ranges[0], ranges[k + 1]);
        }
        TotalZero(CoverW(frame), rest);
      }
    }
  }

  lemma {:induction false} HandedCovered(ranges: seq<Range>, frame: nat)
    requires Shaped(ranges)
    ensures Total(HandedW(frame), ranges) <= Total(CoverW(frame), ranges)
    ensures (forall k :: 0 <= k < |ranges| ==> ranges[k].next == ranges[k].end) ==> Total(HandedW(frame), ranges) == Total(CoverW(frame), ranges)
  {
    if ranges != [] {
      HandedCovered(ranges[1..], frame);
    }
  }

  /** From disjoint ranges no run lets a frame be held twice, or held and free. */
  lemma NeverTwice(h: Holding, ops: seq<PageOp>, frame: nat)
    requires Unused(h) && Disjoint(h.pages.ranges)
    ensures Total(IsW(frame), Run(h, ops).held) + Total(IsW(frame), Run(h, ops).pages.freed) <= 1
  {
    UnusedAccounted(h);
    RunAccounted(h, ops);
    var ranges := Run(h, ops).pages.ranges;
    assert forall i, j :: 0 <= i < j < |ranges| ==> Apart(h.pages.ranges[i], h.pages.ranges[j]);
    assert Disjoint(ranges);
    CoveredOnce(ranges, frame);
    HandedCovered(ranges, frame);
  }

  function OpenW(): Range -> nat {
    (r: Range) => if r.next < r.end then r.end - r.next else 0
  }

  function Takes(n: nat): seq<PageOp> {
    if n == 0 then [] else [Take] + Takes(n - 1)
  }

  /** Taking every page leaves every range exhausted. */
  lemma {:induction false} TakeEverything(h: Holding)
    requires Accounted(h) && h.pages.freed == []
    ensures var h' := Run(h, Takes(Total(OpenW(), h.pages.ranges)));
            h'.pages.freed == [] && Accounted(h') && SameBounds(h'.pages.ranges, h.pages.ranges)
            && forall k :: 0 <= k < |h'.pages.ranges| ==> h'.pages.ranges[k].next == h'.pages.ranges[k].end
    decreases Total(OpenW(), h.pages.ranges)
  {
    hide Accounted;
    hide Total;
    TakeOne(h);
    if Total(OpenW(), h.pages.ranges) > 0 {
      hide Step;
      StepAccounted(h, Take);
      StepBounds(h, Take);
      TakeEverything(Step(h, Take));
      assert Takes(Total(OpenW(), h.pages.ranges))[1..] == Takes(Total(OpenW(), h.pages.ranges) - 1);
    }
  }

  /** While a page is left, taking one leaves one less. */
  lemma TakeOne(h: Holding)
    requires Accounted(h) && h.pages.freed == []
    ensures var ranges := h.pages.ranges;
            if Total(OpenW(), ranges) == 0 then forall k :: 0 <= k < |ranges| ==> ranges[k].next == ranges[k].end
            else Step(h, Take).pages.freed == [] && Total(OpenW(), Step(h, Take).pages.ranges) == Total(OpenW(), ranges) - 1
  {
    var ranges := h.pages.ranges;
    TotalPositive(OpenW(), ranges);
    ShapedOf(h);
    hide Accounted;
    if Total(OpenW(), ranges) > 0 {
      var i := FirstOpen(ranges, None).value;
      TotalUpdate(OpenW(), ranges, i, ranges[i].(next := ranges[i].next + 1));
    }
  }

  lemma ShapedOf(h: Holding)
    requires Accounted(h)
    ensures Shaped(h.pages.ranges)
  {
  }

  /** The condition is exact: with overlapping ranges some run hands a frame out twice. */
  lemma TwiceIfOverlapping(h: Holding, i: nat, j: nat)
    requires Unused(h) && i < j < |h.pages.ranges| && !Apart(h.pages.ranges[i], h.pages.ranges[j])
    ensures exists ops: seq<PageOp>, frame: nat :: Total(IsW(frame), Run(h, ops).held) >= 2
  {
    UnusedAccounted(h);
    var a, b := h.pages.ranges[i], h.pages.ranges[j];
    var frame := if a.start >= b.start then a.start else b.start;
    var ops := Takes(Total(OpenW(), h.pages.ranges));
    TakeEverything(h);
    var h' := Run(h, ops);
    HandedCovered(h'.pages.ranges, frame);
    TotalTwo(CoverW(frame), h'.pages.ranges, i, j);
    assert Total(IsW(frame), h'.held) >= 2;
  }

  /** Frames are never held twice, over all runs, exactly when the ranges are disjoint. */
  lemma ExactlyWhenDisjoint(h: Holding)
    requires Unused(h)
    ensures Disjoint(h.pages.ranges) <==> forall ops: seq<PageOp>, frame: nat :: Total(IsW(frame), Run(h, ops).held) <= 1
  {
    hide Total;
    hide Run;
    if Disjoint(h.pages.ranges) {
      forall ops: seq<PageOp>, frame: nat
        ensures Total(IsW(frame), Run(h, ops).held) <= 1
      {
        NeverTwice(h, ops, frame);
      }
    } else {
      var i, j :| 0 <= i < j < |h.pages.ranges| && !Apart(h.pages.ranges[i], h.pages.ranges[j]);
      TwiceIfOverlapping(h, i, j);
    }
  }

  /** An allocator built from a firmware map starts unused. */
  lemma FromMapUnused(entries: seq<MapEntry>)
    requires FromMap(entries).Ok?
    ensures Unused(Holding(FromMap(entries).value, [])) && 0 < |FromMap(entries).value.ranges| <= MAX_RANGES
  {
    RangesUnused(entries);
  }

  lemma {:induction false} RangesUnused(entries: seq<MapEntry>)
    requires RangesOf(entries).Ok?
    ensures |RangesOf(entries).value| <= MAX_RANGES
    ensures forall k :: 0 <= k < |RangesOf(entries).value| ==> RangesOf(entries).value[k].start == RangesOf(entries).value[k].next <= RangesOf(entries).value[k].end
    decreases |entries|
  {
    if entries != [] {
      RangesUnused(entries[..|entries| - 1]);
    }
  }

  lemma RangesAppend(entries: seq<MapEntry>, e: MapEntry, ranges: seq<Range>)
    requires RangesOf(entries) == Ok(ranges) && |ranges| < MAX_RANGES && Usable(e)
    requires e.physicalStart % PAGE_SIZE == 0 && e.physicalStart + e.pageCount * PAGE_SIZE <= U64_MAX
    ensures RangesOf(entries + [e]) == Ok(ranges + [Range(e.physicalStart / PAGE_SIZE, e.physicalStart / PAGE_SIZE, e.physicalStart / PAGE_SIZE + e.pageCount)])
  {
    var longer := entries + [e];
    assert longer[..|longer| - 1] == entries && longer[|longer| - 1] == e;
  }

  /** A map that lists one conventional page twice is accepted, and the page is
      handed out twice. */
  lemma RepeatedEntryExample()
    ensures var e := MapEntry(CONVENTIONAL, 8 * PAGE_SIZE, 1);
            var made := FromMap([e, e]);
            && made.Ok?
            && Run(Holding(made.value, []), [Take, Take]).held == [8, 8]
  {
    var e := MapEntry(CONVENTIONAL, 8 * PAGE_SIZE, 1);
    var entries := [e, e];
    var none: seq<Range> := [];
    var nothing: seq<MapEntry> := [];
    RangesAppend(nothing, e, none);
    assert nothing + [e] == [e] && none + [Range(8, 8, 9)] == [Range(8, 8, 9)];
    RangesAppend([e], e, [Range(8, 8, 9)]);
    assert [e] + [e] == entries;
    var h := Holding(FromMap(entries).value, []);
    hide RangesOf;
    hide Step;
    hide Run;
    TwoTakes(h, Range(8, 8, 9));
    RunTwo(h, Take, Take);
  }

  lemma TwoTakes(h: Holding, r: Range)
    requires h == Holding(Pages([r, r], []), []) && r.next + 1 == r.end
    ensures Step(Step(h, Take), Take).held == [r.next, r.next]
  {
    var h1 := Step(h, Take);
    assert h1.pages.ranges == [r.(next := r.end), r] && h1.held == [r.next];
    assert h1.pages.ranges[1..] == [r];
  }

  lemma RunTwo(h: Holding, a: PageOp, b: PageOp)
    ensures Run(h, [a, b]) == Step(Step(h, a), b)
  {
    hide Step;
    assert [a, b][1..] == [b] && [b][1..] == [];
    assert Run(h, [a, b]) == Run(Step(h, a), [b]) == Run(Step(Step(h, a), b), []);
  }

  /** The allocator in place. */
  class BootPages {
    var ranges: seq<Range>
    var freed: seq<nat>

    function View(): Pages
      reads this
    {
      Pages(ranges, freed)
    }

    /** Nothing to hand out yet. */
    constructor ()
      ensures View() == Pages([], [])
    {
      ranges, freed := [], [];
    }

    /** Walk the memory map and keep its conventional entries. */
    static method FromBootInfo(entries: seq<MapEntry>) returns (r: Result<BootPages, AllocatorError>)
      ensures match FromMap(entries)
              case Err(error) => r == Err(error)
              case Ok(p) => r.Ok? && fresh(r.value) && r.value.View() == p && Unused(Holding(p, []))
    {
      if FromMap(entries).Ok? {
        FromMapUnused(entries);
      }
      var allocator := new BootPages();
      for i := 0 to |entries|
        invariant fresh(allocator) && allocator.freed == []
        invariant RangesOf(entries[..i]) == Ok(allocator.ranges)
      {
        var e := entries[i];
        assert entries[..i + 1][..i] == entries[..i];
        if e.kind == CONVENTIONAL && e.pageCount != 0 {
          if e.physicalStart % PAGE_SIZE != 0 {
            RefusedEarly(entries, i + 1);
            return Err(InvalidMemoryMap);
          }
          if e.physicalStart + e.pageCount * PAGE_SIZE > U64_MAX {
            RefusedEarly(entries, i + 1);
            return Err(AddressOverflow);
          }
          if |allocator.ranges| == MAX_RANGES {
            RefusedEarly(entries, i + 1);
            return Err(TooManyRanges);
          }
          var first := e.physicalStart / PAGE_SIZE;
          allocator.ranges := allocator.ranges + [Range(first, first, first + e.pageCount)];
        }
      }
      assert entries[..|entries|] == entries;
      r := if allocator.ranges == [] then Err(InvalidMemoryMap) else Ok(allocator);
    }

    /** Advance the first range that still has a page below the limit. */
    method Advance(below: Option<nat>) returns (frame: Option<nat>)
      modifies this
      ensures (View(), frame) == TakeFrom(old(View()), below)
    {
      var i := 0;
      while i < |ranges|
        invariant 0 <= i <= |ranges| && View() == old(View())
        invariant FirstOpen(ranges, below).Some? <==> FirstOpen(ranges[i..], below).Some?
        invariant FirstOpen(ranges, below).Some? ==> FirstOpen(ranges, below).value == i + FirstOpen(ranges[i..], below).value
      {
        assert ranges[i..][1..] == ranges[i + 1..];
        if ranges[i].next < ranges[i].end && (below.None? || ranges[i].next < below.value) {
          frame := Some(ranges[i].next);
          ranges := ranges[i := ranges[i].(next := ranges[i].next + 1)];
          return;
        }
        i := i + 1;
      }
      frame := None;
    }

    method AllocatePage() returns (frame: Option<nat>)
      modifies this
      ensures (View(), frame) == Allocate(old(View()))
    {
      if |freed| != 0 {
        frame := Some(freed[|freed| - 1]);
        freed := freed[..|freed| - 1];
        return;
      }
      frame := Advance(None);
    }

    /** Scan the free list, closing the gap with its last entry, then the ranges. */
    method AllocatePageBelow(limit: nat) returns (frame: Option<nat>)
      modifies this
      ensures (View(), frame) == AllocateBelow(old(View()), limit)
      ensures frame.Some? ==> frame.value < limit
    {
      var i := 0;
      while i < |freed|
        invariant 0 <= i <= |freed| && View() == old(View())
        invariant FirstBelow(freed, limit).Some? <==> FirstBelow(freed[i..], limit).Some?
        invariant FirstBelow(freed, limit).Some? ==> FirstBelow(freed, limit).value == i + FirstBelow(freed[i..], limit).value
      {
        assert freed[i..][1..] == freed[i + 1..];
        if freed[i] < limit {
          var last := |freed| - 1;
          frame := Some(freed[i]);
          freed := freed[i := freed[last]];
          freed := freed[..last];
          return;
        }
        i := i + 1;
      }
      frame := Advance(Some(limit));
    }

    /** Take back the page at a physical address. */
    method FreePage(address: nat) returns (ok: bool)
      modifies this
      ensures address % PAGE_SIZE != 0 ==> !ok && View() == old(View())
      ensures address % PAGE_SIZE == 0 ==> (View(), ok) == Free(old(View()), address / PAGE_SIZE)
    {
      if address % PAGE_SIZE != 0 {
        return false;
      }
      var frame := address / PAGE_SIZE;
      var handed := false;
      for k := 0 to |ranges|
        invariant View() == old(View())
        invariant handed <==> exists i :: 0 <= i < k && Handed(ranges[i], frame)
      {
        handed := handed || Handed(ranges[k], frame);
      }
      if !handed {
        return false;
      }
      for k := 0 to |freed|
        invariant View() == old(View()) && frame !in freed[..k]
      {
        if freed[k] == frame {
          return false;
        }
      }
      assert freed[..|freed|] == freed;
      if |freed| == MAX_FREED_PAGES {
        return false;
      }
      freed := freed + [frame];
      ok := true;
    }
  }

  /** The first refused entry decides. */
  lemma {:induction false} RefusedEarly(entries: seq<MapEntry>, n: nat)
    requires n <= |entries| && RangesOf(entries[..n]).Err?
    ensures RangesOf(entries) == RangesOf(entries[..n])
    decreases |entries|
  {
    if n == |entries| {
      assert entries[..n] == entries;
    } else {
      var shorter := entries[..|entries| - 1];
      assert shorter[..n] == entries[..n];
      RefusedEarly(shorter, n);
    }
  }
}
