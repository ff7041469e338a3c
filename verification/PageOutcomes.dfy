/** What the boot allocator has to give: the usable pages of the memory map, until none
    are left, and freed pages again. */
module PageOutcomes {
  import opened Prelude
  import opened Counts
  import opened PageAllocator

  // ----- The memory map -----

  /** A page of conventional memory, by its address. */
  predicate Inside(e: MapEntry, frame: nat) {
    e.kind == 7 && e.physicalStart <= frame * PAGE_SIZE < e.physicalStart + e.pageCount * PAGE_SIZE
  }

  predicate Acceptable(e: MapEntry) {
    e.kind == 7 && e.pageCount != 0 ==> e.physicalStart % PAGE_SIZE == 0 && e.physicalStart + e.pageCount * PAGE_SIZE <= U64_MAX
  }

  function UsableCount(entries: seq<MapEntry>): nat {
    if entries == [] then 0
    else UsableCount(entries[..|entries| - 1]) + if entries[|entries| - 1].kind == 7 && entries[|entries| - 1].pageCount != 0 then 1 else 0
  }

  predicate Covered(r: Range, frame: nat) {
    r.start <= frame < r.end
  }

  lemma EntryPages(e: MapEntry, frame: nat)
    requires Usable(e) && e.physicalStart % PAGE_SIZE == 0
    ensures var first := e.physicalStart / PAGE_SIZE;
            Covered(Range(first, first, first + e.pageCount), frame) <==> Inside(e, frame)
  {
    var first := e.physicalStart / PAGE_SIZE;
    assert e.physicalStart == first * PAGE_SIZE;
    assert first <= frame <==> first * PAGE_SIZE <= frame * PAGE_SIZE;
    assert frame < first + e.pageCount <==> frame * PAGE_SIZE < (first + e.pageCount) * PAGE_SIZE;
  }

  predicate InRanges(ranges: seq<Range>, frame: nat) {
    exists k :: 0 <= k < |ranges| && Covered(ranges[k], frame)
  }

  predicate InMap(entries: seq<MapEntry>, frame: nat) {
    exists i :: 0 <= i < |entries| && Inside(entries[i], frame)
  }

  lemma MoreRanges(ranges: seq<Range>, r: Range, frame: nat)
    ensures InRanges(ranges + [r], frame) <==> InRanges(ranges, frame) || Covered(r, frame)
  {
    hide Covered;
    var more := ranges + [r];
    assert more[|ranges|] == r && forall k :: 0 <= k < |ranges| ==> more[k] == ranges[k];
  }

  lemma MoreEntries(entries: seq<MapEntry>, frame: nat)
    requires entries != []
    ensures InMap(entries, frame) <==> InMap(entries[..|entries| - 1], frame) || Inside(entries[|entries| - 1], frame)
  {
    hide Inside;
    assert forall i :: 0 <= i < |entries| - 1 ==> entries[..|entries| - 1][i] == entries[i];
  }

  lemma {:induction false} RangesAccepted(entries: seq<MapEntry>)
    ensures RangesOf(entries).Ok? <==> (forall i :: 0 <= i < |entries| ==> Acceptable(entries[i])) && UsableCount(entries) <= MAX_RANGES
    ensures RangesOf(entries).Ok? ==>
              var ranges := RangesOf(entries).value;
              |ranges| == UsableCount(entries) && forall k :: 0 <= k < |ranges| ==> ranges[k].next == ranges[k].start
    decreases |entries|
  {
    if entries != [] {
      var front := entries[..|entries| - 1];
      assert forall i :: 0 <= i < |front| ==> front[i] == entries[i];
      RangesAccepted(front);
    }
  }

  /** The ranges are the usable entries, page for page. */
  lemma {:induction false} RangesMean(entries: seq<MapEntry>, frame: nat)
    requires RangesOf(entries).Ok?
    ensures InRanges(RangesOf(entries).value, frame) <==> InMap(entries, frame)
    decreases |entries|
  {
    hide InRanges;
    hide InMap;
    if entries == [] {
      assert !InRanges([], frame) && !InMap([], frame) by {
        NothingThere(frame);
      }
    } else {
      var front, e := entries[..|entries| - 1], entries[|entries| - 1];
      RangesMean(front, frame);
      MoreEntries(entries, frame);
      if Usable(e) {
        EntryPages(e, frame);
        var first := e.physicalStart / PAGE_SIZE;
        MoreRanges(RangesOf(front).value, Range(first, first, first + e.pageCount), frame);
      }
    }
  }

  lemma NothingThere(frame: nat)
    ensures !InRanges([], frame) && !InMap([], frame)
  {
  }

  /** A memory map is accepted exactly when its conventional entries are page-aligned, end
      below 2^64 and number between 1 and 128; the allocator then has exactly their pages to give. */
  lemma MapAccepted(entries: seq<MapEntry>)
    ensures FromMap(entries).Ok? <==> (forall i :: 0 <= i < |entries| ==> Acceptable(entries[i])) && 1 <= UsableCount(entries) <= 128
    ensures FromMap(entries).Ok? ==>
              var p := FromMap(entries).value;
              && p.freed == [] && (forall k :: 0 <= k < |p.ranges| ==> p.ranges[k].next == p.ranges[k].start)
              && (forall frame: nat :: InRanges(p.ranges, frame) <==> InMap(entries, frame))
  {
    hide InRanges;
    hide InMap;
    RangesAccepted(entries);
    if FromMap(entries).Ok? {
      forall frame: nat
        ensures InRanges(FromMap(entries).value.ranges, frame) <==> InMap(entries, frame)
      {
        RangesMean(entries, frame);
      }
    }
  }

  // ----- Giving and taking -----

  lemma {:induction false} BelowFound(freed: seq<nat>, limit: nat)
    ensures FirstBelow(freed, limit).Some? <==> exists k :: 0 <= k < |freed| && freed[k] < limit
  {
    if freed != [] {
      BelowFound(freed[1..], limit);
      if k :| 0 <= k < |freed| && freed[k] < limit {
        assert k > 0 ==> freed[1..][k - 1] < limit;
      }
    }
  }

  /** A page is refused only when none is left, with a limit only when none is left below it. */
  lemma AllocationSucceeds(p: Pages, limit: nat)
    ensures Allocate(p).1.Some? <==> p.freed != [] || exists k :: 0 <= k < |p.ranges| && p.ranges[k].next < p.ranges[k].end
    ensures AllocateBelow(p, limit).1.Some? <==>
              || (exists k :: 0 <= k < |p.freed| && p.freed[k] < limit)
              || (exists k :: 0 <= k < |p.ranges| && p.ranges[k].next < p.ranges[k].end && p.ranges[k].next < limit)
    ensures AllocateBelow(p, limit).1.Some? ==> AllocateBelow(p, limit).1.value < limit
    ensures Allocate(p).1.None? ==> Allocate(p).0 == p
    ensures AllocateBelow(p, limit).1.None? ==> AllocateBelow(p, limit).0 == p
  {
    BelowFound(p.freed, limit);
  }

  /** A freed page is the next one handed out, and then everything is as before. */
  lemma FreedIsNext(p: Pages, frame: nat)
    requires Free(p, frame).1
    ensures Allocate(Free(p, frame).0) == (p, Some(frame))
  {
    assert (p.freed + [frame])[..|p.freed|] == p.freed;
  }

  /** A page that was handed out and is not freed already can be given back while there is
      room to remember it. */
  lemma FreeSucceeds(h: Holding, frame: nat)
    requires Accounted(h) && Disjoint(h.pages.ranges) && frame in h.held && |h.pages.freed| <= MAX_FREED_PAGES
    ensures Free(h.pages, frame).1 <==> |h.pages.freed| < 128
  {
    var i :| 0 <= i < |h.held| && h.held[i] == frame;
    TotalUpdate(IsW(frame), h.held, i, frame);
    CoveredOnce(h.pages.ranges, frame);
    HandedCovered(h.pages.ranges, frame);
    TotalPositive(HandedW(frame), h.pages.ranges);
    TotalPositive(IsW(frame), h.pages.freed);
    hide Total;
    var held, freed := Total(IsW(frame), h.held), Total(IsW(frame), h.pages.freed);
    assert held + freed == Total(HandedW(frame), h.pages.ranges) <= 1 && held >= 1;
    assert frame !in h.pages.freed by {
      assert forall k :: 0 <= k < |h.pages.freed| ==> IsW(frame)(h.pages.freed[k]) == 0;
    }
    var k :| 0 <= k < |h.pages.ranges| && HandedW(frame)(h.pages.ranges[k]) > 0;
    assert Handed(h.pages.ranges[k], frame);
  }

  /** The free list never outgrows its table. */
  lemma {:induction false} FreedBounded(h: Holding, ops: seq<PageOp>)
    requires |h.pages.freed| <= MAX_FREED_PAGES
    ensures |Run(h, ops).pages.freed| <= MAX_FREED_PAGES
    decreases |ops|
  {
    if ops != [] {
      assert |Step(h, ops[0]).pages.freed| <= MAX_FREED_PAGES;
      hide Step;
      FreedBounded(Step(h, ops[0]), ops[1..]);
    }
  }
}
