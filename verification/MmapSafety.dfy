/** Frame conservation, no aliasing and clean pages for the mmap window. */
module MmapSafety {
  import opened Prelude
  import opened Counts
  import opened PageAllocator
  import opened Mmap

  function SetW(): nat -> nat {
    (f: nat) => if f != NO_FRAME then 1 else 0
  }

  // ----- Invariant -----

  predicate Shape(w: Window) {
    && |w.frames| == |w.owners| == |w.entries| && |w.live| <= 255
    && forall p :: 0 <= p < |w.owners| ==> w.owners[p] <= |w.live|
  }

  /** Each pool frame is on the free stack or behind one page, never both or twice,
      and nothing else is anywhere. Frame 0 also marks a page without a frame, so it
      is left out of the count. */
  ghost predicate Single(w: Window, pool: set<nat>) {
    && (forall f: nat :: f != NO_FRAME ==> Total(IsW(f), w.free) + Total(IsW(f), w.frames) == if f in pool then 1 else 0)
    && (forall f :: f in pool ==> f < MAX_FRAME && f in w.mem && |w.mem[f]| == PAGE_SIZE)
  }

  /** A page without an owner has no frame. */
  predicate Untagged(w: Window)
    requires Shape(w)
  {
    forall p :: 0 <= p < |w.owners| && w.owners[p] == 0 ==> w.frames[p] == NO_FRAME
  }

  /** A live count is the number of pages tagged with its slot, and is never zero. */
  ghost predicate Tagged(w: Window) {
    forall s :: 0 <= s < |w.live| ==>
      (w.live[s].Some? ==> w.live[s].value > 0) && Released(w.owners, s + 1) == if w.live[s].Some? then w.live[s].value else 0
  }

  /** A mapped page is owned and maps its own frame. */
  predicate OwnFrames(w: Window)
    requires Shape(w)
  {
    forall p :: 0 <= p < |w.entries| && w.entries[p].Some? ==>
      w.owners[p] != 0 && w.entries[p].value.frame == w.frames[p] && w.frames[p] != NO_FRAME
  }

  /** Who has which frame: true of every pool. */
  ghost predicate Own(w: Window, pool: set<nat>) {
    Shape(w) && Single(w, pool) && Untagged(w) && Tagged(w) && OwnFrames(w)
  }

  /** No frame is lost: every pool frame is on the stack or recorded for an owned page. */
  predicate Conserved(w: Window, size: nat) {
    && NO_FRAME !in w.free && |w.frames| == |w.owners|
    && |w.free| + Total(SetW(), w.frames) == size <= |w.frames|
    && forall p :: 0 <= p < |w.owners| && w.owners[p] != 0 ==> w.frames[p] != NO_FRAME
  }

  ghost predicate Inv(w: Window, pool: set<nat>, size: nat) {
    Own(w, pool) && Conserved(w, size)
  }

  // ----- Frames in and out -----

  lemma Popped(free: seq<nat>, f: nat)
    requires free != []
    ensures Total(IsW(f), free) == Total(IsW(f), free[..|free| - 1]) + IsW(f)(free[|free| - 1])
  {
    TotalTake(IsW(f), free, |free|);
    assert free[..|free|] == free;
  }

  lemma AssignOneSingle(w: Window, page: nat, pool: set<nat>)
    requires Single(w, pool) && page < |w.frames| && w.free != [] && w.frames[page] == NO_FRAME
    ensures Single(AssignOne(w, page), pool)
  {
    var w' := AssignOne(w, page);
    var top := w.free[|w.free| - 1];
    forall f: nat | f != NO_FRAME
      ensures Total(IsW(f), w'.free) + Total(IsW(f), w'.frames) == if f in pool then 1 else 0
    {
      Popped(w.free, f);
      TotalUpdate(IsW(f), w.frames, page, top);
    }
  }

  /** The range gets frames of its own; no other page's frame changes. */
  lemma {:induction false} AssignSafe(w: Window, start: nat, count: nat, pool: set<nat>)
    requires Single(w, pool) && start + count <= |w.frames| && count <= |w.free|
    requires forall p :: start <= p < start + count ==> w.frames[p] == NO_FRAME
    ensures var w' := Assign(w, start, count);
            && Single(w', pool)
            && (forall p :: 0 <= p < |w.frames| && !(start <= p < start + count) ==> w'.frames[p] == w.frames[p])
    decreases count
  {
    if count > 0 {
      AssignOneSingle(w, start, pool);
      hide Single;
      AssignSafe(AssignOne(w, start), start + 1, count - 1, pool);
    }
  }

  /** From a stack without frame 0 every page of the range gets a frame, and none is lost. */
  lemma {:induction false} AssignKeeps(w: Window, start: nat, count: nat)
    requires NO_FRAME !in w.free && start + count <= |w.frames| && count <= |w.free|
    requires forall p :: start <= p < start + count ==> w.frames[p] == NO_FRAME
    ensures var w' := Assign(w, start, count);
            && NO_FRAME !in w'.free && |w'.free| + Total(SetW(), w'.frames) == |w.free| + Total(SetW(), w.frames)
            && (forall p :: 0 <= p < |w.frames| && w.frames[p] != NO_FRAME ==> w'.frames[p] != NO_FRAME)
            && (forall p :: start <= p < start + count ==> w'.frames[p] != NO_FRAME)
    decreases count
  {
    if count > 0 {
      var w1 := AssignOne(w, start);
      TotalUpdate(SetW(), w.frames, start, w.free[|w.free| - 1]);
      assert forall k :: 0 <= k < |w1.free| ==> w1.free[k] == w.free[k];
      hide Total;
      AssignKeeps(w1, start + 1, count - 1);
    }
  }

  /** The assigned frames are cleared, and memory off the free stack is left alone. */
  lemma {:induction false} AssignClears(w: Window, start: nat, count: nat)
    requires start + count <= |w.frames| && count <= |w.free|
    ensures var w' := Assign(w, start, count);
            && (forall p :: 0 <= p < start ==> w'.frames[p] == w.frames[p])
            && (forall p :: start <= p < start + count ==> w'.frames[p] in w'.mem && w'.mem[w'.frames[p]] == ZeroPage())
            && (forall f :: f in w.mem && f !in w.free ==> f in w'.mem && w'.mem[f] == w.mem[f])
    decreases count
  {
    if count > 0 {
      var w1 := AssignOne(w, start);
      AssignClears(w1, start + 1, count - 1);
      StaysClear(w1, start + 1, count - 1, w1.frames[start]);
    }
  }

  lemma {:induction false} StaysClear(w: Window, start: nat, count: nat, f: nat)
    requires start + count <= |w.frames| && count <= |w.free| && f in w.mem && w.mem[f] == ZeroPage()
    ensures f in Assign(w, start, count).mem && Assign(w, start, count).mem[f] == ZeroPage()
    decreases count
  {
    if count > 0 {
      StaysClear(AssignOne(w, start), start + 1, count - 1, f);
    }
  }

  lemma ReleaseOneSingle(w: Window, page: nat, pool: set<nat>)
    requires Single(w, pool) && page < |w.frames|
    ensures Single(ReleaseOne(w, page), pool)
  {
    var w' := ReleaseOne(w, page);
    forall f: nat | f != NO_FRAME
      ensures Total(IsW(f), w'.free) + Total(IsW(f), w'.frames) == if f in pool then 1 else 0
    {
      TotalUpdate(IsW(f), w.frames, page, NO_FRAME);
      Appended(w.free, w.frames[page], f);
    }
  }

  lemma {:induction false} ReleaseSafe(w: Window, start: nat, count: nat, pool: set<nat>)
    requires Single(w, pool) && start + count <= |w.frames|
    ensures Single(Release(w, start, count), pool)
    ensures forall p :: 0 <= p < |w.frames| ==> Release(w, start, count).frames[p] == if start <= p < start + count then NO_FRAME else w.frames[p]
    decreases count
  {
    if count > 0 {
      ReleaseOneSingle(w, start, pool);
      hide Single;
      ReleaseSafe(ReleaseOne(w, start), start + 1, count - 1, pool);
    }
  }

  lemma {:induction false} ReleaseKeeps(w: Window, start: nat, count: nat)
    requires NO_FRAME !in w.free && start + count <= |w.frames|
    ensures var w' := Release(w, start, count);
            && NO_FRAME !in w'.free && |w'.free| + Total(SetW(), w'.frames) == |w.free| + Total(SetW(), w.frames)
            && forall p :: 0 <= p < |w.frames| ==> w'.frames[p] == if start <= p < start + count then NO_FRAME else w.frames[p]
    decreases count
  {
    if count > 0 {
      TotalUpdate(SetW(), w.frames, start, NO_FRAME);
      hide Total;
      ReleaseKeeps(ReleaseOne(w, start), start + 1, count - 1);
    }
  }

  // ----- Owner tags -----

  lemma {:induction false} Constant(count: nat, v: nat, x: nat)
    ensures Released(Repeat(count, v), x) == if x == v then count else 0
  {
    if count > 0 {
      assert Repeat(count, v)[1..] == Repeat(count - 1, v);
      Constant(count - 1, v, x);
    }
  }

  lemma FillCounts(s: seq<nat>, start: nat, count: nat, v: nat, x: nat)
    requires start + count <= |s|
    ensures Released(Fill(s, start, count, v), x) == Released(s, x) - Released(s[start..start + count], x) + if x == v then count else 0
    ensures Released(s[start..start + count], x) <= Released(s, x)
  {
    var a, b, c := s[..start], s[start..start + count], s[start + count..];
    assert s == a + b + c;
    TotalAppend(IsW(x), a + b, c);
    TotalAppend(IsW(x), a, b);
    var m := Repeat(count, v);
    TotalAppend(IsW(x), a + m, c);
    TotalAppend(IsW(x), a, m);
    Constant(count, v, x);
  }

  lemma NoneTagged(s: seq<nat>, x: nat)
    requires forall k :: 0 <= k < |s| ==> s[k] != x
    ensures Released(s, x) == 0
  {
    TotalZero(IsW(x), s);
  }

  /** A page tagged with a slot makes that slot live. */
  lemma TagLive(w: Window, p: nat)
    requires Shape(w) && Tagged(w) && p < |w.owners| && w.owners[p] != 0
    ensures w.live[w.owners[p] - 1].Some? && w.live[w.owners[p] - 1].value > 0
  {
    TotalUpdate(IsW(w.owners[p]), w.owners, p, w.owners[p]);
    assert Released(w.owners, w.owners[p] - 1 + 1) > 0;
  }

  /** Owned ranges are the ranges without an untagged page, and can always be released. */
  lemma OwnedReleasable(w: Window, start: nat, count: nat)
    requires Shape(w) && Tagged(w)
    ensures RangeOwned(w, start, count) <==> count != 0 && start + count <= |w.owners| && forall p :: start <= p < start + count ==> w.owners[p] != 0
    ensures RangeOwned(w, start, count) ==> Releasable(w, start, count)
  {
    if count != 0 && start + count <= |w.owners| {
      forall p | start <= p < start + count && w.owners[p] != 0
        ensures w.live[w.owners[p] - 1].Some? && w.live[w.owners[p] - 1].value > 0
        ensures Released(w.owners[start..start + count], w.owners[p]) <= w.live[w.owners[p] - 1].value
      {
        TagLive(w, p);
        FillCounts(w.owners, start, count, 0, w.owners[p]);
        assert Released(w.owners, w.owners[p] - 1 + 1) == w.live[w.owners[p] - 1].value;
      }
    }
  }

  lemma RegisterTagged(w: Window, slot: nat, start: nat, count: nat)
    requires Shape(w) && Tagged(w) && slot < |w.live| && w.live[slot].None? && FreeRun(w.owners, start, count) && count > 0
    ensures Tagged(w.(owners := Fill(w.owners, start, count, slot + 1), live := w.live[slot := Some(count)]))
  {
    var w' := w.(owners := Fill(w.owners, start, count, slot + 1), live := w.live[slot := Some(count)]);
    forall s | 0 <= s < |w'.live|
      ensures (w'.live[s].Some? ==> w'.live[s].value > 0) && Released(w'.owners, s + 1) == if w'.live[s].Some? then w'.live[s].value else 0
    {
      FillCounts(w.owners, start, count, slot + 1, s + 1);
      NoneTagged(w.owners[start..start + count], s + 1);
      assert w.live[s].Some? ==> w.live[s].value > 0;
    }
  }

  lemma ReleaseOwnersTagged(w: Window, start: nat, count: nat)
    requires Shape(w) && Tagged(w) && start + count <= |w.owners|
    ensures Tagged(ReleaseOwners(w, start, count))
  {
    var w' := ReleaseOwners(w, start, count);
    forall s | 0 <= s < |w'.live|
      ensures (w'.live[s].Some? ==> w'.live[s].value > 0) && Released(w'.owners, s + 1) == if w'.live[s].Some? then w'.live[s].value else 0
    {
      FillCounts(w.owners, start, count, 0, s + 1);
      assert Released(w.owners, s + 1) == if w.live[s].Some? then w.live[s].value else 0;
    }
  }

  // ----- Calls: who has which frame -----

  /** A page's frame is its own: no other page and no free entry has it. */
  lemma FrameUnique(w: Window, pool: set<nat>, p: nat)
    requires Single(w, pool) && p < |w.frames| && w.frames[p] != NO_FRAME
    ensures w.frames[p] in pool && w.frames[p] !in w.free
    ensures forall q :: 0 <= q < |w.frames| && q != p ==> w.frames[q] != w.frames[p]
  {
    var f := w.frames[p];
    TotalUpdate(IsW(f), w.frames, p, f);
    TotalPositive(IsW(f), w.free);
    assert forall k :: 0 <= k < |w.free| ==> IsW(f)(w.free[k]) == 0;
    forall q | 0 <= q < |w.frames| && q != p
      ensures w.frames[q] != f
    {
      TotalTwo(IsW(f), w.frames, p, q);
    }
  }

  lemma SingleSame(w: Window, w': Window, pool: set<nat>)
    requires Single(w, pool) && w'.frames == w.frames && w'.free == w.free && w'.mem == w.mem
    ensures Single(w', pool)
  {
  }

  lemma TaggedSame(w: Window, w': Window)
    requires Tagged(w) && w'.owners == w.owners && w'.live == w.live
    ensures Tagged(w')
  {
  }

  lemma UnmapOwn(w: Window, start: nat, count: nat, pool: set<nat>)
    requires Own(w, pool)
    ensures Own(Unmap(w, start, count), pool)
  {
    SingleSame(w, Unmap(w, start, count), pool);
    TaggedSame(w, Unmap(w, start, count));
    hide Single;
    hide Tagged;
  }

  /** Even a pass that stops half-way maps only pages to their own frames. */
  lemma RemapOwn(w: Window, start: nat, count: nat, protection: nat, pool: set<nat>)
    requires Own(w, pool) && start + count <= |w.frames|
    ensures Own(Remap(w, start, count, protection).0, pool)
  {
    var w' := Remap(w, start, count, protection).0;
    SingleSame(w, w', pool);
    TaggedSame(w, w');
    hide Single;
    hide Tagged;
    forall p | 0 <= p < |w'.entries| && w'.entries[p].Some?
      ensures w'.owners[p] != 0 && w'.entries[p].value.frame == w'.frames[p] && w'.frames[p] != NO_FRAME
    {
      assert w'.entries[p] != w.entries[p] ==> w.frames[p] != NO_FRAME;
    }
  }

  /** The window between assigning frames and registering the reservation. */
  ghost predicate Assigned(w: Window, w1: Window, start: nat, count: nat, pool: set<nat>) {
    && Single(w1, pool) && start + count <= |w.frames| == |w1.frames|
    && w1.owners == w.owners && w1.live == w.live && w1.entries == w.entries
    && (forall p :: 0 <= p < |w.frames| && !(start <= p < start + count) ==> w1.frames[p] == w.frames[p])
  }

  lemma MapOwn(w: Window, length: nat, protection: nat, pool: set<nat>)
    requires Own(w, pool)
    ensures Own(Map(w, length, protection).0, pool)
  {
    hide Single;
    hide Tagged;
    assert Shape(w);
    hide Own;
    var count := length / PAGE_SIZE;
    if ValidRequest(w, length, protection) && FirstNone(w.live).Some? && LowestRun(w.owners, count, 0).Some? && |w.free| >= count {
      var slot, start := FirstNone(w.live).value, LowestRun(w.owners, count, 0).value;
      AssignOwned(w, start, count, pool);
      var w1 := Assign(w, start, count);
      MapFinish(w, w1, slot, start, count, protection, pool);
      MapUndone(w, w1, start, count, protection, pool);
    }
  }

  lemma AssignOwned(w: Window, start: nat, count: nat, pool: set<nat>)
    requires Own(w, pool) && FreeRun(w.owners, start, count) && count <= |w.free|
    ensures Assigned(w, Assign(w, start, count), start, count, pool)
  {
    hide Single;
    hide Tagged;
    AssignSafe(w, start, count, pool);
  }

  lemma MapFinish(w: Window, w1: Window, slot: nat, start: nat, count: nat, protection: nat, pool: set<nat>)
    requires Own(w, pool) && Assigned(w, w1, start, count, pool) && FreeRun(w.owners, start, count) && count > 0
    requires slot < |w.live| && w.live[slot].None? && |w1.frames| == |w1.entries|
    ensures var (w2, ok) := if protection == PROT_NONE then (w1, true) else Remap(w1, start, count, protection);
            ok ==> Own(w2.(owners := Fill(w2.owners, start, count, slot + 1), live := w2.live[slot := Some(count)]), pool)
  {
    hide Single;
    hide Tagged;
    hide Fill;
    hide Remap;
    var (w2, ok) := if protection == PROT_NONE then (w1, true) else Remap(w1, start, count, protection);
    var w' := w2.(owners := Fill(w2.owners, start, count, slot + 1), live := w2.live[slot := Some(count)]);
    RegisterTagged(w, slot, start, count);
    SingleSame(w1, w', pool);
    TaggedSame(w.(owners := w'.owners, live := w'.live), w');
  }

  /** A mapping that fails late gives its frames back, all but frame 0. */
  lemma MapUndone(w: Window, w1: Window, start: nat, count: nat, protection: nat, pool: set<nat>)
    requires Own(w, pool) && Assigned(w, w1, start, count, pool) && FreeRun(w.owners, start, count) && |w1.frames| == |w1.entries|
    ensures var w2 := Unmap(Remap(w1, start, count, protection).0, start, count); Own(Release(w2, start, count), pool)
  {
    hide Single;
    hide Tagged;
    hide Remap;
    var w2 := Unmap(Remap(w1, start, count, protection).0, start, count);
    SingleSame(w1, w2, pool);
    ReleaseSafe(w2, start, count, pool);
    TaggedSame(w, Release(w2, start, count));
  }

  lemma ProtectOwn(w: Window, start: nat, count: nat, protection: nat, pool: set<nat>)
    requires Own(w, pool)
    ensures Own(Protect(w, start, count, protection).0, pool)
  {
    UnmapOwn(w, start, count, pool);
    if RangeOwned(w, start, count) {
      RemapOwn(w, start, count, protection, pool);
    }
    hide Single;
    hide Tagged;
  }

  lemma MapAtOwn(w: Window, start: nat, count: nat, protection: nat, pool: set<nat>)
    requires Own(w, pool)
    ensures Own(MapAt(w, start, count, protection).0, pool)
  {
    UnmapOwn(w, start, count, pool);
    if ExactFragment(w, start, count) {
      RemapOwn(w, start, count, protection, pool);
    }
    hide Single;
    hide Tagged;
  }

  /** Unmapping gives every frame of the range back and leaves none of it mapped. */
  lemma MunmapOwn(w: Window, start: nat, count: nat, pool: set<nat>)
    requires Own(w, pool)
    ensures Own(Munmap(w, start, count).0, pool)
    ensures Munmap(w, start, count).1 <==> count != 0 && start + count <= |w.owners| && forall p :: start <= p < start + count ==> w.owners[p] != 0
    ensures Munmap(w, start, count).1 ==>
              forall p :: start <= p < start + count ==>
                Munmap(w, start, count).0.entries[p].None? && Munmap(w, start, count).0.frames[p] == NO_FRAME && Munmap(w, start, count).0.owners[p] == 0
  {
    hide Single;
    hide Tagged;
    hide Fill;
    hide LessLive;
    hide Releasable;
    hide RangeOwned;
    OwnedReleasable(w, start, count);
    if RangeOwned(w, start, count) {
      var w1 := ReleaseOwners(w, start, count);
      ReleaseOwnersTagged(w, start, count);
      var w2 := Unmap(w1, start, count);
      SingleSame(w, w2, pool);
      TaggedSame(w1, w2);
      ReleaseSafe(w2, start, count, pool);
      TaggedSame(w2, Release(w2, start, count));
    }
  }

  lemma StoreOwn(w: Window, p: nat, content: seq<Byte>, pool: set<nat>)
    requires Own(w, pool)
    ensures Own(StorePage(w, p, content), pool)
  {
    TaggedSame(w, StorePage(w, p, content));
  }

  // ----- Calls: no frame is lost -----

  lemma OwnedFrame(w: Window, pool: set<nat>, size: nat, start: nat, count: nat)
    requires Inv(w, pool, size) && start + count <= |w.frames| && forall p :: start <= p < start + count ==> w.owners[p] != 0
    ensures forall p :: start <= p < start + count ==> w.frames[p] != NO_FRAME && w.frames[p] < MAX_FRAME
  {
    forall p | start <= p < start + count
      ensures w.frames[p] != NO_FRAME && w.frames[p] < MAX_FRAME
    {
      FrameUnique(w, pool, p);
    }
  }

  /** A refused mapping changes nothing; mapping never fails half-way. */
  lemma MapInv(w: Window, length: nat, protection: nat, pool: set<nat>, size: nat)
    requires Inv(w, pool, size)
    ensures Inv(Map(w, length, protection).0, pool, size)
    ensures Map(w, length, protection).1.Err? ==> Map(w, length, protection).0 == w
    ensures Map(w, length, protection).1 != Err(PageMappingFailure)
  {
    MapOwn(w, length, protection, pool);
    hide Single;
    hide Tagged;
    hide Conserved;
    var count := length / PAGE_SIZE;
    if ValidRequest(w, length, protection) && FirstNone(w.live).Some? && LowestRun(w.owners, count, 0).Some? && |w.free| >= count {
      var slot, start := FirstNone(w.live).value, LowestRun(w.owners, count, 0).value;
      MapKeeps(w, slot, start, count, protection, pool, size);
      hide Own;
      hide Assign;
      hide Fill;
      hide Remap;
      hide LowestRun;
    }
  }

  lemma MapKeeps(w: Window, slot: nat, start: nat, count: nat, protection: nat, pool: set<nat>, size: nat)
    requires Inv(w, pool, size) && FreeRun(w.owners, start, count) && count <= |w.free| && slot < |w.live|
    ensures var w1 := Assign(w, start, count);
            var (w2, ok) := if protection == PROT_NONE then (w1, true) else Remap(w1, start, count, protection);
            ok && Conserved(w2.(owners := Fill(w2.owners, start, count, slot + 1), live := w2.live[slot := Some(count)]), size)
  {
    var w1 := Assign(w, start, count);
    AssignSafe(w, start, count, pool);
    AssignKeeps(w, start, count);
    forall p | start <= p < start + count
      ensures w1.frames[p] != NO_FRAME && w1.frames[p] < MAX_FRAME
    {
      FrameUnique(w1, pool, p);
    }
    hide Single;
    hide Tagged;
    hide Total;
    hide Assign;
    hide Fill;
    hide Remap;
  }

  /** Protection changes apply to owned ranges only, and there they always succeed. */
  lemma ProtectInv(w: Window, start: nat, count: nat, protection: nat, pool: set<nat>, size: nat)
    requires Inv(w, pool, size)
    ensures Inv(Protect(w, start, count, protection).0, pool, size)
    ensures Protect(w, start, count, protection).1 <==> count != 0 && start + count <= |w.owners| && forall p :: start <= p < start + count ==> w.owners[p] != 0
  {
    ProtectOwn(w, start, count, protection, pool);
    OwnedReleasable(w, start, count);
    if RangeOwned(w, start, count) {
      OwnedFrame(w, pool, size, start, count);
    }
    hide Own;
  }

  lemma MapAtInv(w: Window, start: nat, count: nat, protection: nat, pool: set<nat>, size: nat)
    requires Inv(w, pool, size)
    ensures Inv(MapAt(w, start, count, protection).0, pool, size)
    ensures MapAt(w, start, count, protection).1 <==> ExactFragment(w, start, count)
  {
    MapAtOwn(w, start, count, protection, pool);
    if ExactFragment(w, start, count) {
      OwnedFrame(w, pool, size, start, count);
    }
    hide Own;
  }

  lemma MunmapInv(w: Window, start: nat, count: nat, pool: set<nat>, size: nat)
    requires Inv(w, pool, size)
    ensures Inv(Munmap(w, start, count).0, pool, size)
  {
    MunmapOwn(w, start, count, pool);
    if RangeOwned(w, start, count) && Releasable(w, start, count) {
      var w2 := Unmap(ReleaseOwners(w, start, count), start, count);
      ReleaseKeeps(w2, start, count);
    }
    hide Own;
    hide Total;
    hide RangeOwned;
    hide Releasable;
    hide Fill;
  }

  lemma StoreInv(w: Window, p: nat, content: seq<Byte>, pool: set<nat>, size: nat)
    requires Inv(w, pool, size)
    ensures Inv(StorePage(w, p, content), pool, size)
  {
    StoreOwn(w, p, content, pool);
  }
}
