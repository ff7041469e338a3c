/** Whole runs of the mmap window, from the boot allocator to what a user load reads. */
module MmapRuns {
  import opened Prelude
  import opened Counts
  import PA = PageAllocator
  import opened Mmap
  import opened MmapSafety

  // ----- What user code sees -----

  /** Two mapped pages never show the same memory. */
  lemma NoAliasing(w: Window, pool: set<nat>, p: nat, q: nat)
    requires Own(w, pool) && p < q < |w.entries| && w.entries[p].Some? && w.entries[q].Some?
    ensures w.entries[p].value.frame != w.entries[q].value.frame
    ensures w.entries[p].value.frame !in w.free && w.entries[p].value.frame in pool
  {
    FrameUnique(w, pool, p);
  }

  /** A store changes the page it names and no other. */
  lemma StoreIsLocal(w: Window, pool: set<nat>, p: nat, q: nat, content: seq<Byte>)
    requires Own(w, pool) && p != q
    ensures ReadPage(StorePage(w, p, content), q) == ReadPage(w, q)
  {
    if ReadPage(w, p).Some? && ReadPage(w, q).Some? {
      if p < q {
        NoAliasing(w, pool, p, q);
      } else {
        NoAliasing(w, pool, q, p);
      }
    }
  }

  /** Where a successful mapping puts things. */
  lemma MapResult(w: Window, length: nat, protection: nat)
    requires |w.frames| == |w.owners| == |w.entries| && Map(w, length, protection).1.Ok?
    ensures var (w', r) := Map(w, length, protection);
            var count := length / PA.PAGE_SIZE;
            && FreeRun(w.owners, r.value, count) && count <= |w.free|
            && var w1 := Assign(w, r.value, count);
               && w'.mem == w1.mem && w'.frames == w1.frames && |w'.entries| == |w.entries|
               && (forall p :: 0 <= p < |w.entries| && !(r.value <= p < r.value + count) ==> w'.entries[p] == w.entries[p])
               && (protection != PROT_NONE ==>
                     forall p :: r.value <= p < r.value + count ==> w'.entries[p] == Some(Entry(w1.frames[p], ProtectionFlags(protection))))
  {
    hide LowestRun;
    hide FirstNone;
    hide Fill;
    hide Assign;
  }

  /** A new mapping reads as zero, whatever its frames held before. */
  lemma NewMappingReadsZero(w: Window, length: nat, protection: nat)
    requires |w.frames| == |w.owners| == |w.entries| && Map(w, length, protection).1.Ok? && protection != PROT_NONE
    ensures var (w', r) := Map(w, length, protection);
            forall p: nat :: r.value <= p < r.value + length / PA.PAGE_SIZE ==> ReadPage(w', p) == Some(ZeroPage())
  {
    MapResult(w, length, protection);
    hide Map;
    hide Assign;
    AssignClears(w, Map(w, length, protection).1.value, length / PA.PAGE_SIZE);
  }

  /** Every page outside a new mapping reads as it did. */
  lemma OthersReadTheSame(w: Window, pool: set<nat>, length: nat, protection: nat, p: nat)
    requires Own(w, pool) && Map(w, length, protection).1.Ok?
    ensures var (w', r) := Map(w, length, protection);
            !(r.value <= p < r.value + length / PA.PAGE_SIZE) ==> ReadPage(w', p) == ReadPage(w, p)
  {
    MapResult(w, length, protection);
    hide Map;
    hide Assign;
    hide Tagged;
    var start := Map(w, length, protection).1.value;
    if !(start <= p < start + length / PA.PAGE_SIZE) && p < |w.entries| && w.entries[p].Some? {
      FrameUnique(w, pool, p);
      AssignClears(w, start, length / PA.PAGE_SIZE);
    }
  }

  // ----- Runs -----

  datatype WindowOp =
    | MapOp(length: nat, protection: nat)
    | MapAtOp(start: nat, count: nat, protection: nat)
    | MunmapOp(start: nat, count: nat)
    | ProtectOp(start: nat, count: nat, protection: nat)
    | StoreOp(page: nat, content: seq<Byte>)

  function Step(w: Window, op: WindowOp): Window
    requires |w.frames| == |w.owners| == |w.entries|
  {
    match op
    case MapOp(length, protection) => Map(w, length, protection).0
    case MapAtOp(start, count, protection) => MapAt(w, start, count, protection).0
    case MunmapOp(start, count) => Munmap(w, start, count).0
    case ProtectOp(start, count, protection) => Protect(w, start, count, protection).0
    case StoreOp(page, content) => StorePage(w, page, content)
  }

  lemma StepOwn(w: Window, op: WindowOp, pool: set<nat>)
    requires Own(w, pool)
    ensures Own(Step(w, op), pool)
  {
    hide Single;
    hide Tagged;
    match op
    case MapOp(length, protection) => MapOwn(w, length, protection, pool);
    case MapAtOp(start, count, protection) => MapAtOwn(w, start, count, protection, pool);
    case MunmapOp(start, count) => MunmapOwn(w, start, count, pool);
    case ProtectOp(start, count, protection) => ProtectOwn(w, start, count, protection, pool);
    case StoreOp(page, content) => StoreOwn(w, page, content, pool);
  }

  lemma StepInv(w: Window, op: WindowOp, pool: set<nat>, size: nat)
    requires Inv(w, pool, size)
    ensures Inv(Step(w, op), pool, size)
  {
    hide Conserved;
    hide Single;
    hide Tagged;
    match op
    case MapOp(length, protection) => MapInv(w, length, protection, pool, size);
    case MapAtOp(start, count, protection) => MapAtInv(w, start, count, protection, pool, size);
    case MunmapOp(start, count) => MunmapInv(w, start, count, pool, size);
    case ProtectOp(start, count, protection) => ProtectInv(w, start, count, protection, pool, size);
    case StoreOp(page, content) => StoreInv(w, page, content, pool, size);
  }

  lemma StepShape(w: Window, op: WindowOp)
    requires |w.frames| == |w.owners| == |w.entries|
    ensures var w' := Step(w, op); |w'.frames| == |w'.owners| == |w'.entries| == |w.frames|
  {
    hide LowestRun;
    hide FirstNone;
    hide RangeOwned;
    hide ExactFragment;
  }

  function Run(w: Window, ops: seq<WindowOp>): Window
    requires |w.frames| == |w.owners| == |w.entries|
    decreases |ops|
  {
    if ops == [] then w else StepShape(w, ops[0]); Run(Step(w, ops[0]), ops[1..])
  }

  /** Whatever the pool, every frame has at most one place over every run. */
  lemma {:induction false} RunOwn(w: Window, ops: seq<WindowOp>, pool: set<nat>)
    requires Own(w, pool)
    ensures Own(Run(w, ops), pool)
    decreases |ops|
  {
    assert Shape(w);
    hide Own;
    hide Step;
    if ops != [] {
      StepOwn(w, ops[0], pool);
      StepShape(w, ops[0]);
      RunOwn(Step(w, ops[0]), ops[1..], pool);
    }
  }

  lemma {:induction false} RunInv(w: Window, ops: seq<WindowOp>, pool: set<nat>, size: nat)
    requires Inv(w, pool, size)
    ensures Inv(Run(w, ops), pool, size)
    decreases |ops|
  {
    hide Conserved;
    hide Single;
    hide Tagged;
    if ops != [] {
      StepInv(w, ops[0], pool, size);
      RunInv(Step(w, ops[0]), ops[1..], pool, size);
    }
  }

  // ----- Pages nobody wrote to -----

  /** The frame recorded for the page, if any, holds zeros. */
  predicate Clean(w: Window, p: nat) {
    p < |w.frames| && (w.frames[p] != NO_FRAME ==> w.frames[p] in w.mem && w.mem[w.frames[p]] == ZeroPage())
  }

  /** Reserving cleans every page of the range, committed or not, and dirties no other. */
  lemma MapClean(w: Window, length: nat, protection: nat, pool: set<nat>, p: nat)
    requires Own(w, pool) && Map(w, length, protection).1.Ok? && p < |w.frames|
    ensures var (w', r) := Map(w, length, protection);
            Clean(w, p) || r.value <= p < r.value + length / PA.PAGE_SIZE ==> Clean(w', p)
  {
    MapResult(w, length, protection);
    var start, count := Map(w, length, protection).1.value, length / PA.PAGE_SIZE;
    hide Map;
    hide Tagged;
    AssignClears(w, start, count);
    AssignSafe(w, start, count, pool);
    if !(start <= p < start + count) && w.frames[p] != NO_FRAME {
      FrameUnique(w, pool, p);
    }
    hide Single;
    hide Assign;
  }

  lemma MapFailedClean(w: Window, length: nat, protection: nat, pool: set<nat>, p: nat)
    requires Own(w, pool) && Map(w, length, protection).1.Err? && Clean(w, p)
    ensures Clean(Map(w, length, protection).0, p)
  {
    hide Tagged;
    var count := length / PA.PAGE_SIZE;
    if Map(w, length, protection).1 == Err(PageMappingFailure) {
      var start := LowestRun(w.owners, count, 0).value;
      var w1 := Assign(w, start, count);
      var w2 := Unmap(Remap(w1, start, count, protection).0, start, count);
      AssignClears(w, start, count);
      AssignSafe(w, start, count, pool);
      SingleSame(w1, w2, pool);
      ReleaseSafe(w2, start, count, pool);
      if !(start <= p < start + count) && w.frames[p] != NO_FRAME {
        FrameUnique(w, pool, p);
      }
      hide Single;
      hide Assign;
      hide Release;
      hide Remap;
      hide LowestRun;
    }
  }

  lemma StepClean(w: Window, op: WindowOp, pool: set<nat>, p: nat)
    requires Own(w, pool) && Clean(w, p) && !(op.StoreOp? && op.page == p)
    ensures Clean(Step(w, op), p)
  {
    hide Single;
    hide Tagged;
    match op
    case MapOp(length, protection) =>
      if Map(w, length, protection).1.Ok? {
        MapClean(w, length, protection, pool, p);
      } else {
        MapFailedClean(w, length, protection, pool, p);
      }
      hide Map;
    case MunmapOp(start, count) =>
      hide LessLive;
      hide Fill;
      hide RangeOwned;
      hide Releasable;
      if Munmap(w, start, count).1 {
        var w2 := Unmap(ReleaseOwners(w, start, count), start, count);
        SingleSame(w, w2, pool);
        ReleaseSafe(w2, start, count, pool);
      }
    case StoreOp(page, content) =>
      if ReadPage(w, page).Some? && w.frames[p] != NO_FRAME {
        FrameUnique(w, pool, page);
      }
    case _ =>
  }

  predicate NeverStored(ops: seq<WindowOp>, p: nat) {
    forall k :: 0 <= k < |ops| ==> !(ops[k].StoreOp? && ops[k].page == p)
  }

  lemma {:induction false} RunClean(w: Window, ops: seq<WindowOp>, pool: set<nat>, p: nat)
    requires Own(w, pool) && Clean(w, p) && NeverStored(ops, p)
    ensures Clean(Run(w, ops), p)
    decreases |ops|
  {
    assert Shape(w);
    hide Own;
    hide Clean;
    hide Step;
    if ops != [] {
      StepClean(w, ops[0], pool, p);
      StepOwn(w, ops[0], pool);
      StepShape(w, ops[0]);
      RunClean(Step(w, ops[0]), ops[1..], pool, p);
    }
  }

  /** A page reserved with any protection, NONE included, and not stored to since reads
      as zeros whenever it is mapped, after any run; committing it maps it. */
  lemma UnwrittenReadsZero(w: Window, pool: set<nat>, length: nat, protection: nat, ops: seq<WindowOp>, p: nat, start: nat, count: nat, commit: nat)
    requires Own(w, pool) && Map(w, length, protection).1.Ok? && NeverStored(ops, p)
    requires Map(w, length, protection).1.value <= p < Map(w, length, protection).1.value + length / PA.PAGE_SIZE
    ensures var w' := Map(w, length, protection).0;
            && |w'.frames| == |w'.owners| == |w'.entries|
            && var w2 := Run(w', ops);
               && p < |w2.frames| == |w2.owners| == |w2.entries|
               && ReadPage(w2, p) in {None, Some(ZeroPage())}
               && (w2.entries[p].Some? && {Present, User} <= w2.entries[p].value.flags ==> ReadPage(w2, p) == Some(ZeroPage()))
               && (start <= p < start + count && commit != PROT_NONE ==>
                     && (Protect(w2, start, count, commit).1 ==> ReadPage(Protect(w2, start, count, commit).0, p) == Some(ZeroPage()))
                     && (MapAt(w2, start, count, commit).1 ==> ReadPage(MapAt(w2, start, count, commit).0, p) == Some(ZeroPage())))
  {
    var w' := Map(w, length, protection).0;
    MapResult(w, length, protection);
    assert p < |w.frames|;
    MapOwn(w, length, protection, pool);
    MapClean(w, length, protection, pool, p);
    RunOwn(w', ops, pool);
    RunClean(w', ops, pool, p);
    RunSize(w', ops);
    hide Map;
    hide Run;
    hide Single;
    hide Tagged;
    hide RangeOwned;
    hide ExactFragment;
  }

  lemma {:induction false} RunSize(w: Window, ops: seq<WindowOp>)
    requires |w.frames| == |w.owners| == |w.entries|
    ensures var w' := Run(w, ops); |w'.frames| == |w'.owners| == |w'.entries| == |w.frames|
    decreases |ops|
  {
    hide Step;
    if ops != [] {
      StepShape(w, ops[0]);
      RunSize(Step(w, ops[0]), ops[1..]);
    }
  }

  // ----- Fresh windows and the frame pool -----

  predicate Distinct(s: seq<nat>) {
    forall i, j :: 0 <= i < j < |s| ==> s[i] != s[j]
  }

  /** A window of `pages` pages and `slots` reservation slots over a filled pool. */
  predicate Fresh(w: Window) {
    && |w.frames| == |w.owners| == |w.entries| && |w.free| <= |w.frames| && 0 < |w.live| <= 255
    && (forall p :: 0 <= p < |w.frames| ==> w.frames[p] == NO_FRAME && w.owners[p] == 0 && w.entries[p].None?)
    && (forall s :: 0 <= s < |w.live| ==> w.live[s].None?)
    && Distinct(w.free) && (forall k :: 0 <= k < |w.free| ==> w.free[k] < MAX_FRAME && w.free[k] in w.mem && |w.mem[w.free[k]]| == PA.PAGE_SIZE)
  }

  lemma {:induction false} DistinctCount(s: seq<nat>, f: nat)
    requires Distinct(s)
    ensures Total(PA.IsW(f), s) == if f in s then 1 else 0
  {
    if s != [] {
      assert forall i, j :: 0 <= i < j < |s[1..]| ==> s[1..][i] == s[i + 1] && s[1..][j] == s[j + 1];
      DistinctCount(s[1..], f);
      assert s[0] !in s[1..];
    }
  }

  /** Any filled pool will do, one with frame 0 included. */
  lemma FreshOwn(w: Window)
    requires Fresh(w)
    ensures Own(w, set f | f in w.free)
  {
    forall f: nat | f != NO_FRAME
      ensures Total(PA.IsW(f), w.free) + Total(PA.IsW(f), w.frames) == if f in (set g | g in w.free) then 1 else 0
    {
      DistinctCount(w.free, f);
      TotalZero(PA.IsW(f), w.frames);
    }
    forall s | 0 <= s < |w.live|
      ensures w.live[s].None? && Released(w.owners, s + 1) == 0
    {
      NoneTagged(w.owners, s + 1);
    }
  }

  lemma FreshInv(w: Window)
    requires Fresh(w) && NO_FRAME !in w.free
    ensures Inv(w, set f | f in w.free, |w.free|)
  {
    FreshOwn(w);
    TotalZero(SetW(), w.frames);
    hide Own;
  }

  /** Draw frames from the boot allocator until the pool is full, keeping the ones the
      kernel can reach. */
  function Draw(h: PA.Holding, mapped: set<nat>, limit: nat, pool: seq<nat>): (PA.Holding, seq<nat>)
    requires PA.Shaped(h.pages.ranges)
    decreases |h.pages.freed| + Total(PA.OpenW(), h.pages.ranges)
  {
    if |pool| >= limit then (h, pool)
    else
      var (pages, frame) := PA.Allocate(h.pages);
      if frame.None? then (h, pool)
      else
        DrawnLess(h.pages);
        Draw(PA.Step(h, PA.Take), mapped, limit, if frame.value in mapped then pool + [frame.value] else pool)
  }

  lemma DrawnLess(p: PA.Pages)
    requires PA.Shaped(p.ranges) && PA.Allocate(p).1.Some?
    ensures var p' := PA.Allocate(p).0;
            PA.Shaped(p'.ranges) && |p'.freed| + Total(PA.OpenW(), p'.ranges) < |p.freed| + Total(PA.OpenW(), p.ranges)
  {
    if p.freed == [] {
      var i := PA.FirstOpen(p.ranges, None).value;
      TotalUpdate(PA.OpenW(), p.ranges, i, p.ranges[i].(next := p.ranges[i].next + 1));
    }
  }

  /** What is drawn is held once more for each time it is in the pool. */
  lemma {:induction false} DrawAccounted(h: PA.Holding, mapped: set<nat>, limit: nat, pool: seq<nat>, before: seq<nat>)
    requires PA.Accounted(h) && |pool| <= limit
    requires forall f: nat :: Total(PA.IsW(f), pool) + Total(PA.IsW(f), before) <= Total(PA.IsW(f), h.held)
    requires forall k :: 0 <= k < |pool| ==> pool[k] in mapped
    ensures var (h', pool') := Draw(h, mapped, limit, pool);
            && PA.Accounted(h') && PA.SameBounds(h'.pages.ranges, h.pages.ranges) && |pool'| <= limit
            && (forall f: nat :: Total(PA.IsW(f), pool') + Total(PA.IsW(f), before) <= Total(PA.IsW(f), h'.held))
            && (forall k :: 0 <= k < |pool'| ==> pool'[k] in mapped)
    decreases |h.pages.freed| + Total(PA.OpenW(), h.pages.ranges)
  {
    PA.ShapedOf(h);
    hide PA.Accounted;
    hide Total;
    var frame := PA.Allocate(h.pages).1;
    if |pool| < limit && frame.Some? {
      var h1 := PA.Step(h, PA.Take);
      var pool1 := if frame.value in mapped then pool + [frame.value] else pool;
      PA.StepAccounted(h, PA.Take);
      PA.StepBounds(h, PA.Take);
      DrawnLess(h.pages);
      forall f: nat
        ensures Total(PA.IsW(f), pool1) + Total(PA.IsW(f), before) <= Total(PA.IsW(f), h1.held)
      {
        PA.Appended(pool, frame.value, f);
        PA.Appended(h.held, frame.value, f);
      }
      DrawAccounted(h1, mapped, limit, pool1, before);
    }
  }

  /** From a disjoint memory map the pool is free of repetitions and of every frame
      drawn for something else. */
  lemma PoolIsFresh(h: PA.Holding, mapped: set<nat>, limit: nat)
    requires PA.Accounted(h) && PA.Disjoint(h.pages.ranges)
    ensures var (h', pool) := Draw(h, mapped, limit, []);
            && Distinct(pool) && |pool| <= limit
            && (forall k :: 0 <= k < |pool| ==> pool[k] in mapped && pool[k] !in h.held)
  {
    PA.ShapedOf(h);
    DrawAccounted(h, mapped, limit, [], h.held);
    var (h', pool) := Draw(h, mapped, limit, []);
    assert PA.Disjoint(h'.pages.ranges) by {
      assert forall i, j :: 0 <= i < j < |h'.pages.ranges| ==> PA.Apart(h.pages.ranges[i], h.pages.ranges[j]);
    }
    forall f: nat
      ensures Total(PA.IsW(f), pool) + Total(PA.IsW(f), h.held) <= 1
    {
      PA.CoveredOnce(h'.pages.ranges, f);
      PA.HandedCovered(h'.pages.ranges, f);
    }
    forall i, j | 0 <= i < j < |pool|
      ensures pool[i] != pool[j]
    {
      TotalTwo(PA.IsW(pool[i]), pool, i, j);
    }
    forall k | 0 <= k < |pool|
      ensures pool[k] !in h.held
    {
      TotalUpdate(PA.IsW(pool[k]), pool, k, pool[k]);
      TotalPositive(PA.IsW(pool[k]), h.held);
      assert forall n :: 0 <= n < |h.held| ==> PA.IsW(pool[k])(h.held[n]) == 0;
    }
  }

  /** From boot allocator to page table: whatever the program does, a page of the
      window only ever shows a frame that nothing else was given and that no other
      page shows. */
  lemma NoFrameOwnedTwice(h: PA.Holding, mapped: set<nat>, w: Window, ops: seq<WindowOp>, p: nat, q: nat)
    requires PA.Accounted(h) && PA.Disjoint(h.pages.ranges)
    requires Fresh(w) && PA.Shaped(h.pages.ranges) && w.free == Draw(h, mapped, |w.frames|, []).1
    ensures var w' := Run(w, ops);
            p < |w'.entries| && w'.entries[p].Some? ==>
              && w'.entries[p].value.frame !in h.held && w'.entries[p].value.frame !in w'.free
              && (q < |w'.entries| && q != p && w'.entries[q].Some? ==> w'.entries[q].value.frame != w'.entries[p].value.frame)
  {
    PoolIsFresh(h, mapped, |w.frames|);
    FreshOwn(w);
    var pool := set f | f in w.free;
    RunOwn(w, ops, pool);
    hide Run;
    hide Draw;
    hide PA.Accounted;
    var w' := Run(w, ops);
    if p < |w'.entries| && w'.entries[p].Some? {
      FrameUnique(w', pool, p);
    }
  }

  // ----- The frame at address zero -----

  /** Every pool frame is still on the stack or recorded for a page. */
  predicate Whole(w: Window, size: nat) {
    |w.free| + Total(SetW(), w.frames) == size
  }

  lemma {:induction false} AssignedFrame(w: Window, start: nat, count: nat, k: nat)
    requires start + count <= |w.frames| && count <= |w.free| && k < count
    ensures Assign(w, start, count).frames[start + k] == w.free[|w.free| - 1 - k]
    decreases count
  {
    var w1 := AssignOne(w, start);
    if k == 0 {
      EarlierFrames(w1, start + 1, count - 1, start);
    } else {
      AssignedFrame(w1, start + 1, count - 1, k - 1);
    }
  }

  lemma {:induction false} EarlierFrames(w: Window, start: nat, count: nat, p: nat)
    requires start + count <= |w.frames| && count <= |w.free| && p < |w.frames| && !(start <= p < start + count)
    ensures Assign(w, start, count).frames[p] == w.frames[p]
    decreases count
  {
    if count > 0 {
      EarlierFrames(AssignOne(w, start), start + 1, count - 1, p);
    }
  }

  lemma {:induction false} ReleasedCount(w: Window, start: nat, count: nat)
    requires start + count <= |w.frames|
    ensures |Release(w, start, count).free| == |w.free| + Total(SetW(), w.frames[start..start + count])
    ensures forall p :: 0 <= p < |w.frames| ==> Release(w, start, count).frames[p] == if start <= p < start + count then NO_FRAME else w.frames[p]
    decreases count
  {
    if count > 0 {
      var w1 := ReleaseOne(w, start);
      ReleasedCount(w1, start + 1, count - 1);
      assert w.frames[start..start + count][1..] == w1.frames[start + 1..start + count];
    }
  }

  lemma {:induction false} FewSet(s: seq<nat>)
    ensures Total(SetW(), s) <= |s| && (NO_FRAME in s ==> Total(SetW(), s) < |s|)
  {
    if s != [] {
      FewSet(s[1..]);
    }
  }

  lemma RoomFromStart(owners: seq<nat>, count: nat)
    requires count <= |owners| && forall p :: 0 <= p < |owners| ==> owners[p] == 0
    ensures LowestRun(owners, count, 0) == Some(0)
  {
    assert FreeRun(owners, 0, count);
  }

  /** With the frame at address 0 in the pool, one request loses it: the frame is taken
      for the "no frame" mark, the mapping fails and the frame is never given back. */
  lemma ZeroFrameIsLost(w: Window, i: nat)
    requires Fresh(w) && i < |w.free| && w.free[i] == NO_FRAME
    ensures var op := MapOp((|w.free| - i) * PA.PAGE_SIZE, PROT_READ);
            Map(w, op.length, op.protection).1 == Err(PageMappingFailure) && !Whole(Step(w, op), |w.free|)
  {
    var count := |w.free| - i;
    var length := count * PA.PAGE_SIZE;
    assert length / PA.PAGE_SIZE == count && length % PA.PAGE_SIZE == 0 && length <= |w.frames| * PA.PAGE_SIZE;
    assert ValidRequest(w, length, PROT_READ);
    RoomFromStart(w.owners, count);
    var w1 := Assign(w, 0, count);
    AssignedFrame(w, 0, count, count - 1);
    var (w2, ok) := Remap(w1, 0, count, PROT_READ);
    assert w1.frames[count - 1] == NO_FRAME && !ok;
    var w3 := Unmap(w2, 0, count);
    var w4 := Release(w3, 0, count);
    ReleasedCount(w3, 0, count);
    assert w3.frames[0..count][count - 1] == NO_FRAME;
    FewSet(w3.frames[0..count]);
    forall p | 0 <= p < |w4.frames|
      ensures w4.frames[p] == NO_FRAME
    {
      if p >= count {
        EarlierFrames(w, 0, count, p);
      }
    }
    TotalZero(SetW(), w4.frames);
    assert Step(w, MapOp(length, PROT_READ)) == w4;
  }

  lemma RunsWhole(w: Window, ops: seq<WindowOp>)
    requires Fresh(w) && NO_FRAME !in w.free
    ensures Whole(Run(w, ops), |w.free|)
  {
    FreshInv(w);
    hide Run;
    RunInv(w, ops, set f | f in w.free, |w.free|);
  }

  lemma RunOne(w: Window, op: WindowOp)
    requires |w.frames| == |w.owners| == |w.entries|
    ensures Run(w, [op]) == Step(w, op)
  {
    hide Step;
    StepShape(w, op);
    assert [op][1..] == [];
  }

  /** Over all runs the pool is conserved exactly when it does not hold frame 0. */
  lemma ExactlyWithoutFrameZero(w: Window)
    requires Fresh(w)
    ensures NO_FRAME !in w.free <==> forall ops: seq<WindowOp> :: Whole(Run(w, ops), |w.free|)
  {
    hide Run;
    hide Whole;
    hide Step;
    if NO_FRAME !in w.free {
      forall ops: seq<WindowOp>
        ensures Whole(Run(w, ops), |w.free|)
      {
        RunsWhole(w, ops);
      }
    } else {
      var i: nat :| i < |w.free| && w.free[i] == NO_FRAME;
      ZeroFrameIsLost(w, i);
      RunOne(w, MapOp((|w.free| - i) * PA.PAGE_SIZE, PROT_READ));
    }
  }
}
