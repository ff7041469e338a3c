/** What the mmap calls give user code: who may load, store and fetch where, when each
    call succeeds, and what an unmap undoes. */
module MmapOutcomes {
  import opened Prelude
  import opened Counts
  import PA = PageAllocator
  import opened Mmap
  import opened MmapSafety
  import opened MmapRuns
  import MR = MmapRanges

  // ----- Protections -----

  /** User code may do to page `p` exactly what the protection asked for says: bit 0 to 2
      for load, store and fetch, where any of them brings the load with it. */
  ghost predicate Obeys(w: Window, p: nat, protection: nat) {
    && (ReadPage(w, p).Some? <==> protection != PROT_NONE)
    && (FetchPage(w, p).Some? <==> protection / 4 % 2 == 1)
    && (protection / 2 % 2 == 1 ==>
          forall content: seq<Byte> {:trigger StorePage(w, p, content)} :: |content| == PA.PAGE_SIZE ==> ReadPage(StorePage(w, p, content), p) == Some(content))
    && (protection / 2 % 2 == 0 ==>
          forall content: seq<Byte> {:trigger StorePage(w, p, content)} :: StorePage(w, p, content) == w)
  }

  lemma EntryObeys(w: Window, p: nat, protection: nat)
    requires p < |w.entries| && w.entries[p].Some? && w.entries[p].value.frame in w.mem && protection != PROT_NONE
    requires w.entries[p].value.flags == ProtectionFlags(protection)
    ensures Obeys(w, p, protection)
  {
    var flags := ProtectionFlags(protection);
    assert {Present, User} + {} <= flags;
    assert {Present, User} + {Writable} <= flags <==> protection / 2 % 2 == 1;
  }

  lemma UnmappedObeys(w: Window, p: nat)
    requires p < |w.entries| ==> w.entries[p].None?
    ensures Obeys(w, p, PROT_NONE)
  {
  }

  lemma RemapObeys(w: Window, start: nat, count: nat, protection: nat, pool: set<nat>, p: nat)
    requires |w.frames| == |w.entries| && Single(w, pool) && start + count <= |w.frames| && protection != PROT_NONE
    requires Remap(w, start, count, protection).1 && start <= p < start + count
    ensures Obeys(Remap(w, start, count, protection).0, p, protection)
  {
    FrameUnique(w, pool, p);
    hide Single;
    hide ProtectionFlags;
    EntryObeys(Remap(w, start, count, protection).0, p, protection);
  }

  /** A change of protection gives exactly the access asked for, keeps every page's content
      and leaves every page outside the range alone. */
  lemma ProtectObeyed(w: Window, pool: set<nat>, start: nat, count: nat, protection: nat, p: nat)
    requires Own(w, pool) && Protect(w, start, count, protection).1
    ensures var w' := Protect(w, start, count, protection).0;
            && w'.mem == w.mem && w'.frames == w.frames
            && if start <= p < start + count then Obeys(w', p, protection) else ReadPage(w', p) == ReadPage(w, p) && FetchPage(w', p) == FetchPage(w, p)
  {
    hide Single;
    hide Tagged;
    hide Obeys;
    if start <= p < start + count {
      if protection == PROT_NONE {
        UnmappedObeys(Unmap(w, start, count), p);
      } else {
        RemapObeys(w, start, count, protection, pool, p);
      }
    }
  }

  /** Committing a reserved fragment in place obeys the protection in the same way. */
  lemma MapAtObeyed(w: Window, pool: set<nat>, start: nat, count: nat, protection: nat, p: nat)
    requires Own(w, pool) && MapAt(w, start, count, protection).1
    ensures var w' := MapAt(w, start, count, protection).0;
            && w'.mem == w.mem && w'.frames == w.frames
            && if start <= p < start + count then Obeys(w', p, protection) else ReadPage(w', p) == ReadPage(w, p) && FetchPage(w', p) == FetchPage(w, p)
  {
    hide Single;
    hide Tagged;
    hide Obeys;
    if start <= p < start + count {
      if protection == PROT_NONE {
        UnmappedObeys(Unmap(w, start, count), p);
      } else {
        RemapObeys(w, start, count, protection, pool, p);
      }
    }
  }

  /** A new mapping can be used exactly as asked. */
  lemma MapObeyed(w: Window, pool: set<nat>, length: nat, protection: nat, p: nat)
    requires Own(w, pool) && Map(w, length, protection).1.Ok?
    requires Map(w, length, protection).1.value <= p < Map(w, length, protection).1.value + length / PA.PAGE_SIZE
    ensures Obeys(Map(w, length, protection).0, p, protection)
  {
    hide Single;
    hide Tagged;
    hide Obeys;
    hide LowestRun;
    hide FirstNone;
    var (w', r) := Map(w, length, protection);
    var count := length / PA.PAGE_SIZE;
    MapResult(w, length, protection);
    if protection == PROT_NONE {
      assert w.owners[p] == 0;
      UnmappedObeys(w', p);
    } else {
      AssignClears(w, r.value, count);
      hide Assign;
      EntryObeys(w', p, protection);
    }
  }

  // ----- User buffers -----

  /** A user load from byte address `b`, and a user store to it, would work. */
  predicate LoadWorks(w: Window, base: nat, b: nat) {
    base <= b && ReadPage(w, (b - base) / PA.PAGE_SIZE).Some?
  }

  predicate StoreWorks(w: Window, base: nat, b: nat) {
    base <= b && Mapped(w, (b - base) / PA.PAGE_SIZE, {Writable})
  }

  /** The kernel accepts a user buffer in the window exactly when user code itself could load
      from, or store to, every byte of it. */
  lemma BufferCheckMeans(w: Window, pool: set<nat>, base: nat, address: nat, length: nat)
    requires Own(w, pool) && base <= address
    ensures MR.AllBytes(w.entries, base, address, length, {Present, User}) <==> forall b :: address <= b < address + length ==> LoadWorks(w, base, b)
    ensures MR.AllBytes(w.entries, base, address, length, {Present, User, Writable}) <==> forall b :: address <= b < address + length ==> StoreWorks(w, base, b)
  {
    forall b | address <= b < address + length
      ensures MR.ByteHas(w.entries, base, b, {Present, User}) <==> LoadWorks(w, base, b)
      ensures MR.ByteHas(w.entries, base, b, {Present, User, Writable}) <==> StoreWorks(w, base, b)
    {
      PageCheckMeans(w, pool, (b - base) / PA.PAGE_SIZE);
    }
    hide MR.ByteHas;
    hide LoadWorks;
    hide StoreWorks;
  }

  lemma PageCheckMeans(w: Window, pool: set<nat>, p: nat)
    requires Own(w, pool)
    ensures MR.Has(w.entries, p, {Present, User}) <==> ReadPage(w, p).Some?
    ensures MR.Has(w.entries, p, {Present, User, Writable}) <==> Mapped(w, p, {Writable})
  {
    if p < |w.entries| && w.entries[p].Some? {
      FrameUnique(w, pool, p);
    }
    assert {Present, User} + {} == {Present, User} && {Present, User} + {Writable} == {Present, User, Writable};
  }

  // ----- When the calls succeed -----

  /** Some run of `count` unowned pages. */
  ghost predicate Room(owners: seq<nat>, count: nat) {
    exists s: nat :: FreeRun(owners, s, count)
  }

  /** A request is granted exactly when it is well formed and there is a reservation slot, a
      free run and a frame for every page; it then gets the lowest free run. */
  lemma MapSucceeds(w: Window, pool: set<nat>, size: nat, length: nat, protection: nat)
    requires Inv(w, pool, size)
    ensures var count, r := length / PA.PAGE_SIZE, Map(w, length, protection).1;
            && (r.Ok? <==>
                  && length != 0 && length % PA.PAGE_SIZE == 0 && protection <= 7 && count <= |w.frames|
                  && None in w.live && Room(w.owners, count) && count <= |w.free|)
            && (r.Ok? ==> FreeRun(w.owners, r.value, count) && forall s: nat :: FreeRun(w.owners, s, count) ==> r.value <= s)
  {
    hide Own;
    hide Conserved;
    hide LowestRun;
    hide Assign;
    hide Release;
    hide Remap;
    hide Fill;
    MapInv(w, length, protection, pool, size);
    assert Shape(w) by {
      ShapeOf(w, pool);
    }
    var count := length / PA.PAGE_SIZE;
    assert length % PA.PAGE_SIZE == 0 ==> (length <= |w.frames| * PA.PAGE_SIZE <==> count <= |w.frames|);
    var found := LowestRun(w.owners, count, 0);
    if s: nat :| FreeRun(w.owners, s, count) {
      assert found.Some?;
    }
  }

  /** Each refusal has its one cause, looked for in this order. */
  lemma MapRefused(w: Window, pool: set<nat>, size: nat, length: nat, protection: nat)
    requires Inv(w, pool, size)
    ensures var count, r := length / PA.PAGE_SIZE, Map(w, length, protection).1;
            var valid := length != 0 && length % PA.PAGE_SIZE == 0 && protection <= 7 && count <= |w.frames|;
            && (r == Err(InvalidRequest) <==> !valid)
            && (r == Err(ReservationTableFull) <==> valid && None !in w.live)
            && (r == Err(NoContiguousRange) <==> valid && None in w.live && !Room(w.owners, count))
            && (r == Err(PhysicalMemoryExhausted) <==> valid && None in w.live && Room(w.owners, count) && |w.free| < count)
  {
    hide Own;
    hide Conserved;
    hide LowestRun;
    hide Assign;
    hide Release;
    hide Remap;
    hide Fill;
    MapInv(w, length, protection, pool, size);
    assert Shape(w) by {
      ShapeOf(w, pool);
    }
    var count := length / PA.PAGE_SIZE;
    assert length % PA.PAGE_SIZE == 0 ==> (length <= |w.frames| * PA.PAGE_SIZE <==> count <= |w.frames|);
    if s: nat :| FreeRun(w.owners, s, count) {
      assert LowestRun(w.owners, count, 0).Some?;
    }
  }

  /** A fragment can be committed in place exactly when it is a whole run of pages with one
      owner, no page more and no page less. */
  lemma MapAtSucceeds(w: Window, pool: set<nat>, size: nat, start: nat, count: nat, protection: nat)
    requires Inv(w, pool, size)
    ensures MapAt(w, start, count, protection).1 <==>
              && count != 0 && start + count <= |w.owners| && w.owners[start] != 0
              && (forall p :: start <= p < start + count ==> w.owners[p] == w.owners[start])
              && (start == 0 || w.owners[start - 1] != w.owners[start])
              && (start + count == |w.owners| || w.owners[start + count] != w.owners[start])
  {
    hide Conserved;
    hide Single;
    hide Remap;
    if count != 0 && start + count <= |w.owners| && w.owners[start] != 0 {
      TagLive(w, start);
    }
    if ExactFragment(w, start, count) {
      OwnedFrame(w, pool, size, start, count);
    }
  }

  lemma ShapeOf(w: Window, pool: set<nat>)
    requires Own(w, pool)
    ensures Shape(w)
  {
  }

  /** Protection changes and unmaps are granted exactly on ranges without an unowned page. */
  lemma RangeCallsSucceed(w: Window, pool: set<nat>, size: nat, start: nat, count: nat, protection: nat)
    requires Inv(w, pool, size)
    ensures var owned := count != 0 && start + count <= |w.owners| && forall p :: start <= p < start + count ==> w.owners[p] != 0;
            && (Protect(w, start, count, protection).1 <==> owned)
            && (Munmap(w, start, count).1 <==> owned)
  {
    hide Conserved;
    hide Single;
    hide Remap;
    hide Release;
    ProtectInv(w, start, count, protection, pool, size);
    OwnedReleasable(w, start, count);
    if RangeOwned(w, start, count) {
      OwnedFrame(w, pool, size, start, count);
    }
  }

  // ----- Unmap undoes map -----

  lemma {:induction false} CountIs(s: seq<nat>, f: nat)
    ensures multiset(s)[f] == Total(PA.IsW(f), s)
  {
    if s != [] {
      CountIs(s[1..], f);
      assert s == [s[0]] + s[1..];
    }
  }

  /** Dropping a reservation that is exactly the range frees its slot and touches no other. */
  lemma ReservationUndone(live: seq<Option<nat>>, slot: nat, count: nat)
    requires slot < |live| && live[slot].None? && count > 0
    ensures LessLive(live[slot := Some(count)], Repeat(count, slot + 1)) == live
  {
    var after := LessLive(live[slot := Some(count)], Repeat(count, slot + 1));
    forall s | 0 <= s < |live|
      ensures after[s] == live[s]
    {
      Constant(count, slot + 1, s + 1);
    }
  }

  lemma TagsUndone(owners: seq<nat>, start: nat, count: nat, v: nat)
    requires FreeRun(owners, start, count)
    ensures Fill(Fill(owners, start, count, v), start, count, 0) == owners
    ensures Fill(owners, start, count, v)[start..start + count] == Repeat(count, v)
  {
  }

  lemma SameFrames(w: Window, w': Window, pool: set<nat>)
    requires Single(w, pool) && Single(w', pool) && w.frames == w'.frames && NO_FRAME !in w.free && NO_FRAME !in w'.free
    ensures multiset(w.free) == multiset(w'.free)
  {
    forall f: nat
      ensures multiset(w.free)[f] == multiset(w'.free)[f]
    {
      CountIs(w.free, f);
      CountIs(w'.free, f);
    }
  }

  /** What a granted mapping records. */
  lemma MapRecords(w: Window, length: nat, protection: nat)
    requires |w.frames| == |w.owners| == |w.entries| && Map(w, length, protection).1.Ok?
    ensures var (w', r) := Map(w, length, protection);
            var count := length / PA.PAGE_SIZE;
            && FirstNone(w.live).Some? && r.value + count <= |w.owners|
            && w'.owners == Fill(w.owners, r.value, count, FirstNone(w.live).value + 1)
            && w'.live == w.live[FirstNone(w.live).value := Some(count)]
  {
    hide LowestRun;
    hide FirstNone;
    hide Fill;
    hide Assign;
    hide Remap;
    hide ValidRequest;
  }

  lemma FramesUndone(w: Window, w2: Window, start: nat, count: nat, pool: set<nat>)
    requires Own(w, pool) && FreeRun(w.owners, start, count) && count <= |w.free| && start + count <= |w2.frames| && NO_FRAME !in w2.free
    requires w2.frames == Assign(w, start, count).frames
    ensures Release(w2, start, count).frames == w.frames
  {
    AssignOwned(w, start, count, pool);
    hide Single;
    hide Tagged;
    hide Assign;
    hide Release;
    ReleaseKeeps(w2, start, count);
    assert forall p :: start <= p < start + count ==> w.frames[p] == NO_FRAME;
  }

  lemma EntriesUndone(w: Window, w1: Window, start: nat, count: nat, pool: set<nat>)
    requires Own(w, pool) && FreeRun(w.owners, start, count) && |w1.entries| == |w.entries|
    requires forall p :: 0 <= p < |w.entries| && !(start <= p < start + count) ==> w1.entries[p] == w.entries[p]
    ensures Unmap(w1, start, count).entries == w.entries
  {
    hide Single;
    hide Tagged;
    assert forall p :: start <= p < start + count ==> w.entries[p].None?;
  }

  lemma OwnersUndone(w: Window, w1: Window, slot: nat, start: nat, count: nat)
    requires FreeRun(w.owners, start, count) && slot < |w.live| && w.live[slot].None? && count > 0
    requires w1.owners == Fill(w.owners, start, count, slot + 1) && w1.live == w.live[slot := Some(count)]
    ensures ReleaseOwners(w1, start, count).owners == w.owners && ReleaseOwners(w1, start, count).live == w.live
  {
    ReservationUndone(w.live, slot, count);
    TagsUndone(w.owners, start, count, slot + 1);
  }

  /** Unmapping what was just mapped succeeds and gives everything back: the tags, the
      reservation slot, the entries, and the same frames to the free stack. */
  lemma UnmapUndoesMap(w: Window, pool: set<nat>, size: nat, length: nat, protection: nat)
    requires Inv(w, pool, size) && Map(w, length, protection).1.Ok?
    ensures var (w1, r) := Map(w, length, protection);
            && |w1.frames| == |w1.owners| == |w1.entries|
            && var (w2, ok) := Munmap(w1, r.value, length / PA.PAGE_SIZE);
               && ok && w2.owners == w.owners && w2.live == w.live && w2.entries == w.entries && w2.frames == w.frames
               && multiset(w2.free) == multiset(w.free)
  {
    hide Single;
    hide Tagged;
    hide Total;
    hide Fill;
    hide LessLive;
    hide Release;
    hide Assign;
    hide RangeOwned;
    hide Releasable;
    MapSucceeds(w, pool, size, length, protection);
    MapRecords(w, length, protection);
    MapResult(w, length, protection);
    MapInv(w, length, protection, pool, size);
    var (w1, r) := Map(w, length, protection);
    hide Map;
    var start, count := r.value, length / PA.PAGE_SIZE;
    MunmapInv(w1, start, count, pool, size);
    RangeCallsSucceed(w1, pool, size, start, count, PROT_NONE);
    OwnersUndone(w, w1, FirstNone(w.live).value, start, count);
    var freed := ReleaseOwners(w1, start, count);
    EntriesUndone(w, freed, start, count, pool);
    FramesUndone(w, Unmap(freed, start, count), start, count, pool);
    SameFrames(w, Munmap(w1, start, count).0, pool);
  }
}
