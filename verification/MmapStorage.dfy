/** The mmap window in place: each call is the loop the kernel runs. */
module MmapStorage {
  import opened Prelude
  import opened Counts
  import opened PageAllocator
  import opened Mmap
  import opened MmapSafety
  import opened MmapRanges

  class BootstrapStorage {
    var frames: seq<nat>
    var free: seq<nat>
    var owners: seq<nat>
    var live: seq<Option<nat>>
    var entries: seq<Option<Entry>>
    var mem: map<nat, seq<Byte>>

    function View(): Window
      reads this
    {
      Window(frames, free, owners, live, entries, mem)
    }

    predicate Sized()
      reads this
    {
      |frames| == |owners| == |entries|
    }

    constructor (w: Window)
      ensures View() == w
    {
      frames, free, owners, live, entries, mem := w.frames, w.free, w.owners, w.live, w.entries, w.mem;
    }

    method AssignFrames(start: nat, count: nat) returns (ok: bool)
      requires start + count <= |frames|
      modifies this
      ensures ok <==> old(|free|) >= count
      ensures View() == if ok then Assign(old(View()), start, count) else old(View())
    {
      if |free| < count {
        return false;
      }
      var page := start;
      while page < start + count
        invariant start <= page <= start + count <= |frames| && start + count - page <= |free|
        invariant Assign(View(), page, start + count - page) == Assign(old(View()), start, count)
      {
        var f := free[|free| - 1];
        free := free[..|free| - 1];
        mem := mem[f := ZeroPage()];
        frames := frames[page := f];
        page := page + 1;
      }
      ok := true;
    }

    method ReleaseFrames(start: nat, count: nat)
      requires start + count <= |frames|
      modifies this
      ensures View() == Mmap.Release(old(View()), start, count)
    {
      hide Mmap.Release;
      var page := start;
      while page < start + count
        invariant start <= page <= start + count <= |frames|
        invariant Mmap.Release(View(), page, start + count - page) == Mmap.Release(old(View()), start, count)
      {
        ghost var before := View();
        ReleaseStep(before, page, start + count - page);
        var f := frames[page];
        frames := frames[page := NO_FRAME];
        if f != NO_FRAME {
          free := free + [f];
        }
        assert View() == ReleaseOne(before, page);
        page := page + 1;
      }
      ReleaseStep(View(), page, 0);
    }

    method RemapPages(start: nat, count: nat, protection: nat) returns (ok: bool)
      requires Sized() && start + count <= |frames|
      modifies this
      ensures (View(), ok) == Remap(old(View()), start, count, protection)
    {
      hide Remap;
      var page := start;
      while page < start + count
        invariant Sized() && start <= page <= start + count <= |frames|
        invariant Remap(View(), page, start + count - page, protection) == Remap(old(View()), start, count, protection)
      {
        RemapStep(View(), page, start + count - page, protection);
        if frames[page] == NO_FRAME || frames[page] >= MAX_FRAME {
          return false;
        }
        entries := entries[page := Some(Entry(frames[page], ProtectionFlags(protection)))];
        page := page + 1;
      }
      RemapStep(View(), page, 0, protection);
      ok := true;
    }

    method UnmapPages(start: nat, count: nat)
      requires start + count <= |entries|
      modifies this
      ensures View() == Unmap(old(View()), start, count)
    {
      var page := start;
      while page < start + count
        invariant start <= page <= start + count <= |entries| == |old(entries)|
        invariant View() == old(View()).(entries := entries)
        invariant forall p :: 0 <= p < |entries| ==> entries[p] == if start <= p < page then None else old(entries)[p]
      {
        entries := entries[page := None];
        page := page + 1;
      }
      assert entries == Unmap(old(View()), start, count).entries;
    }

    /** Count what each slot gives up, refuse if a tag is wrong, then settle. */
    method ReleaseRange(start: nat, count: nat) returns (ok: bool)
      requires start + count <= |owners| && count != 0
      modifies this
      ensures ok <==> Releasable(old(View()), start, count)
      ensures View() == if ok then ReleaseOwners(old(View()), start, count) else old(View())
    {
      hide Releasable;
      hide RunReleasable;
      RunStart(View(), start);
      var released := new nat[|live|](_ => 0);
      var page := start;
      while page < start + count
        invariant start <= page <= start + count <= |owners| && View() == old(View())
        invariant forall s :: 0 <= s < |live| ==> released[s] == Released(owners[start..page], s + 1)
        invariant RunReleasable(View(), start, page)
      {
        var owner := owners[page];
        RunMore(View(), start, page);
        if owner == 0 || owner - 1 >= |live| || live[owner - 1].None? {
          RunFails(View(), start, page, start + count);
          return false;
        }
        OneMore(owners, start, page);
        released[owner - 1] := released[owner - 1] + 1;
        if released[owner - 1] > live[owner - 1].value {
          RunFails(View(), start, page, start + count);
          return false;
        }
        page := page + 1;
      }
      RunWhole(View(), start, count);
      Settle(start, count, released);
      ok := true;
    }

    method Settle(start: nat, count: nat, released: array<nat>)
      requires start + count <= |owners| && released.Length == |live|
      requires forall s :: 0 <= s < |live| ==> released[s] == Released(owners[start..start + count], s + 1)
      modifies this
      ensures View() == ReleaseOwners(old(View()), start, count)
    {
      ghost var gone := owners[start..start + count];
      owners := Fill(owners, start, count, 0);
      for slot := 0 to |live|
        invariant View() == old(View()).(owners := Fill(old(owners), start, count, 0), live := live) && |live| == |old(live)|
        invariant forall s :: 0 <= s < |live| ==> live[s] == if s < slot then LessLive(old(live), gone)[s] else old(live)[s]
      {
        if released[slot] != 0 && live[slot].Some? {
          live := live[slot := if released[slot] >= live[slot].value then None else Some(live[slot].value - released[slot])];
        }
      }
      assert live == LessLive(old(live), gone);
    }

    method MmapUser(length: nat, protection: nat) returns (r: Result<nat, MmapFailure>)
      requires Sized()
      modifies this
      ensures Sized() && (View(), r) == Map(old(View()), length, protection)
    {
      if !ValidRequest(View(), length, protection) {
        return Err(InvalidRequest);
      }
      var count := length / PAGE_SIZE;
      var slot := FirstNone(live);
      if slot.None? {
        return Err(ReservationTableFull);
      }
      var start := FindStartPage(owners, count);
      if start.None? {
        return Err(NoContiguousRange);
      }
      var backed := AssignFrames(start.value, count);
      if !backed {
        return Err(PhysicalMemoryExhausted);
      }
      if protection != PROT_NONE {
        var mapped := RemapPages(start.value, count, protection);
        if !mapped {
          UnmapPages(start.value, count);
          ReleaseFrames(start.value, count);
          return Err(PageMappingFailure);
        }
      }
      owners := Fill(owners, start.value, count, slot.value + 1);
      live := live[slot.value := Some(count)];
      r := Ok(start.value);
    }

    method MprotectPages(start: nat, count: nat, protection: nat) returns (ok: bool)
      requires Sized()
      modifies this
      ensures Sized() && (View(), ok) == Protect(old(View()), start, count, protection)
    {
      if !RangeOwned(View(), start, count) {
        return false;
      }
      if protection == PROT_NONE {
        UnmapPages(start, count);
        return true;
      }
      ok := RemapPages(start, count, protection);
    }

    method MmapUserAt(start: nat, count: nat, protection: nat) returns (ok: bool)
      requires Sized()
      modifies this
      ensures Sized() && (View(), ok) == MapAt(old(View()), start, count, protection)
    {
      if !ExactFragment(View(), start, count) {
        return false;
      }
      if protection == PROT_NONE {
        UnmapPages(start, count);
        return true;
      }
      ok := RemapPages(start, count, protection);
    }

    method MunmapPages(start: nat, count: nat) returns (ok: bool)
      requires Sized()
      modifies this
      ensures Sized() && (View(), ok) == Munmap(old(View()), start, count)
    {
      if !RangeOwned(View(), start, count) {
        return false;
      }
      var released := ReleaseRange(start, count);
      if !released {
        return false;
      }
      UnmapPages(start, count);
      ReleaseFrames(start, count);
      ok := true;
    }
  }

  lemma RemapStep(w: Window, start: nat, count: nat, protection: nat)
    requires start + count <= |w.frames| == |w.entries|
    ensures Remap(w, start, count, protection) ==
              if count == 0 then (w, true)
              else if w.frames[start] == NO_FRAME || w.frames[start] >= MAX_FRAME then (w, false)
              else Remap(w.(entries := w.entries[start := Some(Entry(w.frames[start], ProtectionFlags(protection)))]), start + 1, count - 1, protection)
  {
  }

  lemma ReleaseStep(w: Window, start: nat, count: nat)
    requires start + count <= |w.frames|
    ensures Mmap.Release(w, start, count) == if count == 0 then w else Mmap.Release(ReleaseOne(w, start), start + 1, count - 1)
  {
  }

  /** Every tag so far names a live slot that has enough pages left. */
  predicate RunReleasable(w: Window, start: nat, page: nat)
    requires start <= page <= |w.owners|
  {
    forall p :: start <= p < page ==>
      && w.owners[p] != 0 && w.owners[p] - 1 < |w.live| && w.live[w.owners[p] - 1].Some?
      && Released(w.owners[start..page], w.owners[p]) <= w.live[w.owners[p] - 1].value
  }

  lemma RunStart(w: Window, start: nat)
    requires start <= |w.owners|
    ensures RunReleasable(w, start, start)
  {
  }

  lemma RunWhole(w: Window, start: nat, count: nat)
    requires start + count <= |w.owners| && count != 0
    ensures RunReleasable(w, start, start + count) <==> Releasable(w, start, count)
  {
  }

  /** One more page keeps the run releasable exactly if its own slot can give it up. */
  lemma RunMore(w: Window, start: nat, page: nat)
    requires start <= page < |w.owners| && RunReleasable(w, start, page)
    ensures var owner := w.owners[page];
            RunReleasable(w, start, page + 1) <==>
              && owner != 0 && owner - 1 < |w.live| && w.live[owner - 1].Some?
              && Released(w.owners[start..page], owner) + 1 <= w.live[owner - 1].value
  {
    OneMore(w.owners, start, page);
  }

  lemma RunFails(w: Window, start: nat, page: nat, end: nat)
    requires start <= page < end <= |w.owners| && !RunReleasable(w, start, page + 1) && start < end
    ensures !Releasable(w, start, end - start)
  {
    if RunReleasable(w, start, end) {
      forall p | start <= p < page + 1
        ensures Released(w.owners[start..page + 1], w.owners[p]) <= Released(w.owners[start..end], w.owners[p])
      {
        MoreLater(w.owners, start, page + 1, end, w.owners[p]);
      }
    }
    RunWhole(w, start, end - start);
  }

  lemma OneMore(owners: seq<nat>, start: nat, page: nat)
    requires start <= page < |owners|
    ensures forall tag: nat :: Released(owners[start..page + 1], tag) == Released(owners[start..page], tag) + if tag == owners[page] then 1 else 0
  {
    assert owners[start..page + 1] == owners[start..page] + [owners[page]];
    forall tag: nat
      ensures Released(owners[start..page + 1], tag) == Released(owners[start..page], tag) + if tag == owners[page] then 1 else 0
    {
      Appended(owners[start..page], owners[page], tag);
    }
  }

  lemma MoreLater(owners: seq<nat>, start: nat, page: nat, end: nat, tag: nat)
    requires start <= page <= end <= |owners|
    ensures Released(owners[start..page], tag) <= Released(owners[start..end], tag)
  {
    assert owners[start..end] == owners[start..page] + owners[page..end];
    TotalAppend(IsW(tag), owners[start..page], owners[page..end]);
  }
}
