/** Range checks and run searches of the mmap window, as the loops compute them. */
module MmapRanges {
  import opened Prelude
  import opened Counts
  import opened PageAllocator
  import opened Mmap

  // ----- Free runs -----

  /** One pass over the owners with a running count. */
  method FindStartPage(owners: seq<nat>, count: nat) returns (r: Option<nat>)
    requires 0 < count <= |owners|
    ensures r == LowestRun(owners, count, 0)
  {
    var runStart, runLength := 0, 0;
    for page := 0 to |owners|
      invariant runLength < count && runLength <= page && (runLength > 0 ==> runStart == page - runLength)
      invariant forall k :: page - runLength <= k < page ==> owners[k] == 0
      invariant page > runLength ==> owners[page - runLength - 1] != 0
      invariant forall s: nat :: s + count <= page ==> !FreeRun(owners, s, count)
    {
      if owners[page] == 0 {
        if runLength == 0 {
          runStart := page;
        }
        runLength := runLength + 1;
        if runLength == count {
          LowestIs(owners, count, runStart);
          return Some(runStart);
        }
      } else {
        forall s: nat | s + count == page + 1
          ensures !FreeRun(owners, s, count)
        {
          assert s <= page < s + count;
        }
        runLength := 0;
      }
    }
    r := None;
  }

  lemma LowestIs(owners: seq<nat>, count: nat, start: nat)
    requires FreeRun(owners, start, count) && forall s: nat :: s < start ==> !FreeRun(owners, s, count)
    ensures LowestRun(owners, count, 0) == Some(start)
  {
  }

  /** The diagnostics: how many pages are free and how long the longest run is. The
      search fails exactly for the requests longer than that. */
  method Diagnose(owners: seq<nat>) returns (freePages: nat, largest: nat)
    ensures freePages == Total(IsW(0), owners)
    ensures largest <= |owners| && exists s: nat :: FreeRun(owners, s, largest)
    ensures forall count: nat :: count > 0 ==> (LowestRun(owners, count, 0).None? <==> largest < count)
  {
    freePages, largest := 0, 0;
    var current := 0;
    ghost var best: nat := 0;
    for page := 0 to |owners|
      invariant freePages == Total(IsW(0), owners[..page])
      invariant current <= largest <= page && current <= page
      invariant forall k :: page - current <= k < page ==> owners[k] == 0
      invariant page > current ==> owners[page - current - 1] != 0
      invariant best + largest <= page && FreeRun(owners, best, largest)
      invariant forall s: nat, c: nat :: s + c <= page && FreeRun(owners, s, c) ==> c <= largest
    {
      TotalTake(IsW(0), owners, page + 1);
      if owners[page] == 0 {
        freePages := freePages + 1;
        current := current + 1;
        if current > largest {
          largest := current;
          best := page + 1 - current;
        }
        forall s: nat, c: nat | s + c == page + 1 && FreeRun(owners, s, c)
          ensures c <= current
        {
          RunBound(owners, page, current, s, c);
        }
      } else {
        current := 0;
        forall s: nat, c: nat | s + c == page + 1 && FreeRun(owners, s, c)
          ensures c == 0
        {
          assert c > 0 ==> s <= page < s + c;
        }
      }
    }
    assert owners[..|owners|] == owners;
    forall count: nat | count > 0
      ensures LowestRun(owners, count, 0).None? <==> largest < count
    {
      var found := LowestRun(owners, count, 0);
      assert found.Some? ==> FreeRun(owners, found.value, count);
      assert count <= largest ==> FreeRun(owners, best, count);
    }
  }

  /** A run that ends here is no longer than the distance to the last owned page. */
  lemma RunBound(owners: seq<nat>, page: nat, current: nat, s: nat, c: nat)
    requires page < |owners| && current <= page + 1 && (page + 1 > current ==> owners[page - current] != 0)
    requires s + c == page + 1 && FreeRun(owners, s, c)
    ensures c <= current
  {
  }

  // ----- Mapped ranges -----

  predicate Has(entries: seq<Option<Entry>>, page: nat, required: set<Flag>) {
    page < |entries| && entries[page].Some? && required <= entries[page].value.flags
  }

  predicate ByteHas(entries: seq<Option<Entry>>, base: nat, b: nat, required: set<Flag>) {
    base <= b && Has(entries, (b - base) / PAGE_SIZE, required)
  }

  /** The plain meaning: every byte of the range lies in a page with the required flags. */
  predicate AllBytes(entries: seq<Option<Entry>>, base: nat, address: nat, length: nat, required: set<Flag>) {
    base <= address && forall b :: address <= b < address + length ==> ByteHas(entries, base, b, required)
  }

  predicate AllPages(entries: seq<Option<Entry>>, first: nat, last: nat, required: set<Flag>) {
    forall page :: first <= page <= last ==> Has(entries, page, required)
  }

  lemma PagesTouched(entries: seq<Option<Entry>>, base: nat, address: nat, length: nat, required: set<Flag>)
    requires base <= address && length > 0
    ensures AllPages(entries, (address - base) / PAGE_SIZE, (address + length - 1 - base) / PAGE_SIZE, required) <==> AllBytes(entries, base, address, length, required)
  {
    var first, last := (address - base) / PAGE_SIZE, (address + length - 1 - base) / PAGE_SIZE;
    if AllBytes(entries, base, address, length, required) {
      forall page | first <= page <= last
        ensures Has(entries, page, required)
      {
        var b := if page == first then address else base + page * PAGE_SIZE;
        assert (b - base) / PAGE_SIZE == page;
        assert address <= b < address + length;
        assert ByteHas(entries, base, b, required);
      }
    }
    if AllPages(entries, first, last, required) {
      forall b | address <= b < address + length
        ensures ByteHas(entries, base, b, required)
      {
        assert first <= (b - base) / PAGE_SIZE <= last;
      }
    }
  }

  method MappedRange(table: seq<Option<Entry>>, base: nat, limit: nat, address: nat, length: nat, required: set<Flag>) returns (ok: bool)
    ensures ok <==> length > 0 && address + length <= U64_MAX && address + length <= limit && AllBytes(table, base, address, length, required)
  {
    if length == 0 || address < base || address + length > U64_MAX || address + length > limit {
      return false;
    }
    PagesTouched(table, base, address, length, required);
    var first, last := (address - base) / PAGE_SIZE, (address + length - 1 - base) / PAGE_SIZE;
    var page := first;
    while page <= last
      invariant first <= page <= last + 1
      invariant forall q :: first <= q < page ==> Has(table, q, required)
      decreases last + 1 - page
    {
      if !Has(table, page, required) {
        return false;
      }
      page := page + 1;
    }
    ok := true;
  }

  function TableOf(entries: seq<Option<Entry>>, t: nat): seq<Option<Entry>>
    requires (t + 1) * PAGE_TABLE_ENTRIES <= |entries|
  {
    entries[t * PAGE_TABLE_ENTRIES..(t + 1) * PAGE_TABLE_ENTRIES]
  }

  /** Every page has its own place in one table. */
  lemma PageLocation(page: nat)
    ensures page / PAGE_TABLE_ENTRIES * PAGE_TABLE_ENTRIES + page % PAGE_TABLE_ENTRIES == page && page % PAGE_TABLE_ENTRIES < PAGE_TABLE_ENTRIES
  {
  }

  /** One table's part of a page range, checked through that table alone. */
  lemma PartMeans(entries: seq<Option<Entry>>, t: nat, page: nat, end: nat, required: set<Flag>, base: nat)
    requires (t + 1) * PAGE_TABLE_ENTRIES <= |entries| && t * PAGE_TABLE_ENTRIES <= page < end <= (t + 1) * PAGE_TABLE_ENTRIES
    ensures var tableBase := base + t * PAGE_TABLE_ENTRIES * PAGE_SIZE;
            var part := tableBase + (page - t * PAGE_TABLE_ENTRIES) * PAGE_SIZE;
            AllBytes(TableOf(entries, t), tableBase, part, (end - page) * PAGE_SIZE, required) <==> AllPages(entries, page, end - 1, required)
  {
    var table := TableOf(entries, t);
    var tableBase := base + t * PAGE_TABLE_ENTRIES * PAGE_SIZE;
    var local := page - t * PAGE_TABLE_ENTRIES;
    var part := tableBase + local * PAGE_SIZE;
    var count := end - page;
    PagesTouched(table, tableBase, part, count * PAGE_SIZE, required);
    assert (part - tableBase) / PAGE_SIZE == local;
    assert (part + count * PAGE_SIZE - 1 - tableBase) / PAGE_SIZE == local + count - 1 by {
      assert part + count * PAGE_SIZE - 1 - tableBase == (local + count - 1) * PAGE_SIZE + (PAGE_SIZE - 1);
    }
    assert forall q :: page <= q < end ==> (Has(entries, q, required) <==> Has(table, q - t * PAGE_TABLE_ENTRIES, required));
    if AllPages(table, local, local + count - 1, required) {
      forall q | page <= q <= end - 1
        ensures Has(entries, q, required)
      {
        assert Has(table, q - t * PAGE_TABLE_ENTRIES, required);
      }
    }
    if AllPages(entries, page, end - 1, required) {
      forall k | local <= k <= local + count - 1
        ensures Has(table, k, required)
      {
        assert Has(entries, k + t * PAGE_TABLE_ENTRIES, required);
      }
    }
  }

  /** The check that goes table by table decides exactly the plain meaning. */
  method MappedMmapRange(entries: seq<Option<Entry>>, tables: nat, base: nat, address: nat, length: nat, required: set<Flag>) returns (ok: bool)
    requires |entries| == tables * PAGE_TABLE_ENTRIES && base + |entries| * PAGE_SIZE <= U64_MAX
    ensures ok <==> length > 0 && address + length <= base + |entries| * PAGE_SIZE && AllBytes(entries, base, address, length, required)
  {
    if length == 0 || address < base || address + length > U64_MAX || address + length > base + |entries| * PAGE_SIZE {
      return false;
    }
    PagesTouched(entries, base, address, length, required);
    var first, last := (address - base) / PAGE_SIZE, (address + length - 1 - base) / PAGE_SIZE;
    assert last < |entries|;
    var page := first;
    while page <= last
      invariant first <= page <= last + 1
      invariant forall q :: first <= q < page ==> Has(entries, q, required)
      decreases last + 1 - page
    {
      var t := page / PAGE_TABLE_ENTRIES;
      var full := (t + 1) * PAGE_TABLE_ENTRIES;
      var end := if full < last + 1 then full else last + 1;
      PageLocation(page);
      InTable(page, tables);
      PartMeans(entries, t, page, end, required, base);
      var tableBase := base + t * PAGE_TABLE_ENTRIES * PAGE_SIZE;
      var part := tableBase + page % PAGE_TABLE_ENTRIES * PAGE_SIZE;
      PartFits(page, end, t, tables, base);
      var here := MappedRange(TableOf(entries, t), tableBase, tableBase + PAGE_TABLE_ENTRIES * PAGE_SIZE, part, (end - page) * PAGE_SIZE, required);
      if !here {
        return false;
      }
      page := end;
    }
    ok := true;
  }

  lemma InTable(page: nat, tables: nat)
    requires page < tables * PAGE_TABLE_ENTRIES
    ensures page / PAGE_TABLE_ENTRIES < tables && (page / PAGE_TABLE_ENTRIES + 1) * PAGE_TABLE_ENTRIES <= tables * PAGE_TABLE_ENTRIES
  {
  }

  lemma PartFits(page: nat, end: nat, t: nat, tables: nat, base: nat)
    requires t == page / PAGE_TABLE_ENTRIES && t < tables && page < end <= (t + 1) * PAGE_TABLE_ENTRIES
    requires base + tables * PAGE_TABLE_ENTRIES * PAGE_SIZE <= U64_MAX
    ensures var tableBase := base + t * PAGE_TABLE_ENTRIES * PAGE_SIZE;
            var part := tableBase + page % PAGE_TABLE_ENTRIES * PAGE_SIZE;
            part + (end - page) * PAGE_SIZE <= tableBase + PAGE_TABLE_ENTRIES * PAGE_SIZE <= U64_MAX
  {
    PageLocation(page);
    assert page % PAGE_TABLE_ENTRIES + (end - page) <= PAGE_TABLE_ENTRIES;
    assert (t + 1) * PAGE_TABLE_ENTRIES <= tables * PAGE_TABLE_ENTRIES;
  }
}
