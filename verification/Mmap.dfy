/** The anonymous-memory window of the init process: page owners, reservations, the
    frame pool and the page-table entries. */
module Mmap {
  import opened Prelude
  import opened Counts
  import opened PageAllocator

  const PAGE_TABLE_ENTRIES: nat := 512
  /** Physical addresses are 52 bits wide. */
  const MAX_FRAME: nat := 0x100_0000_0000
  const NO_FRAME: nat := 0
  const PROT_NONE: nat := 0
  const PROT_READ: nat := 1

  datatype Flag = Present | Writable | User | NoExecute

  datatype Entry = Entry(frame: nat, flags: set<Flag>)

  /** `frames[p]` is the frame of page `p`, 0 for none; `owners[p]` is the
      reservation slot of page `p` plus one, 0 for none; `free` is a stack. */
  datatype Window = Window(
    frames: seq<nat>,
    free: seq<nat>,
    owners: seq<nat>,
    live: seq<Option<nat>>,
    entries: seq<Option<Entry>>,
    mem: map<nat, seq<Byte>>)

  function ZeroPage(): (r: seq<Byte>)
    ensures |r| == PAGE_SIZE
  {
    seq(PAGE_SIZE, _ => 0)
  }

  function ProtectionFlags(protection: nat): set<Flag> {
    {User}
    + (if protection != PROT_NONE then {Present} else {})
    + (if protection / 2 % 2 == 1 then {Writable} else {})
    + (if protection / 4 % 2 == 0 then {NoExecute} else {})
  }

  // ----- Free runs -----

  predicate FreeRun(owners: seq<nat>, start: nat, count: nat) {
    start + count <= |owners| && forall k :: start <= k < start + count ==> owners[k] == 0
  }

  function LowestRun(owners: seq<nat>, count: nat, from: nat): (r: Option<nat>)
    ensures r.Some? ==> FreeRun(owners, r.value, count) && forall s: nat :: from <= s < r.value ==> !FreeRun(owners, s, count)
    ensures r.None? ==> forall s: nat :: from <= s ==> !FreeRun(owners, s, count)
    decreases |owners| + 1 - from
  {
    if from + count > |owners| then None
    else if FreeRun(owners, from, count) then Some(from)
    else if from == |owners| then None
    else LowestRun(owners, count, from + 1)
  }

  // ----- Frames -----

  /** Pop a frame, clear it and give it to a page. */
  function AssignOne(w: Window, page: nat): Window
    requires page < |w.frames| && w.free != []
  {
    var f := w.free[|w.free| - 1];
    w.(frames := w.frames[page := f], free := w.free[..|w.free| - 1], mem := w.mem[f := ZeroPage()])
  }

  function Assign(w: Window, start: nat, count: nat): (r: Window)
    requires start + count <= |w.frames| && count <= |w.free|
    ensures |r.frames| == |w.frames| && r.owners == w.owners && r.live == w.live && r.entries == w.entries && |r.free| == |w.free| - count
    decreases count
  {
    if count == 0 then w else Assign(AssignOne(w, start), start + 1, count - 1)
  }

  function ReleaseOne(w: Window, page: nat): Window
    requires page < |w.frames|
  {
    var f := w.frames[page];
    w.(frames := w.frames[page := NO_FRAME], free := if f != NO_FRAME then w.free + [f] else w.free)
  }

  function Release(w: Window, start: nat, count: nat): (r: Window)
    requires start + count <= |w.frames|
    ensures |r.frames| == |w.frames| && r.owners == w.owners && r.live == w.live && r.entries == w.entries && r.mem == w.mem
    decreases count
  {
    if count == 0 then w else Release(ReleaseOne(w, start), start + 1, count - 1)
  }

  // ----- Entries -----

  function Unmap(w: Window, start: nat, count: nat): (r: Window)
    ensures |r.entries| == |w.entries|
    ensures forall p :: 0 <= p < |w.entries| ==> r.entries[p] == if start <= p < start + count then None else w.entries[p]
    ensures r == w.(entries := r.entries)
  {
    w.(entries := seq(|w.entries|, p requires 0 <= p < |w.entries| => if start <= p < start + count then None else w.entries[p]))
  }

  /** Map page by page; a page without a usable frame stops the pass. */
  function Remap(w: Window, start: nat, count: nat, protection: nat): (r: (Window, bool))
    requires start + count <= |w.frames| == |w.entries|
    ensures |r.0.entries| == |w.entries| && r.0 == w.(entries := r.0.entries)
    ensures r.1 <==> forall p :: start <= p < start + count ==> w.frames[p] != NO_FRAME && w.frames[p] < MAX_FRAME
    ensures forall p :: 0 <= p < |w.entries| && !(start <= p < start + count) ==> r.0.entries[p] == w.entries[p]
    ensures r.1 ==> forall p :: start <= p < start + count ==> r.0.entries[p] == Some(Entry(w.frames[p], ProtectionFlags(protection)))
    ensures forall p :: 0 <= p < |w.entries| && r.0.entries[p] != w.entries[p] ==>
              r.0.entries[p] == Some(Entry(w.frames[p], ProtectionFlags(protection))) && w.frames[p] != NO_FRAME
    decreases count
  {
    if count == 0 then (w, true)
    else if w.frames[start] == NO_FRAME || w.frames[start] >= MAX_FRAME then (w, false)
    else Remap(w.(entries := w.entries[start := Some(Entry(w.frames[start], ProtectionFlags(protection)))]), start + 1, count - 1, protection)
  }

  // ----- Reservations -----

  function Repeat(count: nat, v: nat): (r: seq<nat>)
    ensures |r| == count && forall k :: 0 <= k < count ==> r[k] == v
  {
    seq(count, _ => v)
  }

  function Fill(s: seq<nat>, start: nat, count: nat, v: nat): (r: seq<nat>)
    requires start + count <= |s|
    ensures |r| == |s| && forall p :: 0 <= p < |s| ==> r[p] == if start <= p < start + count then v else s[p]
  {
    s[..start] + Repeat(count, v) + s[start + count..]
  }

  predicate RangeOwned(w: Window, start: nat, count: nat) {
    && count != 0 && start + count <= |w.owners|
    && forall p :: start <= p < start + count ==>
         w.owners[p] != 0 && w.owners[p] - 1 < |w.live| && w.live[w.owners[p] - 1].Some? && w.live[w.owners[p] - 1].value != 0
  }

  /** The range is one whole run of a single reservation. */
  predicate ExactFragment(w: Window, start: nat, count: nat) {
    && count != 0 && start + count <= |w.owners|
    && var owner := w.owners[start];
       && owner != 0 && owner - 1 < |w.live| && w.live[owner - 1].Some? && w.live[owner - 1].value != 0
       && (forall p :: start <= p < start + count ==> w.owners[p] == owner)
       && (start > 0 ==> w.owners[start - 1] != owner)
       && (start + count < |w.owners| ==> w.owners[start + count] != owner)
  }

  function Released(owners: seq<nat>, tag: nat): nat {
    Total(IsW(tag), owners)
  }

  function LessLive(live: seq<Option<nat>>, gone: seq<nat>): (r: seq<Option<nat>>)
    ensures |r| == |live|
    ensures forall s :: 0 <= s < |live| ==>
              r[s] == if live[s].None? || Released(gone, s + 1) == 0 then live[s]
                      else if Released(gone, s + 1) >= live[s].value then None
                      else Some(live[s].value - Released(gone, s + 1))
  {
    seq(|live|, s requires 0 <= s < |live| =>
      if live[s].None? || Released(gone, s + 1) == 0 then live[s]
      else if Released(gone, s + 1) >= live[s].value then None
      else Some(live[s].value - Released(gone, s + 1)))
  }

  /** Every page of the range is tagged with a live slot that has that many pages left. */
  predicate Releasable(w: Window, start: nat, count: nat) {
    && count != 0 && start + count <= |w.owners|
    && forall p :: start <= p < start + count ==>
         && w.owners[p] != 0 && w.owners[p] - 1 < |w.live| && w.live[w.owners[p] - 1].Some?
         && Released(w.owners[start..start + count], w.owners[p]) <= w.live[w.owners[p] - 1].value
  }

  function ReleaseOwners(w: Window, start: nat, count: nat): Window
    requires start + count <= |w.owners|
  {
    w.(owners := Fill(w.owners, start, count, 0), live := LessLive(w.live, w.owners[start..start + count]))
  }

  // ----- Calls -----

  datatype MmapFailure = InvalidRequest | ReservationTableFull | NoContiguousRange | PageMappingFailure | PhysicalMemoryExhausted

  predicate ValidRequest(w: Window, length: nat, protection: nat) {
    length != 0 && length % PAGE_SIZE == 0 && protection <= 7 && length <= |w.frames| * PAGE_SIZE
  }

  /** The start page of the new mapping. */
  function Map(w: Window, length: nat, protection: nat): (Window, Result<nat, MmapFailure>)
    requires |w.frames| == |w.owners| == |w.entries|
  {
    if !ValidRequest(w, length, protection) then (w, Err(InvalidRequest))
    else
      var count := length / PAGE_SIZE;
      match FirstNone(w.live)
      case None => (w, Err(ReservationTableFull))
      case Some(slot) =>
        match LowestRun(w.owners, count, 0)
        case None => (w, Err(NoContiguousRange))
        case Some(start) =>
          if |w.free| < count then (w, Err(PhysicalMemoryExhausted))
          else
            var w1 := Assign(w, start, count);
            var (w2, ok) := if protection == PROT_NONE then (w1, true) else Remap(w1, start, count, protection);
            if !ok then (Release(Unmap(w2, start, count), start, count), Err(PageMappingFailure))
            else (w2.(owners := Fill(w2.owners, start, count, slot + 1), live := w2.live[slot := Some(count)]), Ok(start))
  }

  function Protect(w: Window, start: nat, count: nat, protection: nat): (Window, bool)
    requires |w.frames| == |w.owners| == |w.entries|
  {
    if !RangeOwned(w, start, count) then (w, false)
    else if protection == PROT_NONE then (Unmap(w, start, count), true)
    else Remap(w, start, count, protection)
  }

  /** Commit or decommit a whole reserved fragment in place. */
  function MapAt(w: Window, start: nat, count: nat, protection: nat): (Window, bool)
    requires |w.frames| == |w.owners| == |w.entries|
  {
    if !ExactFragment(w, start, count) then (w, false)
    else if protection == PROT_NONE then (Unmap(w, start, count), true)
    else Remap(w, start, count, protection)
  }

  function Munmap(w: Window, start: nat, count: nat): (Window, bool)
    requires |w.frames| == |w.owners| == |w.entries|
  {
    if !RangeOwned(w, start, count) || !Releasable(w, start, count) then (w, false)
    else (Release(Unmap(ReleaseOwners(w, start, count), start, count), start, count), true)
  }

  /** Page `p` is mapped for user code with at least the flags named. */
  predicate Mapped(w: Window, p: nat, flags: set<Flag>) {
    p < |w.entries| && w.entries[p].Some? && {Present, User} + flags <= w.entries[p].value.flags && w.entries[p].value.frame in w.mem
  }

  /** What a user load from page `p` sees. */
  function ReadPage(w: Window, p: nat): Option<seq<Byte>> {
    if Mapped(w, p, {}) then Some(w.mem[w.entries[p].value.frame]) else None
  }

  function StorePage(w: Window, p: nat, content: seq<Byte>): Window {
    if Mapped(w, p, {Writable}) && |content| == PAGE_SIZE then w.(mem := w.mem[w.entries[p].value.frame := content]) else w
  }

  /** What an instruction fetch from page `p` sees. */
  function FetchPage(w: Window, p: nat): Option<seq<Byte>> {
    if Mapped(w, p, {}) && NoExecute !in w.entries[p].value.flags then ReadPage(w, p) else None
  }
}
