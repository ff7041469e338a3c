/** The address space of an isolated child: its own five tables and its own pages. */
module ChildSpace {
  import opened Prelude
  import opened Elf
  import opened ImageLoad
  import opened ImageSpace
  import M = Mmap

  const TABLE_ENTRIES: nat := 512
  const USER_PML4_INDEX: nat := 128
  const USER_PDPT_INDEX: nat := 0
  const IMAGE_PD_INDEX: nat := 0
  const STACK_PD_INDEX: nat := 256
  const CHILD_IMAGE_PAGES: nat := 256
  const CHILD_STACK_PAGES: nat := 16
  const FIRST_STACK_ENTRY: nat := TABLE_ENTRIES - CHILD_STACK_PAGES
  const CHILD_IMAGE_LIMIT: nat := USER_IMAGE_BASE + CHILD_IMAGE_PAGES * PAGE_SIZE

  type Table = seq<Option<M.Entry>>

  const HIERARCHY: set<M.Flag> := {M.Present, M.Writable, M.User}
  const STACK_FLAGS: set<M.Flag> := {M.Present, M.Writable, M.User, M.NoExecute}

  /** Where the child's storage lies in physical memory. */
  datatype Layout = Layout(pdpt: nat, pd: nat, imagePt: nat, stackPt: nat, image: seq<nat>, stack: seq<nat>)

  predicate LayoutOk(l: Layout) {
    && |l.image| == CHILD_IMAGE_PAGES && |l.stack| == CHILD_STACK_PAGES
    && l.pdpt != l.pd && l.pdpt != l.imagePt && l.pdpt != l.stackPt && l.pd != l.imagePt && l.pd != l.stackPt && l.imagePt != l.stackPt
  }

  datatype Child = Child(pml4: Table, pdpt: Table, pd: Table, imagePt: Table, stackPt: Table, imagePages: seq<seq<Byte>>)

  function EmptyTable(): (r: Table)
    ensures |r| == TABLE_ENTRIES && forall i :: 0 <= i < |r| ==> r[i].None?
  {
    seq(TABLE_ENTRIES, _ => None)
  }

  /** A kernel entry as the child gets it: not for user mode. */
  function Stripped(e: Option<M.Entry>): Option<M.Entry> {
    if e.None? then None else Some(e.value.(flags := e.value.flags - {M.User}))
  }

  /** Clearing the flag left nothing of the entry. */
  predicate Vanishes(e: Option<M.Entry>) {
    e.Some? && e.value.frame == 0 && e.value.flags <= {M.User}
  }

  predicate ChildPlanOk(segments: seq<Segment>) {
    forall k :: 0 <= k < |segments| ==> segments[k].vaddr + segments[k].memorySize <= CHILD_IMAGE_LIMIT
  }

  lemma ChildPage(size: nat, s: Segment, r: nat)
    requires SegmentOk(size, s) && s.vaddr + s.memorySize <= CHILD_IMAGE_LIMIT && r < PageCount(s)
    ensures PageOf(s, r) < CHILD_IMAGE_PAGES
  {
    PagesBelow(s, CHILD_IMAGE_LIMIT, r);
  }

  // ----- The finished tables -----

  predicate UpperTables(c: Child, l: Layout, kernel: Table) {
    && |c.pml4| == |c.pdpt| == |c.pd| == |c.stackPt| == |kernel| == TABLE_ENTRIES && |l.stack| == CHILD_STACK_PAGES
    && (forall i :: 0 <= i < TABLE_ENTRIES ==> c.pml4[i] == if i == USER_PML4_INDEX then Some(M.Entry(l.pdpt, HIERARCHY)) else Stripped(kernel[i]))
    && (forall i :: 0 <= i < TABLE_ENTRIES ==> c.pdpt[i] == if i == USER_PDPT_INDEX then Some(M.Entry(l.pd, HIERARCHY)) else None)
    && (forall i :: 0 <= i < TABLE_ENTRIES ==>
          c.pd[i] == if i == IMAGE_PD_INDEX then Some(M.Entry(l.imagePt, HIERARCHY))
                     else if i == STACK_PD_INDEX then Some(M.Entry(l.stackPt, HIERARCHY))
                     else None)
    && (forall i :: 0 <= i < TABLE_ENTRIES ==>
          c.stackPt[i] == if i >= FIRST_STACK_ENTRY then Some(M.Entry(l.stack[i - FIRST_STACK_ENTRY], STACK_FLAGS)) else None)
  }

  predicate ChildPageLoaded(c: Child, l: Layout, bytes: seq<Byte>, s: Segment, r: nat)
    requires s.vaddr >= USER_IMAGE_BASE && s.fileOffset + s.fileSize <= |bytes|
  {
    var p := PageOf(s, r);
    && p < CHILD_IMAGE_PAGES && |c.imagePt| == TABLE_ENTRIES && |c.imagePages| == |l.image| == CHILD_IMAGE_PAGES
    && c.imagePt[p] == Some(M.Entry(l.image[p], FlagsOf(s))) && c.imagePages[p] == Expected(bytes, s, r)
  }

  /** Exactly the pages of the first `n` segments are mapped, each onto its own page. */
  predicate ImageTable(c: Child, l: Layout, bytes: seq<Byte>, segments: seq<Segment>, n: nat)
    requires n <= |segments| && SegmentsOk(|bytes|, segments)
  {
    && |c.imagePt| == TABLE_ENTRIES && |c.imagePages| == |l.image| == CHILD_IMAGE_PAGES
    && (forall k, r :: 0 <= k < n && 0 <= r < PageCount(segments[k]) ==> ChildPageLoaded(c, l, bytes, segments[k], r))
    && (forall p :: 0 <= p < TABLE_ENTRIES && c.imagePt[p].Some? ==>
          p < CHILD_IMAGE_PAGES && c.imagePt[p].value.frame == l.image[p] && exists k :: 0 <= k < n && InSegment(segments[k], p))
  }

  // ----- Confinement -----

  /** Follow one entry in user mode. */
  function UserStep(t: Table, i: nat): Option<M.Entry> {
    if i < |t| && t[i].Some? && M.Present in t[i].value.flags && M.User in t[i].value.flags then t[i] else None
  }

  /** The table at a frame: one of the child's own, or anything at all elsewhere. */
  function TableAt(c: Child, l: Layout, foreign: map<nat, Table>, frame: nat): Table {
    if frame == l.pdpt then c.pdpt
    else if frame == l.pd then c.pd
    else if frame == l.imagePt then c.imagePt
    else if frame == l.stackPt then c.stackPt
    else if frame in foreign then foreign[frame]
    else []
  }

  /** A user-mode translation through four levels. */
  function UserWalk(c: Child, l: Layout, foreign: map<nat, Table>, i4: nat, i3: nat, i2: nat, i1: nat): Option<M.Entry> {
    match UserStep(c.pml4, i4)
    case None => None
    case Some(e4) =>
      match UserStep(TableAt(c, l, foreign, e4.frame), i3)
      case None => None
      case Some(e3) =>
        match UserStep(TableAt(c, l, foreign, e3.frame), i2)
        case None => None
        case Some(e2) => UserStep(TableAt(c, l, foreign, e2.frame), i1)
  }

  /** Whatever the kernel's own tables contain, user-mode translations of the child
      reach its own image and stack pages and nothing else. */
  lemma ChildConfined(c: Child, l: Layout, kernel: Table, bytes: seq<Byte>, segments: seq<Segment>, foreign: map<nat, Table>, i4: nat, i3: nat, i2: nat, i1: nat)
    requires LayoutOk(l) && UpperTables(c, l, kernel) && SegmentsOk(|bytes|, segments) && ImageTable(c, l, bytes, segments, |segments|)
    requires UserWalk(c, l, foreign, i4, i3, i2, i1).Some?
    ensures i4 == USER_PML4_INDEX && i3 == USER_PDPT_INDEX
    ensures var e := UserWalk(c, l, foreign, i4, i3, i2, i1).value;
            || (i2 == IMAGE_PD_INDEX && i1 < CHILD_IMAGE_PAGES && e.frame == l.image[i1] && exists k :: 0 <= k < |segments| && InSegment(segments[k], i1))
            || (i2 == STACK_PD_INDEX && FIRST_STACK_ENTRY <= i1 < TABLE_ENTRIES && e == M.Entry(l.stack[i1 - FIRST_STACK_ENTRY], STACK_FLAGS))
  {
    hide ChildPageLoaded;
    assert M.User in c.pml4[i4].value.flags;
    assert TableAt(c, l, foreign, l.pdpt) == c.pdpt && TableAt(c, l, foreign, l.pd) == c.pd;
    assert TableAt(c, l, foreign, l.imagePt) == c.imagePt && TableAt(c, l, foreign, l.stackPt) == c.stackPt;
  }

  /** The child's image page reads as its segment's file bytes followed by zeros, under
      the segment's permissions. */
  lemma ChildReads(c: Child, l: Layout, bytes: seq<Byte>, segments: seq<Segment>, foreign: map<nat, Table>, kernel: Table, k: nat, r: nat)
    requires LayoutOk(l) && UpperTables(c, l, kernel) && SegmentsOk(|bytes|, segments) && ImageTable(c, l, bytes, segments, |segments|)
    requires k < |segments| && r < PageCount(segments[k])
    ensures var p := PageOf(segments[k], r);
            && p < CHILD_IMAGE_PAGES && |c.imagePages| == CHILD_IMAGE_PAGES
            && UserWalk(c, l, foreign, USER_PML4_INDEX, USER_PDPT_INDEX, IMAGE_PD_INDEX, p) == Some(M.Entry(l.image[p], FlagsOf(segments[k])))
            && c.imagePages[p] == Expected(bytes, segments[k], r)
  {
    hide Expected;
    assert ChildPageLoaded(c, l, bytes, segments[k], r);
    assert TableAt(c, l, foreign, l.pdpt) == c.pdpt && TableAt(c, l, foreign, l.pd) == c.pd && TableAt(c, l, foreign, l.imagePt) == c.imagePt;
  }

  /** Every level of the translation allows the access. */
  predicate UserMay(c: Child, l: Layout, foreign: map<nat, Table>, i4: nat, i3: nat, i2: nat, i1: nat, store: bool, fetch: bool) {
    && UserWalk(c, l, foreign, i4, i3, i2, i1).Some?
    && var e4 := UserStep(c.pml4, i4).value;
       var e3 := UserStep(TableAt(c, l, foreign, e4.frame), i3).value;
       var e2 := UserStep(TableAt(c, l, foreign, e3.frame), i2).value;
       var e1 := UserWalk(c, l, foreign, i4, i3, i2, i1).value;
       && (store ==> M.Writable in e4.flags && M.Writable in e3.flags && M.Writable in e2.flags && M.Writable in e1.flags)
       && (fetch ==> M.NoExecute !in e4.flags && M.NoExecute !in e3.flags && M.NoExecute !in e2.flags && M.NoExecute !in e1.flags)
  }

  /** The child may store to and fetch from an image page exactly as its segment's flags
      say, and may store to its sixteen stack pages but not run them. */
  lemma ChildPermissions(c: Child, l: Layout, bytes: seq<Byte>, segments: seq<Segment>, foreign: map<nat, Table>, kernel: Table, k: nat, r: nat, n: nat, store: bool, fetch: bool)
    requires LayoutOk(l) && UpperTables(c, l, kernel) && SegmentsOk(|bytes|, segments) && ImageTable(c, l, bytes, segments, |segments|)
    requires k < |segments| && r < PageCount(segments[k])
    ensures UserMay(c, l, foreign, USER_PML4_INDEX, USER_PDPT_INDEX, IMAGE_PD_INDEX, PageOf(segments[k], r), store, fetch) <==>
              (store ==> segments[k].flags / 2 % 2 == 1) && (fetch ==> segments[k].flags % 2 == 1)
    ensures UserMay(c, l, foreign, USER_PML4_INDEX, USER_PDPT_INDEX, STACK_PD_INDEX, n, store, fetch) <==> 496 <= n < 512 && !fetch
  {
    hide Expected;
    hide ImageTable;
    ChildReads(c, l, bytes, segments, foreign, kernel, k, r);
    assert TableAt(c, l, foreign, l.pdpt) == c.pdpt && TableAt(c, l, foreign, l.pd) == c.pd && TableAt(c, l, foreign, l.stackPt) == c.stackPt;
  }

  // ----- Building it -----

  predicate ClearTo(t: Table, n: nat) {
    n <= |t| && forall k :: 0 <= k < n ==> t[k].None?
  }

  lemma AllClear(t: Table)
    requires |t| == TABLE_ENTRIES && ClearTo(t, TABLE_ENTRIES)
    ensures t == EmptyTable()
  {
  }

  predicate Zeroed(pages: seq<seq<Byte>>) {
    forall k :: 0 <= k < |pages| ==> pages[k] == M.ZeroPage()
  }

  /** The pages outside the first `n` segments hold zeros. */
  predicate ZeroOutside(c: Child, segments: seq<Segment>, n: nat)
    requires n <= |segments| && forall k :: 0 <= k < |segments| ==> segments[k].vaddr >= USER_IMAGE_BASE
  {
    forall p :: 0 <= p < |c.imagePages| && (forall k :: 0 <= k < n ==> !InSegment(segments[k], p)) ==> c.imagePages[p] == M.ZeroPage()
  }

  /** The page after the file part of page `r` is copied over its start. */
  function Overlaid(bytes: seq<Byte>, s: Segment, r: nat, page: seq<Byte>): seq<Byte>
    requires s.fileOffset + s.fileSize <= |bytes| && |page| == PAGE_SIZE
  {
    var n, start := FileBytes(s, r), s.fileOffset + r * PAGE_SIZE;
    if n == 0 then page else bytes[start..start + n] + page[n..]
  }

  /** Over a zero page that gives the page its contents. */
  lemma OverZeros(bytes: seq<Byte>, s: Segment, r: nat)
    requires s.fileOffset + s.fileSize <= |bytes|
    ensures Overlaid(bytes, s, r, M.ZeroPage()) == Expected(bytes, s, r)
  {
    var filled := Overlaid(bytes, s, r, M.ZeroPage());
    assert forall j :: 0 <= j < PAGE_SIZE ==> filled[j] == Expected(bytes, s, r)[j];
  }

  class ChildStorage {
    const layout: Layout
    var pml4: Table
    var pdpt: Table
    var pd: Table
    var imagePt: Table
    var stackPt: Table
    var imagePages: seq<seq<Byte>>
    var stackPages: seq<seq<Byte>>

    /** The storage is a fixed number of tables and pages. */
    predicate Sized()
      reads this
    {
      && |pml4| == |pdpt| == |pd| == |imagePt| == |stackPt| == TABLE_ENTRIES
      && |imagePages| == CHILD_IMAGE_PAGES && |stackPages| == CHILD_STACK_PAGES
    }

    function View(): Child
      reads this
    {
      Child(pml4, pdpt, pd, imagePt, stackPt, imagePages)
    }

    constructor (l: Layout)
      ensures layout == l && Sized()
    {
      layout := l;
      pml4, pdpt, pd, imagePt, stackPt := EmptyTable(), EmptyTable(), EmptyTable(), EmptyTable(), EmptyTable();
      imagePages := seq(CHILD_IMAGE_PAGES, _ => M.ZeroPage());
      stackPages := seq(CHILD_STACK_PAGES, _ => M.ZeroPage());
    }

    /** Nothing of an earlier child is left: every table is empty, every page zero. */
    method Clear()
      requires Sized()
      modifies this
      ensures Sized()
      ensures pml4 == pdpt == pd == imagePt == stackPt == EmptyTable()
      ensures Zeroed(imagePages) && Zeroed(stackPages)
    {
      hide M.ZeroPage;
      hide EmptyTable;
      for i := 0 to TABLE_ENTRIES
        invariant Sized() && ClearTo(pml4, i) && ClearTo(pdpt, i) && ClearTo(pd, i) && ClearTo(imagePt, i) && ClearTo(stackPt, i)
      {
        pml4, pdpt, pd := pml4[i := None], pdpt[i := None], pd[i := None];
        imagePt, stackPt := imagePt[i := None], stackPt[i := None];
      }
      AllClear(pml4);
      AllClear(pdpt);
      AllClear(pd);
      AllClear(imagePt);
      AllClear(stackPt);
      for p := 0 to CHILD_IMAGE_PAGES
        invariant Sized() && pml4 == pdpt == pd == imagePt == stackPt == EmptyTable()
        invariant forall k :: 0 <= k < p ==> imagePages[k] == M.ZeroPage()
      {
        imagePages := imagePages[p := M.ZeroPage()];
      }
      for p := 0 to CHILD_STACK_PAGES
        invariant Sized() && pml4 == pdpt == pd == imagePt == stackPt == EmptyTable() && Zeroed(imagePages)
        invariant forall k :: 0 <= k < p ==> stackPages[k] == M.ZeroPage()
      {
        stackPages := stackPages[p := M.ZeroPage()];
      }
    }

    /** The kernel half without user access, the two image directories and the stack. */
    method MapUpper(kernel: Table) returns (ok: bool)
      requires LayoutOk(layout) && |kernel| == TABLE_ENTRIES && Sized()
      modifies this
      ensures Sized()
      ensures ok <==> forall i :: 0 <= i < TABLE_ENTRIES && i != USER_PML4_INDEX ==> !Vanishes(kernel[i])
      ensures ok ==> UpperTables(View(), layout, kernel) && imagePt == EmptyTable() && Zeroed(imagePages) && Zeroed(stackPages)
    {
      Clear();
      for i := 0 to TABLE_ENTRIES
        invariant Sized() && pdpt == pd == imagePt == stackPt == EmptyTable() && Zeroed(imagePages) && Zeroed(stackPages)
        invariant forall j :: 0 <= j < TABLE_ENTRIES ==> pml4[j] == if j < i && j != USER_PML4_INDEX then Stripped(kernel[j]) else None
        invariant forall j :: 0 <= j < i && j != USER_PML4_INDEX ==> !Vanishes(kernel[j])
      {
        if i != USER_PML4_INDEX && kernel[i].Some? {
          if Vanishes(kernel[i]) {
            return false;
          }
          pml4 := pml4[i := Stripped(kernel[i])];
        }
      }
      pml4 := pml4[USER_PML4_INDEX := Some(M.Entry(layout.pdpt, HIERARCHY))];
      pdpt := pdpt[USER_PDPT_INDEX := Some(M.Entry(layout.pd, HIERARCHY))];
      pd := pd[IMAGE_PD_INDEX := Some(M.Entry(layout.imagePt, HIERARCHY))];
      pd := pd[STACK_PD_INDEX := Some(M.Entry(layout.stackPt, HIERARCHY))];
      MapStack();
      ok := true;
    }

    method MapStack()
      requires LayoutOk(layout) && stackPt == EmptyTable()
      modifies this`stackPt
      ensures |stackPt| == TABLE_ENTRIES
      ensures forall i :: 0 <= i < TABLE_ENTRIES ==>
                stackPt[i] == if i >= FIRST_STACK_ENTRY then Some(M.Entry(layout.stack[i - FIRST_STACK_ENTRY], STACK_FLAGS)) else None
    {
      for i := 0 to CHILD_STACK_PAGES
        invariant |stackPt| == TABLE_ENTRIES
        invariant forall j :: 0 <= j < TABLE_ENTRIES ==>
                    stackPt[j] == if FIRST_STACK_ENTRY <= j < FIRST_STACK_ENTRY + i then Some(M.Entry(layout.stack[j - FIRST_STACK_ENTRY], STACK_FLAGS)) else None
      {
        stackPt := stackPt[FIRST_STACK_ENTRY + i := Some(M.Entry(layout.stack[i], STACK_FLAGS))];
      }
    }

    /** Copy the file bytes of page `r` over a cleared page and map it. */
    method CopyPage(bytes: seq<Byte>, s: Segment, r: nat)
      requires LayoutOk(layout) && s.vaddr >= USER_IMAGE_BASE && s.fileOffset + s.fileSize <= |bytes| && |imagePt| == TABLE_ENTRIES
      requires PageOf(s, r) < CHILD_IMAGE_PAGES == |imagePages| && imagePages[PageOf(s, r)] == M.ZeroPage()
      modifies this`imagePt, this`imagePages
      ensures imagePages == old(imagePages)[PageOf(s, r) := Expected(bytes, s, r)]
      ensures imagePt == old(imagePt)[PageOf(s, r) := Some(M.Entry(layout.image[PageOf(s, r)], FlagsOf(s)))]
    {
      hide Expected;
      hide Overlaid;
      hide M.ZeroPage;
      var p := PageOf(s, r);
      OverZeros(bytes, s, r);
      imagePages := imagePages[p := Overlaid(bytes, s, r, imagePages[p])];
      imagePt := imagePt[p := Some(M.Entry(layout.image[p], FlagsOf(s)))];
    }

    /** Copy a segment into the child's own pages. Its slots are empty, so no mapping
        is refused. */
    method CopySegment(bytes: seq<Byte>, s: Segment)
      requires LayoutOk(layout) && SegmentOk(|bytes|, s) && s.vaddr + s.memorySize <= CHILD_IMAGE_LIMIT
      requires |imagePt| == TABLE_ENTRIES && |imagePages| == CHILD_IMAGE_PAGES
      requires forall p :: 0 <= p < TABLE_ENTRIES && InSegment(s, p) ==> imagePt[p].None?
      requires forall p :: 0 <= p < CHILD_IMAGE_PAGES && InSegment(s, p) ==> imagePages[p] == M.ZeroPage()
      modifies this`imagePt, this`imagePages
      ensures |imagePt| == TABLE_ENTRIES && |imagePages| == CHILD_IMAGE_PAGES
      ensures forall r :: 0 <= r < PageCount(s) ==> ChildPageLoaded(View(), layout, bytes, s, r)
      ensures forall p :: 0 <= p < TABLE_ENTRIES && !InSegment(s, p) ==> imagePt[p] == old(imagePt)[p]
      ensures forall p :: 0 <= p < CHILD_IMAGE_PAGES && !InSegment(s, p) ==> imagePages[p] == old(imagePages)[p]
    {
      hide Expected;
      hide FileBytes;
      for r := 0 to PageCount(s)
        invariant |imagePt| == TABLE_ENTRIES && |imagePages| == CHILD_IMAGE_PAGES
        invariant forall q :: 0 <= q < r ==> ChildPageLoaded(View(), layout, bytes, s, q)
        invariant forall p :: 0 <= p < TABLE_ENTRIES && !InSegment(s, p) ==> imagePt[p] == old(imagePt)[p]
        invariant forall p :: 0 <= p < CHILD_IMAGE_PAGES && !(PageOf(s, 0) <= p < PageOf(s, 0) + r) ==> imagePages[p] == old(imagePages)[p]
      {
        ChildPage(|bytes|, s, r);
        var p := PageOf(s, r);
        ghost var before := View();
        CopyPage(bytes, s, r);
        forall q | 0 <= q < r
          ensures ChildPageLoaded(View(), layout, bytes, s, q)
        {
          assert ChildPageLoaded(before, layout, bytes, s, q);
        }
      }
    }

    /** Build the whole space for a parsed plan. A plan with aliased file pages, with a
        thread-local template or reaching past the child image is refused before
        anything is touched. */
    method Build(bytes: seq<Byte>, plan: Plan, kernel: Table) returns (ok: bool)
      requires LayoutOk(layout) && |kernel| == TABLE_ENTRIES && SegmentsOk(|bytes|, plan.segments) && Sized()
      modifies this
      ensures Sized()
      ensures ok <==>
                && NoAlias(plan.segments) && plan.tls.None? && ChildPlanOk(plan.segments)
                && forall i :: 0 <= i < TABLE_ENTRIES && i != USER_PML4_INDEX ==> !Vanishes(kernel[i])
      ensures ok ==> UpperTables(View(), layout, kernel) && ImageTable(View(), layout, bytes, plan.segments, |plan.segments|)
      ensures ok ==> ZeroOutside(View(), plan.segments, |plan.segments|) && Zeroed(stackPages)
    {
      hide ChildPageLoaded;
      hide NoAlias;
      RefusedPrefix(|bytes|, plan, |plan.segments|);
      assert plan.segments[..|plan.segments|] == plan.segments;
      if PlanRefused(|bytes|, plan, |plan.segments|).Some? || plan.tls.Some? || !ChildPlanOk(plan.segments) {
        return false;
      }
      var mapped := MapUpper(kernel);
      if !mapped {
        return false;
      }
      for k := 0 to |plan.segments|
        invariant UpperTables(View(), layout, kernel) && ImageTable(View(), layout, bytes, plan.segments, k)
        invariant Sized() && ZeroOutside(View(), plan.segments, k) && Zeroed(stackPages)
      {
        ghost var before := View();
        forall p | 0 <= p < TABLE_ENTRIES && InSegment(plan.segments[k], p)
          ensures imagePt[p].None? && (p < CHILD_IMAGE_PAGES ==> imagePages[p] == M.ZeroPage())
        {
          SlotEmpty(before, layout, bytes, plan.segments, k, p);
        }
        CopySegment(bytes, plan.segments[k]);
        MoreLoaded(before, View(), layout, bytes, plan.segments, k);
      }
      ok := true;
    }
  }

  lemma SlotEmpty(c: Child, l: Layout, bytes: seq<Byte>, segments: seq<Segment>, k: nat, p: nat)
    requires SegmentsOk(|bytes|, segments) && k < |segments| && ImageTable(c, l, bytes, segments, k)
    requires p < TABLE_ENTRIES && InSegment(segments[k], p)
    ensures c.imagePt[p].None? && forall j :: 0 <= j < k ==> !InSegment(segments[j], p)
  {
    hide ChildPageLoaded;
    forall j | 0 <= j < k
      ensures !InSegment(segments[j], p)
    {
      if InSegment(segments[j], p) {
        OtherSegment(|bytes|, segments, j, p - PageOf(segments[j], 0), k);
      }
    }
  }

  lemma MoreLoaded(c: Child, c': Child, l: Layout, bytes: seq<Byte>, segments: seq<Segment>, k: nat)
    requires SegmentsOk(|bytes|, segments) && k < |segments| && ImageTable(c, l, bytes, segments, k)
    requires |c'.imagePt| == TABLE_ENTRIES && |c'.imagePages| == CHILD_IMAGE_PAGES
    requires forall r :: 0 <= r < PageCount(segments[k]) ==> ChildPageLoaded(c', l, bytes, segments[k], r)
    requires forall p :: 0 <= p < TABLE_ENTRIES && !InSegment(segments[k], p) ==> c'.imagePt[p] == c.imagePt[p]
    requires forall p :: 0 <= p < CHILD_IMAGE_PAGES && !InSegment(segments[k], p) ==> c'.imagePages[p] == c.imagePages[p]
    ensures ImageTable(c', l, bytes, segments, k + 1)
  {
    forall j, r | 0 <= j < k + 1 && 0 <= r < PageCount(segments[j])
      ensures ChildPageLoaded(c', l, bytes, segments[j], r)
    {
      if j < k {
        assert ChildPageLoaded(c, l, bytes, segments[j], r);
        OtherSegment(|bytes|, segments, j, r, k);
      }
    }
    forall p | 0 <= p < TABLE_ENTRIES && c'.imagePt[p].Some?
      ensures p < CHILD_IMAGE_PAGES && c'.imagePt[p].value.frame == l.image[p] && exists j :: 0 <= j < k + 1 && InSegment(segments[j], p)
    {
      if InSegment(segments[k], p) {
        assert ChildPageLoaded(c', l, bytes, segments[k], p - PageOf(segments[k], 0));
      } else {
        var j :| 0 <= j < k && InSegment(segments[j], p);
      }
    }
  }

  lemma OtherSegment(size: nat, segments: seq<Segment>, j: nat, r: nat, k: nat)
    requires SegmentsOk(size, segments) && j < k < |segments| && r < PageCount(segments[j])
    ensures !InSegment(segments[k], PageOf(segments[j], r))
  {
    var a, b := segments[j], segments[k];
    assert !Overlap(a, b);
    var p := PageOf(a, r);
    if InSegment(b, p) {
      PagesApart(size, a, r, b, p - PageOf(b, 0));
    }
  }
}
