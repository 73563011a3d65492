/** The state of the host KV arena as a value, its operations and the invariant they keep.

    The class in HostArena.dfy updates these fields in place; every one of its methods is proved
    equal to the function here, so what is proved about the functions holds of the class.
 */
module ArenaState {
  import opened Common
  import opened Runs
  import opened KvLayout

  datatype Descriptor =
    Descriptor(offset: nat, bytes: nat, layout: nat, pages: nat, generation: nat, active: bool) {
    predicate Holds(x: int) { active && offset <= x < offset + bytes }
    function Extent(): Run { Run(offset, bytes) }
  }

  /** A handle without its owner pointer: which descriptor, and which of its generations. */
  datatype Ticket = Ticket(descriptor: nat, generation: nat)

  datatype Arena = Arena(
    capacity: nat,
    layouts: seq<HostPageLayout>,
    descriptors: seq<Descriptor>,
    idle: seq<nat>,
    free: seq<Run>,
    occupied: nat,
    revision: nat)

  // ----- Layouts

  function Smallest(layouts: seq<HostPageLayout>): (m: nat)
    requires layouts != []
    ensures forall i :: 0 <= i < |layouts| ==> m <= layouts[i].pageStride
    ensures exists i :: 0 <= i < |layouts| && m == layouts[i].pageStride
  {
    if |layouts| == 1 then layouts[0].pageStride else
    var m := Smallest(layouts[1..]);
    assert forall i :: 1 <= i < |layouts| ==> layouts[i] == layouts[1..][i - 1];
    if layouts[0].pageStride <= m then layouts[0].pageStride else m
  }

  /** std::find over the supported layouts. */
  function FindLayout(layouts: seq<HostPageLayout>, layout: HostPageLayout): (k: nat)
    ensures k <= |layouts|
    ensures k < |layouts| ==> layouts[k] == layout
    ensures k == |layouts| ==> layout !in layouts
  {
    if layouts == [] || layouts[0] == layout then 0 else 1 + FindLayout(layouts[1..], layout)
  }

  /** What the arena relies on: different layouts, none with a stride below the alignment. */
  ghost predicate LayoutsOk(layouts: seq<HostPageLayout>) {
    && (forall i, j :: 0 <= i < j < |layouts| ==> layouts[i] != layouts[j])
    && (forall i :: 0 <= i < |layouts| ==> layouts[i].pageStride >= HOST_ALIGNMENT)
  }

  /** What the constructor demands: different layouts, each the one its geometry plans. */
  ghost predicate LayoutsPlanned(layouts: seq<HostPageLayout>) {
    && LayoutsOk(layouts)
    && forall i :: 0 <= i < |layouts| ==> PlanLayout(layouts[i].geometry) == Ok(layouts[i])
  }

  lemma SmallestPositive(layouts: seq<HostPageLayout>)
    requires LayoutsOk(layouts) && layouts != []
    ensures Smallest(layouts) >= HOST_ALIGNMENT
  {
  }

  lemma LayoutAccepted(layouts: seq<HostPageLayout>, i: nat)
    requires i < |layouts| && LayoutsPlanned(layouts[..i]) && PlanLayout(layouts[i].geometry) == Ok(layouts[i])
    requires forall k :: 0 <= k < i ==> layouts[k] != layouts[i]
    ensures LayoutsPlanned(layouts[..i + 1])
  {
    hide PlanLayout;
    PlanLayoutSound(layouts[i].geometry);
    forall k | 0 <= k < i ensures layouts[..i][k] == layouts[k] == layouts[..i + 1][k] {}
  }

  lemma LayoutRejected(layouts: seq<HostPageLayout>, i: nat, k: nat)
    requires k <= i < |layouts|
    requires PlanLayout(layouts[i].geometry) != Ok(layouts[i]) || (k < i && layouts[k] == layouts[i])
    ensures !LayoutsPlanned(layouts)
  {
    hide PlanLayout;
  }

  function MaxDescriptors(capacity: nat, layouts: seq<HostPageLayout>): nat
    requires capacity > 0 ==> layouts != [] && Smallest(layouts) > 0
  {
    if capacity == 0 then 0 else capacity / Smallest(layouts)
  }

  /** The descriptor table has one entry for every page of the smallest layout that the capacity holds. */
  lemma TableHoldsAll(capacity: nat, layouts: seq<HostPageLayout>, n: nat)
    requires capacity > 0 ==> layouts != [] && Smallest(layouts) > 0
    ensures n <= MaxDescriptors(capacity, layouts) <==> n == 0 || (capacity > 0 && n * Smallest(layouts) <= capacity)
  {
    if capacity > 0 { DivisionGuard(n, Smallest(layouts), capacity); }
  }

  // ----- Descriptor table

  function BytesOf(d: Descriptor): nat { if d.active then d.bytes else 0 }

  function SumBytes(ds: seq<Descriptor>): nat {
    if ds == [] then 0 else BytesOf(ds[0]) + SumBytes(ds[1..])
  }

  function LiveCount(ds: seq<Descriptor>): nat {
    if ds == [] then 0 else (if ds[0].active then 1 else 0) + LiveCount(ds[1..])
  }

  ghost predicate Owned(ds: seq<Descriptor>, x: int) {
    exists i :: 0 <= i < |ds| && ds[i].Holds(x)
  }

  ghost predicate Disjoint(ds: seq<Descriptor>) {
    forall i, j :: 0 <= i < |ds| && 0 <= j < |ds| && i != j && ds[i].active && ds[j].active ==>
      ds[i].offset + ds[i].bytes <= ds[j].offset || ds[j].offset + ds[j].bytes <= ds[i].offset
  }

  ghost predicate Sized(layouts: seq<HostPageLayout>, capacity: nat, d: Descriptor) {
    d.active ==>
      && d.layout < |layouts|
      && d.pages > 0
      && d.bytes == d.pages * layouts[d.layout].pageStride
      && d.bytes >= layouts[d.layout].pageStride
      && d.offset + d.bytes <= capacity
  }

  ghost predicate IdleOk(ds: seq<Descriptor>, idle: seq<nat>) {
    && (forall i :: 0 <= i < |idle| ==> idle[i] < |ds| && !ds[idle[i]].active)
    && (forall i, j :: 0 <= i < j < |idle| ==> idle[i] != idle[j])
    && LiveCount(ds) + |idle| == |ds|
  }

  /** A gap at the very start of the arena is never shorter than the smallest page. */
  ghost predicate FrontGapFits(s: Arena)
    requires s.capacity > 0 ==> s.layouts != []
  {
    s.capacity > 0 && s.descriptors != [] && s.free != [] && s.free[0].begin == 0 ==>
      s.free[0].count >= Smallest(s.layouts)
  }

  /** Free extents are the maximal gaps between the live ranges, and every byte is accounted for. */
  ghost predicate Valid(s: Arena) {
    && Core(s)
    && |s.descriptors| == MaxDescriptors(s.capacity, s.layouts)
  }

  ghost predicate Core(s: Arena) {
    && LayoutsOk(s.layouts)
    && s.capacity <= SIZE_MAX
    && (s.capacity > 0 ==> s.layouts != [])
    && (forall i :: 0 <= i < |s.descriptors| ==> Sized(s.layouts, s.capacity, s.descriptors[i]))
    && Disjoint(s.descriptors)
    && IdleOk(s.descriptors, s.idle)
    && Normal(s.free)
    && (forall x :: Covers(s.free, x) <==> 0 <= x < s.capacity && !Owned(s.descriptors, x))
    && s.occupied == SumBytes(s.descriptors)
    && s.occupied + Total(s.free) == s.capacity
    && FrontGapFits(s)
  }

  /** The part of the invariant about the free list. */
  lemma FreeListFacts(s: Arena)
    requires Valid(s)
    ensures Normal(s.free) && LayoutsOk(s.layouts)
    ensures forall x :: Covers(s.free, x) <==> 0 <= x < s.capacity && !Owned(s.descriptors, x)
  {
  }

  lemma LayoutFacts(s: Arena)
    requires Valid(s)
    ensures LayoutsOk(s.layouts)
  {
  }

  /** The part of the invariant about the descriptor table. */
  lemma TableFacts(s: Arena)
    requires Valid(s)
    ensures Disjoint(s.descriptors) && IdleOk(s.descriptors, s.idle) && s.occupied == SumBytes(s.descriptors)
    ensures forall i :: 0 <= i < |s.descriptors| ==> Sized(s.layouts, s.capacity, s.descriptors[i])
  {
  }

  lemma IdleFacts(s: Arena)
    requires Valid(s) && s.idle != []
    ensures s.idle[|s.idle| - 1] < |s.descriptors| && !s.descriptors[s.idle[|s.idle| - 1]].active
  {
  }

  predicate Live(s: Arena, t: Ticket) {
    t.descriptor < |s.descriptors| && s.descriptors[t.descriptor].active
    && s.descriptors[t.descriptor].generation == t.generation
  }

  // ----- Operations

  datatype Allocated = Allocated(arena: Arena, ticket: Ticket)

  /** The byte size of a request the arena supports. */
  function RequestBytes(layouts: seq<HostPageLayout>, layout: HostPageLayout, pages: nat): Option<nat> {
    if pages == 0 || FindLayout(layouts, layout) == |layouts| || layout.pageStride > SIZE_MAX / pages then None
    else Some(layout.pageStride * pages)
  }

  function Allocate(s: Arena, layout: HostPageLayout, pages: nat): Option<Allocated>
    requires Valid(s)
  {
    var need := RequestBytes(s.layouts, layout, pages);
    if need.None? || s.idle == [] then None else
    var k := FirstFit(s.free, need.value);
    if k == |s.free| then None else
    RequestPositive(s.layouts, layout, pages);
    var i := s.idle[|s.idle| - 1];
    var d := Descriptor(s.free[k].begin, need.value, FindLayout(s.layouts, layout), pages,
                        s.descriptors[i].generation, true);
    Some(Allocated(
           s.(descriptors := s.descriptors[i := d],
              idle := s.idle[..|s.idle| - 1],
              free := Take(s.free, k, s.free[k].begin, need.value),
              occupied := s.occupied + need.value,
              revision := s.revision + 1),
           Ticket(i, d.generation)))
  }

  function Retired(d: Descriptor): Descriptor {
    Descriptor(0, 0, d.layout, 0, d.generation + 1, false)
  }

  function Release(s: Arena, t: Ticket): Arena
    requires Valid(s) && Live(s, t)
  {
    var d := s.descriptors[t.descriptor];
    SumBytesAtLeast(s.descriptors, t.descriptor);
    s.(descriptors := s.descriptors[t.descriptor := Retired(d)],
       idle := s.idle + [t.descriptor],
       free := Insert(s.free, d.Extent()),
       occupied := s.occupied - d.bytes,
       revision := s.revision + 1)
  }

  datatype Halves = Halves(arena: Arena, left: Ticket, right: Ticket)

  predicate CanSplit(s: Arena, t: Ticket, at: nat) {
    Live(s, t) && 0 < at < s.descriptors[t.descriptor].pages
  }

  function LeftHalf(d: Descriptor, at: nat, stride: nat): Descriptor {
    d.(generation := d.generation + 1, pages := at, bytes := at * stride)
  }

  function RightHalf(d: Descriptor, at: nat, stride: nat, generation: nat): Descriptor
    requires at <= d.pages
  {
    var pages: nat := d.pages - at;
    Descriptor(d.offset + at * stride, pages * stride, d.layout, pages, generation, true)
  }

  function Split(s: Arena, t: Ticket, at: nat): Halves
    requires Valid(s) && CanSplit(s, t, at)
  {
    SplitHasDescriptor(s, t, at);
    var d := s.descriptors[t.descriptor];
    assert Sized(s.layouts, s.capacity, d);
    var stride := s.layouts[d.layout].pageStride;
    var r := s.idle[|s.idle| - 1];
    var right := RightHalf(d, at, stride, s.descriptors[r].generation);
    var left := LeftHalf(d, at, stride);
    Halves(s.(descriptors := s.descriptors[r := right][t.descriptor := left],
              idle := s.idle[..|s.idle| - 1],
              revision := s.revision + 1),
           Ticket(t.descriptor, left.generation), Ticket(r, right.generation))
  }

  // ----- Counting

  lemma RequestPositive(layouts: seq<HostPageLayout>, layout: HostPageLayout, pages: nat)
    requires LayoutsOk(layouts) && RequestBytes(layouts, layout, pages).Some?
    ensures layout.pageStride <= RequestBytes(layouts, layout, pages).value <= SIZE_MAX
    ensures layout.pageStride >= HOST_ALIGNMENT
  {
    assert layout == layouts[FindLayout(layouts, layout)];
    GuardedProduct(layout.pageStride, pages, SIZE_MAX);
  }

  lemma {:induction false} SumBytesAtLeast(ds: seq<Descriptor>, i: nat)
    requires i < |ds|
    ensures BytesOf(ds[i]) <= SumBytes(ds)
  {
    if i > 0 { SumBytesAtLeast(ds[1..], i - 1); }
  }

  lemma {:induction false} SumsUpdate(ds: seq<Descriptor>, i: nat, d: Descriptor)
    requires i < |ds|
    ensures SumBytes(ds[i := d]) == SumBytes(ds) - BytesOf(ds[i]) + BytesOf(d)
    ensures LiveCount(ds[i := d]) + (if ds[i].active then 1 else 0) == LiveCount(ds) + (if d.active then 1 else 0)
  {
    if i == 0 {
      assert ds[i := d][1..] == ds[1..];
    } else {
      SumsUpdate(ds[1..], i - 1, d);
      assert ds[i := d][1..] == ds[1..][i - 1 := d];
    }
  }

  /** Every live allocation holds at least m bytes. */
  lemma {:induction false} LiveCountBytes(ds: seq<Descriptor>, m: nat)
    requires forall i :: 0 <= i < |ds| && ds[i].active ==> ds[i].bytes >= m
    ensures LiveCount(ds) * m <= SumBytes(ds)
  {
    if ds != [] {
      LiveCountBytes(ds[1..], m);
      MulSum(LiveCount(ds) - LiveCount(ds[1..]), LiveCount(ds[1..]), m);
    }
  }

  lemma LiveAtLeastSmallest(s: Arena)
    requires Valid(s) && s.capacity > 0
    ensures forall i :: 0 <= i < |s.descriptors| && s.descriptors[i].active ==>
              s.descriptors[i].bytes >= Smallest(s.layouts)
    ensures LiveCount(s.descriptors) * Smallest(s.layouts) <= s.occupied
  {
    forall i | 0 <= i < |s.descriptors| && s.descriptors[i].active
      ensures s.descriptors[i].bytes >= Smallest(s.layouts)
    {
      assert Sized(s.layouts, s.capacity, s.descriptors[i]);
    }
    LiveCountBytes(s.descriptors, Smallest(s.layouts));
  }

  /** If n + 1 allocations of at least m bytes would still fit, n does not exhaust capacity / m. */
  lemma CountFits(n: nat, m: nat, used: nat, capacity: nat)
    requires m > 0 && n * m <= used && used + m <= capacity
    ensures n < capacity / m
  {
    assert (n + 1) * m == n * m + m;
    DivisionGuard(n + 1, m, capacity);
  }

  /** As long as one smallest page of bytes is free, some descriptor is idle. */
  lemma FreePageMeansIdle(s: Arena)
    requires Valid(s) && s.capacity > 0 && Total(s.free) >= Smallest(s.layouts)
    ensures s.idle != []
  {
    LiveAtLeastSmallest(s);
    CountFits(LiveCount(s.descriptors), Smallest(s.layouts), s.occupied, s.capacity);
  }

  /** A request that some free extent can hold always finds an idle descriptor. */
  lemma FitMeansIdle(s: Arena, layout: HostPageLayout, pages: nat)
    requires Valid(s) && RequestBytes(s.layouts, layout, pages).Some?
    requires FirstFit(s.free, RequestBytes(s.layouts, layout, pages).value) < |s.free|
    ensures s.idle != []
  {
    var need := RequestBytes(s.layouts, layout, pages).value;
    var k := FirstFit(s.free, need);
    RequestPositive(s.layouts, layout, pages);
    RunAtMostTotal(s.free, k);
    assert layout == s.layouts[FindLayout(s.layouts, layout)];
    FreePageMeansIdle(s);
  }

  /** The descriptor that a legal split needs is always there. */
  lemma SplitHasDescriptor(s: Arena, t: Ticket, at: nat)
    requires Valid(s) && CanSplit(s, t, at)
    ensures s.idle != []
  {
    var d := s.descriptors[t.descriptor];
    assert Sized(s.layouts, s.capacity, d);
    var m := Smallest(s.layouts);
    MulMonotone(2, d.pages, s.layouts[d.layout].pageStride);
    SpareBytes(s.descriptors, t.descriptor, m, s.layouts, s.capacity);
    SumBytesAtLeast(s.descriptors, t.descriptor);
    CountFits(LiveCount(s.descriptors), m, s.occupied - m, s.capacity);
  }

  /** An allocation of two pages or more leaves one smallest page over in the count. */
  lemma SpareBytes(ds: seq<Descriptor>, i: nat, m: nat, layouts: seq<HostPageLayout>, capacity: nat)
    requires i < |ds| && ds[i].active && ds[i].bytes >= 2 * m
    requires forall j :: 0 <= j < |ds| ==> Sized(layouts, capacity, ds[j])
    requires forall j :: 0 <= j < |layouts| ==> m <= layouts[j].pageStride
    ensures LiveCount(ds) * m + m <= SumBytes(ds)
  {
    var rest := ds[i].(bytes := ds[i].bytes - m);
    SumsUpdate(ds, i, rest);
    var small := ds[i := rest];
    forall j | 0 <= j < |small| && small[j].active ensures small[j].bytes >= m {
      assert Sized(layouts, capacity, ds[j]);
    }
    LiveCountBytes(small, m);
  }

  // ----- Preservation

  lemma OwnedUpdate(ds: seq<Descriptor>, i: nat, d: Descriptor)
    requires i < |ds| && Disjoint(ds)
    ensures forall x :: Owned(ds[i := d], x) <==> (Owned(ds, x) && !ds[i].Holds(x)) || d.Holds(x)
  {
    forall x ensures Owned(ds[i := d], x) <==> (Owned(ds, x) && !ds[i].Holds(x)) || d.Holds(x) {
      if d.Holds(x) { assert ds[i := d][i].Holds(x); }
      if Owned(ds[i := d], x) {
        var j :| 0 <= j < |ds| && ds[i := d][j].Holds(x);
        if j != i { assert ds[j].Holds(x); }
      }
      if Owned(ds, x) && !ds[i].Holds(x) {
        var j :| 0 <= j < |ds| && ds[j].Holds(x);
        assert ds[i := d][j].Holds(x);
      }
    }
  }

  /** A free run overlaps no live allocation. */
  lemma FreeRunApart(s: Arena, r: Run, i: nat)
    requires Valid(s) && r.count > 0 && i < |s.descriptors| && s.descriptors[i].active
    requires forall x :: r.Has(x) ==> Covers(s.free, x)
    ensures r.End() <= s.descriptors[i].offset || s.descriptors[i].offset + s.descriptors[i].bytes <= r.begin
  {
    var d := s.descriptors[i];
    assert Sized(s.layouts, s.capacity, d);
    var x := if r.begin >= d.offset then r.begin else d.offset;
    assert d.Holds(x) ==> Owned(s.descriptors, x);
    assert r.Has(x) ==> Covers(s.free, x);
  }

  lemma AllocateFree(s: Arena, layout: HostPageLayout, pages: nat)
    requires Valid(s) && Allocate(s, layout, pages).Some?
    ensures var a := Allocate(s, layout, pages).value;
            var d := a.arena.descriptors[a.ticket.descriptor];
            && Normal(a.arena.free)
            && (forall x :: Covers(a.arena.free, x) <==> Covers(s.free, x) && !d.Holds(x))
            && (forall x :: d.Holds(x) ==> Covers(s.free, x))
            && Total(a.arena.free) + d.bytes == Total(s.free)
            && FrontGapFits(a.arena)
  {
    var a := Allocate(s, layout, pages).value;
    var d := a.arena.descriptors[a.ticket.descriptor];
    var k := FirstFit(s.free, d.bytes);
    RequestPositive(s.layouts, layout, pages);
    TakeCorrect(s.free, k, s.free[k].begin, d.bytes);
    forall x | d.Holds(x) ensures Covers(s.free, x) { assert s.free[k].Has(x); }
    forall x ensures Run(d.offset, d.bytes).Has(x) <==> d.Holds(x) {}
    assert k > 0 ==> a.arena.free[0] == s.free[0];
  }

  lemma AllocateTable(s: Arena, layout: HostPageLayout, pages: nat)
    requires Valid(s) && Allocate(s, layout, pages).Some?
    ensures var a := Allocate(s, layout, pages).value;
            var d := a.arena.descriptors[a.ticket.descriptor];
            && Sized(s.layouts, s.capacity, d)
            && Disjoint(a.arena.descriptors)
            && IdleOk(a.arena.descriptors, a.arena.idle)
            && a.arena.occupied == SumBytes(a.arena.descriptors)
            && (forall x :: Owned(a.arena.descriptors, x) <==> Owned(s.descriptors, x) || d.Holds(x))
  {
    hide Valid, Allocate, Covers, Owned, Disjoint, IdleOk, Sized, SumBytes, LiveCount, FrontGapFits;
    AllocateEdits(s, layout, pages);
    var a := Allocate(s, layout, pages).value;
    var i := a.ticket.descriptor;
    var d := a.arena.descriptors[i];
    TableFacts(s);
    IdleFacts(s);
    AllocateFree(s, layout, pages);
    AllocatedSized(s, layout, pages);
    SumsUpdate(s.descriptors, i, d);
    OwnedUpdate(s.descriptors, i, d);
    TakeIdle(s.descriptors, s.idle, d);
    forall x | d.Extent().Has(x) ensures Covers(s.free, x) { assert d.Holds(x); }
    AddApart(s, i, d);
  }

  /** What an allocation writes: a live descriptor over an idle one, and its size. */
  lemma AllocateEdits(s: Arena, layout: HostPageLayout, pages: nat)
    requires Valid(s) && Allocate(s, layout, pages).Some?
    ensures s.idle != []
    ensures var a := Allocate(s, layout, pages).value;
            var i := s.idle[|s.idle| - 1];
            && a.ticket.descriptor == i < |s.descriptors| == |a.arena.descriptors|
            && !s.descriptors[i].active
            && a.arena.idle == s.idle[..|s.idle| - 1]
            && a.arena.occupied == s.occupied + a.arena.descriptors[i].bytes
            && a.arena.descriptors == s.descriptors[i := a.arena.descriptors[i]]
            && a.arena.descriptors[i].active && a.arena.descriptors[i].bytes > 0
  {
    hide Valid, Covers, Owned, Disjoint, SumBytes, LiveCount, FrontGapFits, Take, FirstFit;
    IdleFacts(s);
    LayoutFacts(s);
    RequestPositive(s.layouts, layout, pages);
  }

  lemma AllocatedSized(s: Arena, layout: HostPageLayout, pages: nat)
    requires Valid(s) && Allocate(s, layout, pages).Some?
    ensures var a := Allocate(s, layout, pages).value;
            Sized(s.layouts, s.capacity, a.arena.descriptors[a.ticket.descriptor])
  {
    var a := Allocate(s, layout, pages).value;
    var d := a.arena.descriptors[a.ticket.descriptor];
    RequestPositive(s.layouts, layout, pages);
    AllocateFree(s, layout, pages);
    var last := d.offset + d.bytes - 1;
    assert d.Holds(last) && Covers(s.free, last);
    assert layout.pageStride * pages == pages * layout.pageStride;
  }

  /** A new owner for the last idle descriptor. */
  lemma TakeIdle(ds: seq<Descriptor>, idle: seq<nat>, d: Descriptor)
    requires IdleOk(ds, idle) && idle != [] && d.active
    ensures IdleOk(ds[idle[|idle| - 1] := d], idle[..|idle| - 1])
  {
    SumsUpdate(ds, idle[|idle| - 1], d);
  }

  /** A descriptor made of free bytes overlaps no other. */
  lemma AddApart(s: Arena, i: nat, d: Descriptor)
    requires Valid(s) && i < |s.descriptors| && d.bytes > 0
    requires forall x :: d.Extent().Has(x) ==> Covers(s.free, x)
    ensures Disjoint(s.descriptors[i := d])
  {
    forall j | 0 <= j < |s.descriptors| && j != i && s.descriptors[j].active
      ensures d.offset + d.bytes <= s.descriptors[j].offset
              || s.descriptors[j].offset + s.descriptors[j].bytes <= d.offset
    {
      FreeRunApart(s, d.Extent(), j);
    }
  }

  /** Allocation keeps the invariant and turns exactly its own bytes from free to owned. */
  lemma AllocateValid(s: Arena, layout: HostPageLayout, pages: nat)
    requires Valid(s) && Allocate(s, layout, pages).Some?
    ensures var a := Allocate(s, layout, pages).value;
            && a.ticket.descriptor < |s.descriptors| == |a.arena.descriptors|
            && Valid(a.arena) && Live(a.arena, a.ticket) && !s.descriptors[a.ticket.descriptor].active
  {
    AllocateFree(s, layout, pages);
    AllocateTable(s, layout, pages);
  }

  /** A byte of the arena that nobody owns. */
  ghost predicate Spare(s: Arena, x: int) {
    0 <= x < s.capacity && !Owned(s.descriptors, x)
  }

  ghost predicate Unowned(s: Arena, begin: int, count: nat) {
    forall x :: begin <= x < begin + count ==> Spare(s, x)
  }

  /** What a request asks for, when it can be asked for at all. */
  lemma RequestMeans(layouts: seq<HostPageLayout>, layout: HostPageLayout, pages: nat)
    requires LayoutsOk(layouts)
    ensures var need := layout.pageStride * pages;
            && (RequestBytes(layouts, layout, pages).Some? <==> layout in layouts && pages > 0 && need <= SIZE_MAX)
            && (RequestBytes(layouts, layout, pages).Some? ==>
                  RequestBytes(layouts, layout, pages) == Some(need) && need > 0)
  {
    if pages > 0 { DivisionGuard(layout.pageStride, pages, SIZE_MAX); }
    if RequestBytes(layouts, layout, pages).Some? { RequestPositive(layouts, layout, pages); }
  }

  /** Allocation is first fit over the bytes that nobody owns: it succeeds exactly when the layout is supported and
      some place holds the pages, and then it takes the lowest such place. */
  lemma AllocateIsFirstFit(s: Arena, layout: HostPageLayout, pages: nat)
    requires Valid(s)
    ensures var need := layout.pageStride * pages;
            && (Allocate(s, layout, pages).Some? <==>
                  layout in s.layouts && pages > 0 && exists b :: Unowned(s, b, need))
            && (Allocate(s, layout, pages).Some? ==>
                  var a := Allocate(s, layout, pages).value;
                  var i := a.ticket.descriptor;
                  && i < |s.descriptors| == |a.arena.descriptors|
                  && var d := a.arena.descriptors[i];
                     && Unowned(s, d.offset, need) && (forall b :: Unowned(s, b, need) ==> d.offset <= b)
                     && d.bytes == need && d.pages == pages && d.active
                     && d.layout < |s.layouts| && s.layouts[d.layout] == layout
                     && !s.descriptors[i].active && d.generation == s.descriptors[i].generation == a.ticket.generation
                     && a.arena.descriptors == s.descriptors[i := d])
  {
    hide Valid, Owned, Take;
    FreeListFacts(s);
    RequestMeans(s.layouts, layout, pages);
    var need := layout.pageStride * pages;
    forall b ensures Unowned(s, b, need) <==> Within(s.free, b, need) { UnownedIsFree(s, b, need); }
    if RequestBytes(s.layouts, layout, pages).Some? {
      FirstFitLowest(s.free, need);
      if FirstFit(s.free, need) < |s.free| {
        FitMeansIdle(s, layout, pages);
        IdleFacts(s);
      }
    } else if pages > 0 && layout in s.layouts {
      FarEnd(s, need);
    }
  }

  lemma UnownedIsFree(s: Arena, begin: int, count: nat)
    requires Valid(s)
    ensures Unowned(s, begin, count) <==> Within(s.free, begin, count)
  {
    hide Valid, Covers, Owned;
    FreeListFacts(s);
    forall x ensures Spare(s, x) <==> Covers(s.free, x) {}
  }

  /** No place holds more bytes than the address space has. */
  lemma FarEnd(s: Arena, need: nat)
    requires Valid(s) && need > SIZE_MAX
    ensures forall b :: !Unowned(s, b, need)
  {
    forall b ensures !Unowned(s, b, need) {
      var last := b + need - 1;
      assert Spare(s, b) ==> !Spare(s, last);
    }
  }

  lemma ReleaseFree(s: Arena, t: Ticket)
    requires Valid(s) && Live(s, t)
    ensures var d, free := s.descriptors[t.descriptor], Release(s, t).free;
            && Normal(free)
            && (forall x :: Covers(free, x) <==> Covers(s.free, x) || d.Holds(x))
            && Total(free) == Total(s.free) + d.bytes
            && FrontGapFits(Release(s, t))
  {
    var d := s.descriptors[t.descriptor];
    assert Sized(s.layouts, s.capacity, d);
    LiveAtLeastSmallest(s);
    forall x | d.Extent().Has(x) ensures !Covers(s.free, x) { assert d.Holds(x); }
    forall x ensures d.Extent().Has(x) <==> d.Holds(x) {}
    InsertCorrect(s.free, d.Extent());
  }

  lemma ReleaseTable(s: Arena, t: Ticket)
    requires Valid(s) && Live(s, t)
    ensures var d, u := s.descriptors[t.descriptor], Release(s, t);
            && Disjoint(u.descriptors)
            && IdleOk(u.descriptors, u.idle)
            && u.occupied == SumBytes(u.descriptors)
            && (forall x :: Owned(u.descriptors, x) <==> Owned(s.descriptors, x) && !d.Holds(x))
  {
    hide Valid, Insert, SumBytes, LiveCount, Owned;
    TableFacts(s);
    var d := s.descriptors[t.descriptor];
    SumsUpdate(s.descriptors, t.descriptor, Retired(d));
    OwnedUpdate(s.descriptors, t.descriptor, Retired(d));
  }

  /** Release keeps the invariant and returns exactly the allocation's bytes. */
  lemma ReleaseValid(s: Arena, t: Ticket)
    requires Valid(s) && Live(s, t)
    ensures Valid(Release(s, t)) && !Release(s, t).descriptors[t.descriptor].active
  {
    var d := s.descriptors[t.descriptor];
    assert Sized(s.layouts, s.capacity, d);
    ReleaseFree(s, t);
    ReleaseTable(s, t);
    forall x | d.Holds(x) ensures Owned(s.descriptors, x) && 0 <= x < s.capacity {}
  }

  /** The halves of an allocation tile it, and each is a whole number of pages. */
  lemma HalvesSized(layouts: seq<HostPageLayout>, capacity: nat, d: Descriptor, at: nat, generation: nat)
    requires Sized(layouts, capacity, d) && d.active && 0 < at < d.pages
    requires layouts[d.layout].pageStride > 0
    ensures var stride := layouts[d.layout].pageStride;
            var left, right := LeftHalf(d, at, stride), RightHalf(d, at, stride, generation);
            && Sized(layouts, capacity, left) && Sized(layouts, capacity, right)
            && left.active && right.active && left.bytes > 0 && right.bytes > 0
            && left.offset == d.offset
            && left.offset + left.bytes == right.offset
            && right.offset + right.bytes == d.offset + d.bytes
  {
    var stride := layouts[d.layout].pageStride;
    var pages: nat := d.pages - at;
    MulSum(at, pages, stride);
    MulAtLeast(at, stride);
    MulAtLeast(pages, stride);
  }

  lemma TileDisjoint(ds: seq<Descriptor>, i: nat, left: Descriptor, r: nat, right: Descriptor)
    requires i < |ds| && r < |ds| && i != r && ds[i].active && !ds[r].active && Disjoint(ds)
    requires left.offset == ds[i].offset && left.offset + left.bytes == right.offset
    requires right.offset + right.bytes == ds[i].offset + ds[i].bytes
    ensures Disjoint(ds[i := left]) && Disjoint(ds[r := right][i := left])
  {
    forall j | 0 <= j < |ds| && j != i && ds[j].active
      ensures ds[i].offset + ds[i].bytes <= ds[j].offset || ds[j].offset + ds[j].bytes <= ds[i].offset
    {
    }
  }

  /** Replacing one allocation by two that tile it changes neither ownership nor disjointness. */
  lemma TileDescriptor(ds: seq<Descriptor>, i: nat, left: Descriptor, r: nat, right: Descriptor)
    requires i < |ds| && r < |ds| && i != r && ds[i].active && !ds[r].active && Disjoint(ds)
    requires left.active && right.active && left.bytes > 0 && right.bytes > 0
    requires left.offset == ds[i].offset && left.offset + left.bytes == right.offset
    requires right.offset + right.bytes == ds[i].offset + ds[i].bytes
    ensures Disjoint(ds[r := right][i := left])
    ensures forall x :: Owned(ds[r := right][i := left], x) <==> Owned(ds, x)
    ensures SumBytes(ds[r := right][i := left]) == SumBytes(ds)
    ensures LiveCount(ds[r := right][i := left]) == LiveCount(ds) + 1
  {
    assert forall x :: ds[i].Holds(x) ==> Owned(ds, x);
    TileDisjoint(ds, i, left, r, right);
    hide Owned, SumBytes, LiveCount, Disjoint;
    var shrunk := ds[i := left];
    assert ds[r := right][i := left] == shrunk[r := right];
    SumsUpdate(ds, i, left);
    OwnedUpdate(ds, i, left);
    SumsUpdate(shrunk, r, right);
    OwnedUpdate(shrunk, r, right);
    forall x ensures Owned(shrunk[r := right], x) <==> Owned(ds, x) {
      assert ds[i].Holds(x) <==> left.Holds(x) || right.Holds(x);
    }
  }

  /** Split keeps the invariant: same bytes, same free list, two adjacent allocations for one. */
  lemma SplitValid(s: Arena, t: Ticket, at: nat)
    requires Valid(s) && CanSplit(s, t, at)
    ensures var h := Split(s, t, at);
            && Valid(h.arena) && Live(h.arena, h.left) && Live(h.arena, h.right) && !Live(h.arena, t)
            && h.left.descriptor == t.descriptor != h.right.descriptor
            && !s.descriptors[h.right.descriptor].active
            && h.arena.free == s.free
  {
    hide SumBytes, LiveCount, Owned, Total;
    SplitHasDescriptor(s, t, at);
    var d := s.descriptors[t.descriptor];
    assert Sized(s.layouts, s.capacity, d);
    var r := s.idle[|s.idle| - 1];
    var generation := s.descriptors[r].generation;
    var stride := s.layouts[d.layout].pageStride;
    var left, right := LeftHalf(d, at, stride), RightHalf(d, at, stride, generation);
    HalvesSized(s.layouts, s.capacity, d, at, generation);
    TileDescriptor(s.descriptors, t.descriptor, left, r, right);
  }
}
