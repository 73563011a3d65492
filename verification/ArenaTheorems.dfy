/** What the arena's operations do to each other, and what holds after every run of them. */
module ArenaTheorems {
  import opened Common
  import opened Runs
  import opened KvLayout
  import opened ArenaState

  /** The free list is a function of which bytes are owned. */
  lemma FreeListDetermined(s: Arena, u: Arena)
    requires Valid(s) && Valid(u) && s.capacity == u.capacity
    requires forall x :: Owned(s.descriptors, x) <==> Owned(u.descriptors, x)
    ensures s.free == u.free && s.occupied == u.occupied
  {
    NormalUnique(s.free, u.free);
  }

  lemma AllocateThenReleaseCounts(s: Arena, layout: HostPageLayout, pages: nat)
    requires Valid(s) && Allocate(s, layout, pages).Some?
    requires var a := Allocate(s, layout, pages).value; Valid(a.arena) && Live(a.arena, a.ticket)
    ensures var a := Allocate(s, layout, pages).value;
            && Release(a.arena, a.ticket).occupied == s.occupied
            && Release(a.arena, a.ticket).idle == s.idle
  {
    assert IdleOk(s.descriptors, s.idle) && s.idle[|s.idle| - 1] < |s.descriptors|;
    hide Valid, Normal, Covers, Take, Insert;
    assert s.idle[..|s.idle| - 1] + [s.idle[|s.idle| - 1]] == s.idle;
  }

  /** Giving an allocation straight back restores the free list and the byte count. */
  lemma AllocateThenRelease(s: Arena, layout: HostPageLayout, pages: nat)
    requires Valid(s) && Allocate(s, layout, pages).Some?
    ensures var a := Allocate(s, layout, pages).value;
            && Valid(a.arena) && Live(a.arena, a.ticket)
            && Release(a.arena, a.ticket).free == s.free
            && Release(a.arena, a.ticket).occupied == s.occupied
            && Release(a.arena, a.ticket).idle == s.idle
  {
    hide Valid, Covers, Normal, Allocate, Release;
    FreeListFacts(s);
    AllocateValid(s, layout, pages);
    AllocateFree(s, layout, pages);
    AllocateThenReleaseCounts(s, layout, pages);
    var a := Allocate(s, layout, pages).value;
    ReleaseFree(a.arena, a.ticket);
    NormalUnique(Release(a.arena, a.ticket).free, s.free);
  }

  /** Releasing one allocation leaves every other one live and unchanged. */
  lemma ReleaseKeepsOthers(s: Arena, t: Ticket, u: Ticket)
    requires Valid(s) && Live(s, t) && Live(s, u) && t != u
    ensures Valid(Release(s, t)) && Live(Release(s, t), u) && !Live(Release(s, t), t)
    ensures Release(s, t).descriptors[u.descriptor] == s.descriptors[u.descriptor]
  {
    ReleaseValid(s, t);
  }

  /** Releases commute, up to the order of the idle stack. */
  lemma ReleasesCommute(s: Arena, t: Ticket, u: Ticket)
    requires Valid(s) && Live(s, t) && Live(s, u) && t != u
    ensures Valid(Release(s, t)) && Live(Release(s, t), u) && Valid(Release(s, u)) && Live(Release(s, u), t)
    ensures var tu, ut := Release(Release(s, t), u), Release(Release(s, u), t);
            tu.free == ut.free && tu.descriptors == ut.descriptors && tu.occupied == ut.occupied
  {
    hide Valid;
    ReleaseKeepsOthers(s, t, u);
    ReleaseKeepsOthers(s, u, t);
    ReleaseValid(Release(s, t), u);
    ReleaseValid(Release(s, u), t);
    assert Release(Release(s, t), u).descriptors == Release(Release(s, u), t).descriptors;
    FreeListDetermined(Release(Release(s, t), u), Release(Release(s, u), t));
  }

  /** Splitting and releasing both halves, in either order, is releasing the whole. */
  lemma SplitThenRelease(s: Arena, t: Ticket, at: nat)
    requires Valid(s) && CanSplit(s, t, at)
    ensures var h := Split(s, t, at);
            && Valid(h.arena) && Live(h.arena, h.left) && Live(h.arena, h.right)
            && Valid(Release(h.arena, h.left)) && Live(Release(h.arena, h.left), h.right)
            && Valid(Release(h.arena, h.right)) && Live(Release(h.arena, h.right), h.left)
            && Release(Release(h.arena, h.left), h.right).free == Release(s, t).free
            && Release(Release(h.arena, h.right), h.left).free == Release(s, t).free
  {
    SplitValid(s, t, at);
    var h := Split(s, t, at);
    SplitTiles(s, t, at);
    ReleasesCommute(h.arena, h.left, h.right);
    var both := Release(Release(h.arena, h.left), h.right);
    ReleaseFree(h.arena, h.left);
    ReleaseFree(Release(h.arena, h.left), h.right);
    ReleaseFree(s, t);
    NormalUnique(both.free, Release(s, t).free);
  }

  lemma SplitTiles(s: Arena, t: Ticket, at: nat)
    requires Valid(s) && CanSplit(s, t, at)
    ensures var h, d := Split(s, t, at), s.descriptors[t.descriptor];
            && |h.arena.descriptors| == |s.descriptors|
            && t.descriptor == h.left.descriptor < |s.descriptors| && h.right.descriptor < |s.descriptors|
            && t.descriptor != h.right.descriptor
            && d.layout < |s.layouts|
            && var left, right := h.arena.descriptors[h.left.descriptor], h.arena.descriptors[h.right.descriptor];
            && left.active && right.active
            && (forall x :: d.Holds(x) <==> left.Holds(x) || right.Holds(x))
            && left.pages == at && right.pages == d.pages - at
            && left.layout == d.layout && right.layout == d.layout
            && left.offset == d.offset && right.offset == d.offset + at * s.layouts[d.layout].pageStride
            && (forall i :: 0 <= i < |s.descriptors| && i != h.left.descriptor && i != h.right.descriptor ==>
                  h.arena.descriptors[i] == s.descriptors[i])
  {
    SplitHasDescriptor(s, t, at);
    var d := s.descriptors[t.descriptor];
    var r := s.idle[|s.idle| - 1];
    assert Sized(s.layouts, s.capacity, d) && !s.descriptors[r].active && r < |s.descriptors|;
    assert s.layouts[d.layout].pageStride > 0;
    hide Valid;
    HalvesSized(s.layouts, s.capacity, d, at, s.descriptors[r].generation);
  }

  // ----- The reserved vector capacity is never outgrown

  ghost function Begins(rs: seq<Run>): set<int> {
    if rs == [] then {} else {rs[0].begin} + Begins(rs[1..])
  }

  ghost function Ends(ds: seq<Descriptor>): set<int> {
    if ds == [] then {}
    else (if ds[0].active then {ds[0].offset + ds[0].bytes} else {}) + Ends(ds[1..])
  }

  lemma {:induction false} BeginsWitness(rs: seq<Run>, b: int) returns (i: nat)
    requires b in Begins(rs)
    ensures i < |rs| && rs[i].begin == b
  {
    if b == rs[0].begin {
      i := 0;
    } else {
      var j := BeginsWitness(rs[1..], b);
      i := j + 1;
    }
  }

  lemma {:induction false} BeginsDistinct(rs: seq<Run>)
    requires Normal(rs)
    ensures |Begins(rs)| == |rs|
  {
    if rs != [] {
      BeginsDistinct(rs[1..]);
      if rs[0].begin in Begins(rs[1..]) {
        var i := BeginsWitness(rs[1..], rs[0].begin);
      }
    }
  }

  lemma {:induction false} EndsCounted(ds: seq<Descriptor>)
    ensures |Ends(ds)| <= LiveCount(ds)
    ensures forall i :: 0 <= i < |ds| && ds[i].active ==> ds[i].offset + ds[i].bytes in Ends(ds)
  {
    if ds != [] {
      EndsCounted(ds[1..]);
      forall i | 0 <= i < |ds| && ds[i].active ensures ds[i].offset + ds[i].bytes in Ends(ds) {
        if i > 0 { assert ds[i] == ds[1..][i - 1]; }
      }
    }
  }

  lemma SubsetSize(a: set<int>, b: set<int>)
    requires a <= b
    ensures |a| <= |b|
  {
    assert b == a + (b - a);
  }

  /** Every gap that does not start the arena begins where some allocation ends. */
  lemma GapFollowsAllocation(s: Arena, k: nat)
    requires Valid(s) && k < |s.free| && s.free[k].begin > 0
    ensures s.free[k].begin in Ends(s.descriptors)
  {
    hide Valid, Covers, Normal;
    FreeListFacts(s);
    var b := s.free[k].begin;
    RunEdge(s.free, k);
    assert Covers(s.free, b) && !Covers(s.free, b - 1);
    var i :| 0 <= i < |s.descriptors| && s.descriptors[i].Holds(b - 1);
    assert !s.descriptors[i].Holds(b);
    EndsCounted(s.descriptors);
  }

  /** Dropping a gap at offset 0, there are at most as many gaps as live allocations. */
  lemma GapsFollowAllocations(s: Arena)
    requires Valid(s)
    ensures |s.free| <= LiveCount(s.descriptors) + 1
    ensures s.free != [] && s.free[0].begin > 0 ==> |s.free| <= LiveCount(s.descriptors)
  {
    var later := if s.free != [] && s.free[0].begin == 0 then s.free[1..] else s.free;
    BeginsDistinct(later);
    EndsCounted(s.descriptors);
    forall b | b in Begins(later) ensures b in Ends(s.descriptors) {
      var i := BeginsWitness(later, b);
      GapFollowsAllocation(s, if later == s.free then i else i + 1);
    }
    SubsetSize(Begins(later), Ends(s.descriptors));
  }

  /** With something to release there is room for one more extent before any coalescing: the vector
      reserved for maximum_descriptors + 1 extents does not grow. */
  lemma InsertNeverGrows(s: Arena)
    requires Valid(s) && LiveCount(s.descriptors) > 0
    ensures |s.free| + 1 <= |s.descriptors| + 1
    ensures |s.idle| + 1 <= |s.descriptors|
  {
    GapsFollowAllocations(s);
    if s.idle == [] && s.free != [] {
      // The pool is exhausted, so less than one smallest page is free: no gap at offset 0.
      if Total(s.free) >= Smallest(s.layouts) { FreePageMeansIdle(s); }
      RunAtMostTotal(s.free, 0);
    }
  }

  /** A live ticket is counted. */
  lemma LiveCounted(s: Arena, t: Ticket)
    requires Valid(s) && Live(s, t)
    ensures LiveCount(s.descriptors) > 0
  {
    var d := s.descriptors[t.descriptor];
    SumsUpdate(s.descriptors, t.descriptor, Retired(d));
  }

  // ----- Runs of operations and the owners they leave

  datatype Event =
    | Alloc(layout: HostPageLayout, pages: nat)
    | Drop(ticket: Ticket)
    | Cut(ticket: Ticket, at: nat)

  /** The arena, the tickets whose allocation is still owned, and every ticket ever handed out. */
  datatype World = World(arena: Arena, owners: set<Ticket>, minted: set<Ticket>)

  /** One call on the arena.  A call that is refused changes nothing. */
  function Step(w: World, e: Event): World
    requires Valid(w.arena)
  {
    match e
    case Alloc(layout, pages) =>
      var r := Allocate(w.arena, layout, pages);
      if r.None? then w
      else World(r.value.arena, w.owners + {r.value.ticket}, w.minted + {r.value.ticket})
    case Drop(t) =>
      if !Live(w.arena, t) then w
      else World(Release(w.arena, t), w.owners - {t}, w.minted)
    case Cut(t, at) =>
      if !CanSplit(w.arena, t, at) then w else
      var h := Split(w.arena, t, at);
      World(h.arena, w.owners - {t} + {h.left, h.right}, w.minted + {h.left, h.right})
  }

  /** Tickets of the past never come back: a minted ticket is current or of an older generation, and
      an idle descriptor's generation has not been handed out. */
  ghost predicate Sound(w: World) {
    && Valid(w.arena)
    && w.owners <= w.minted
    && (forall t :: t in w.owners <==> Live(w.arena, t))
    && (forall t :: t in w.minted ==>
          && t.descriptor < |w.arena.descriptors|
          && t.generation <= w.arena.descriptors[t.descriptor].generation
          && (t.generation == w.arena.descriptors[t.descriptor].generation ==> t in w.owners))
  }

  /** Tickets a step hands out. */
  ghost function Fresh(w: World, e: Event): set<Ticket>
    requires Valid(w.arena)
  {
    Step(w, e).minted - w.minted
  }

  /** What every step keeps. */
  ghost predicate StepKeeps(v: World, w: World) {
    && Sound(w) && w.arena.capacity == v.arena.capacity && v.minted <= w.minted
    && w.owners <= v.owners + (w.minted - v.minted) && w.minted - v.minted <= w.owners
  }

  lemma AllocKeeps(w: World, layout: HostPageLayout, pages: nat)
    requires Sound(w)
    ensures StepKeeps(w, Step(w, Alloc(layout, pages)))
  {
    hide Valid;
    if Allocate(w.arena, layout, pages).Some? { AllocateValid(w.arena, layout, pages); }
  }

  lemma DropKeeps(w: World, t: Ticket)
    requires Sound(w)
    ensures StepKeeps(w, Step(w, Drop(t)))
  {
    hide Valid;
    if Live(w.arena, t) { ReleaseValid(w.arena, t); }
  }

  lemma CutKeeps(w: World, t: Ticket, at: nat)
    requires Sound(w)
    ensures StepKeeps(w, Step(w, Cut(t, at)))
  {
    hide Valid;
    if CanSplit(w.arena, t, at) {
      SplitValid(w.arena, t, at);
      SplitTiles(w.arena, t, at);
    }
  }

  lemma StepSound(w: World, e: Event)
    requires Sound(w)
    ensures Sound(Step(w, e)) && Step(w, e).arena.capacity == w.arena.capacity
    ensures w.minted <= Step(w, e).minted
    ensures Step(w, e).owners <= w.owners + Fresh(w, e)
    ensures Fresh(w, e) <= Step(w, e).owners
  {
    hide Valid, Step;
    match e
    case Alloc(layout, pages) => AllocKeeps(w, layout, pages);
    case Drop(t) => DropKeeps(w, t);
    case Cut(t, at) => CutKeeps(w, t, at);
  }

  /** The worlds a run passes through. */
  ghost predicate IsRun(ws: seq<World>, es: seq<Event>) {
    && |ws| == |es| + 1
    && Sound(ws[0])
    && forall i :: 0 <= i < |es| ==> Valid(ws[i].arena) && ws[i + 1] == Step(ws[i], es[i])
  }

  lemma {:induction false} RunSound(ws: seq<World>, es: seq<Event>, n: nat)
    requires IsRun(ws, es) && n < |ws|
    ensures Sound(ws[n])
  {
    hide Sound, Valid;
    if n > 0 {
      RunSound(ws, es, n - 1);
      StepSound(ws[n - 1], es[n - 1]);
    }
  }

  /** Safety over every run: the free list is the sorted list of maximal gaps, the byte count is the
      sum over live allocations, live ranges do not overlap, and a handle validates exactly when
      the allocation it was minted for is still owned. */
  lemma EveryRunIsSafe(ws: seq<World>, es: seq<Event>, n: nat, t: Ticket)
    requires IsRun(ws, es) && n < |ws|
    ensures var s := ws[n].arena;
            && Normal(s.free) && Disjoint(s.descriptors)
            && (forall x :: Covers(s.free, x) <==> 0 <= x < s.capacity && !Owned(s.descriptors, x))
            && s.occupied == SumBytes(s.descriptors)
            && (Live(s, t) <==> t in ws[n].owners)
  {
    RunSound(ws, es, n);
  }

  /** A ticket that stops being an owner never validates again, however the run goes on. */
  lemma {:induction false} DeadTicketsStayDead(ws: seq<World>, es: seq<Event>, n: nat, m: nat, t: Ticket)
    requires IsRun(ws, es) && n <= m < |ws| && t in ws[n].minted && t !in ws[n].owners
    ensures !Live(ws[m].arena, t) && t in ws[m].minted && t !in ws[m].owners
  {
    hide Valid, Step;
    RunSound(ws, es, m);
    if n < m {
      DeadTicketsStayDead(ws, es, n, m - 1, t);
      RunSound(ws, es, m - 1);
      StepSound(ws[m - 1], es[m - 1]);
    }
  }

  /** A step leaves the descriptor of a ticket alone that lives before and after it. */
  lemma StepKeepsExtent(w: World, e: Event, t: Ticket)
    requires Sound(w) && Live(w.arena, t) && Live(Step(w, e).arena, t)
    ensures Step(w, e).arena.descriptors[t.descriptor] == w.arena.descriptors[t.descriptor]
  {
    hide Valid, Sound;
    assert Valid(w.arena) by { SoundValid(w); }
    match e
    case Alloc(layout, pages) =>
      if Allocate(w.arena, layout, pages).Some? { AllocateValid(w.arena, layout, pages); }
    case Drop(u) =>
      if Live(w.arena, u) { ReleaseValid(w.arena, u); }
    case Cut(u, at) =>
      if CanSplit(w.arena, u, at) {
        SplitValid(w.arena, u, at);
        SplitTiles(w.arena, u, at);
      }
  }

  lemma SoundValid(w: World)
    requires Sound(w)
    ensures Valid(w.arena) && w.owners <= w.minted && forall t :: t in w.owners <==> Live(w.arena, t)
  {
  }

  /** While a ticket lives its allocation stays where it is, however the run goes on: what was read off a live handle
      holds for as long as the handle validates. */
  lemma {:induction false} ExtentFixed(ws: seq<World>, es: seq<Event>, n: nat, m: nat, t: Ticket)
    requires IsRun(ws, es) && n <= m < |ws| && Live(ws[n].arena, t) && Live(ws[m].arena, t)
    ensures ws[m].arena.descriptors[t.descriptor] == ws[n].arena.descriptors[t.descriptor]
  {
    hide Valid, Step, Sound, Live;
    if n < m {
      RunSound(ws, es, m - 1);
      RunSound(ws, es, m);
      SoundValid(ws[m - 1]);
      SoundValid(ws[m]);
      if !Live(ws[m - 1].arena, t) {
        RunSound(ws, es, n);
        SoundValid(ws[n]);
        MintedStays(ws, es, n, m - 1, t);
        DeadTicketsStayDead(ws, es, m - 1, m, t);
        assert false;
      }
      ExtentFixed(ws, es, n, m - 1, t);
      StepKeepsExtent(ws[m - 1], es[m - 1], t);
    }
  }

  lemma {:induction false} MintedStays(ws: seq<World>, es: seq<Event>, n: nat, m: nat, t: Ticket)
    requires IsRun(ws, es) && n <= m < |ws| && t in ws[n].minted
    ensures t in ws[m].minted
  {
    hide Valid, Step, Sound;
    if n < m {
      MintedStays(ws, es, n, m - 1, t);
      RunSound(ws, es, m - 1);
      StepSound(ws[m - 1], es[m - 1]);
    }
  }

  /** The arena as constructed, with nothing handed out. */
  function Initial(capacity: nat, layouts: seq<HostPageLayout>): Arena
    requires capacity > 0 ==> layouts != [] && Smallest(layouts) > 0
  {
    var n := MaxDescriptors(capacity, layouts);
    Arena(capacity, layouts, seq(n, _ => Descriptor(0, 0, 0, 0, 1, false)), seq(n, i => n - 1 - i),
          if capacity == 0 then [] else [Run(0, capacity)], 0, 1)
  }

  lemma {:induction false} NoneLive(ds: seq<Descriptor>)
    requires forall i :: 0 <= i < |ds| ==> !ds[i].active
    ensures SumBytes(ds) == 0 && LiveCount(ds) == 0
  {
    if ds != [] { NoneLive(ds[1..]); }
  }

  lemma InitialTable(n: nat, layouts: seq<HostPageLayout>, capacity: nat)
    requires LayoutsOk(layouts) && (capacity > 0 ==> layouts != []) && n == MaxDescriptors(capacity, layouts)
    ensures var s := Initial(capacity, layouts);
            && |s.descriptors| == n && IdleOk(s.descriptors, s.idle)
            && SumBytes(s.descriptors) == 0 && (forall x :: !Owned(s.descriptors, x))
  {
    var s := Initial(capacity, layouts);
    NoneLive(s.descriptors);
  }

  lemma InitialSound(capacity: nat, layouts: seq<HostPageLayout>)
    requires LayoutsOk(layouts) && capacity <= SIZE_MAX && (capacity > 0 ==> layouts != [])
    ensures Sound(World(Initial(capacity, layouts), {}, {}))
  {
    var s := Initial(capacity, layouts);
    InitialTable(MaxDescriptors(capacity, layouts), layouts, capacity);
    forall x ensures Covers(s.free, x) <==> 0 <= x < capacity { if capacity > 0 { CoversOne(s.free[0], x); } }
    if capacity > 0 && s.descriptors != [] { DivisionGuard(1, Smallest(layouts), capacity); }
    assert Total(s.free) == capacity;
    assert FrontGapFits(s);
    hide MaxDescriptors;
    assert Core(s);
  }
}
