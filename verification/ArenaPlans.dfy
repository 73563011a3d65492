/** Two-phase placement: a plan computed on a copy of the free list, then replayed on the arena. */
module ArenaPlans {
  import opened Common
  import opened Runs
  import opened KvLayout
  import opened ArenaState

  /** A caller may pass a null layout pointer. */
  datatype Request = Request(layout: Option<HostPageLayout>, pages: nat)

  datatype Target = Target(layout: nat, pages: nat, offset: nat, bytes: nat) {
    predicate Has(x: int) { offset <= x < offset + bytes }
  }

  datatype Placed = Placed(targets: seq<Target>, free: seq<Run>)

  // ----- Simulation on a copy of the free list

  function NeedOf(layouts: seq<HostPageLayout>, q: Request): Option<nat> {
    if q.layout.None? then None else RequestBytes(layouts, q.layout.value, q.pages)
  }

  /** One request placed first fit on a free list. */
  function PlaceOne(layouts: seq<HostPageLayout>, free: seq<Run>, q: Request): Option<(Target, seq<Run>)>
    requires LayoutsOk(layouts) && Normal(free)
  {
    var need := NeedOf(layouts, q);
    if need.None? then None else
    var k := FirstFit(free, need.value);
    if k == |free| then None else
    RequestPositive(layouts, q.layout.value, q.pages);
    Some((Target(FindLayout(layouts, q.layout.value), q.pages, free[k].begin, need.value),
          Take(free, k, free[k].begin, need.value)))
  }

  lemma PlaceOneNormal(layouts: seq<HostPageLayout>, free: seq<Run>, q: Request)
    requires LayoutsOk(layouts) && Normal(free) && PlaceOne(layouts, free, q).Some?
    ensures var (target, after) := PlaceOne(layouts, free, q).value;
            && Normal(after) && Total(after) + target.bytes == Total(free)
            && target.layout < |layouts|
            && target.bytes >= layouts[target.layout].pageStride
            && q.layout == Some(layouts[target.layout]) && q.pages == target.pages
  {
    var need := NeedOf(layouts, q).value;
    RequestPositive(layouts, q.layout.value, q.pages);
    var k := FirstFit(free, need);
    TakeCorrect(free, k, free[k].begin, need);
  }

  /** Requests placed in order.  None as soon as one does not fit. */
  function PlaceAll(layouts: seq<HostPageLayout>, free: seq<Run>, qs: seq<Request>): (r: Option<Placed>)
    requires LayoutsOk(layouts) && Normal(free)
    ensures r.Some? ==> Normal(r.value.free) && |r.value.targets| == |qs|
  {
    if qs == [] then Some(Placed([], free)) else
    var before := PlaceAll(layouts, free, qs[..|qs| - 1]);
    if before.None? then None else
    var last := PlaceOne(layouts, before.value.free, qs[|qs| - 1]);
    if last.None? then None else
    PlaceOneNormal(layouts, before.value.free, qs[|qs| - 1]);
    Some(Placed(before.value.targets + [last.value.0], last.value.1))
  }

  lemma {:induction false} PlaceFailureSticks(layouts: seq<HostPageLayout>, free: seq<Run>, qs: seq<Request>, n: nat)
    requires LayoutsOk(layouts) && Normal(free) && n <= |qs| && PlaceAll(layouts, free, qs[..n]).None?
    ensures PlaceAll(layouts, free, qs).None?
  {
    if n == |qs| {
      assert qs[..n] == qs;
    } else {
      assert qs[..|qs| - 1][..n] == qs[..n];
      PlaceFailureSticks(layouts, free, qs[..|qs| - 1], n);
    }
  }

  /** Cells of the free list that no target has taken. */
  ghost predicate Open(free: seq<Run>, targets: seq<Target>, x: int) {
    Covers(free, x) && forall k :: 0 <= k < |targets| ==> !targets[k].Has(x)
  }

  ghost predicate OpenSpan(free: seq<Run>, targets: seq<Target>, begin: int, count: nat) {
    forall x :: begin <= x < begin + count ==> Open(free, targets, x)
  }

  lemma PlaceOneCells(layouts: seq<HostPageLayout>, free: seq<Run>, q: Request)
    requires LayoutsOk(layouts) && Normal(free) && PlaceOne(layouts, free, q).Some?
    ensures var (target, after) := PlaceOne(layouts, free, q).value;
            && Normal(after) && forall x :: Covers(after, x) <==> Covers(free, x) && !target.Has(x)
  {
    hide Normal;
    var need := NeedOf(layouts, q).value;
    RequestPositive(layouts, q.layout.value, q.pages);
    var k := FirstFit(free, need);
    TakeCorrect(free, k, free[k].begin, need);
    forall x ensures Run(free[k].begin, need).Has(x) <==> PlaceOne(layouts, free, q).value.0.Has(x) {}
  }

  /** Placement only takes the cells of its targets off the free list. */
  lemma {:induction false} PlacedCells(layouts: seq<HostPageLayout>, free: seq<Run>, qs: seq<Request>)
    requires LayoutsOk(layouts) && Normal(free) && PlaceAll(layouts, free, qs).Some?
    ensures var plan := PlaceAll(layouts, free, qs).value;
            forall x :: Covers(plan.free, x) <==> Open(free, plan.targets, x)
  {
    hide Normal, Covers, PlaceOne, LayoutsOk;
    if qs != [] {
      var rest, q := qs[..|qs| - 1], qs[|qs| - 1];
      PlacedCells(layouts, free, rest);
      var before, plan := PlaceAll(layouts, free, rest).value, PlaceAll(layouts, free, qs).value;
      PlaceOneCells(layouts, before.free, q);
      forall x ensures Open(free, plan.targets, x) <==> Open(free, before.targets, x) && !plan.targets[|rest|].Has(x) {
        OpenSnoc(free, before.targets, plan.targets[|rest|], x);
      }
    }
  }

  lemma OpenSnoc(free: seq<Run>, targets: seq<Target>, last: Target, x: int)
    ensures Open(free, targets + [last], x) <==> Open(free, targets, x) && !last.Has(x)
  {
    var all := targets + [last];
    assert all[|targets|] == last;
    assert forall k :: 0 <= k < |targets| ==> all[k] == targets[k];
  }

  /** Placement is first fit, request by request: a request that follows others can be placed exactly when its layout
      is supported, its size is a 64-bit number and some place among the free cells that they have left holds it;
      then it gets the lowest such place. */
  lemma PlacementIsFirstFit(layouts: seq<HostPageLayout>, free: seq<Run>, qs: seq<Request>, q: Request)
    requires LayoutsOk(layouts) && Normal(free) && PlaceAll(layouts, free, qs).Some?
    ensures var before, after := PlaceAll(layouts, free, qs).value.targets, PlaceAll(layouts, free, qs + [q]);
            && (after.Some? <==>
                  && q.layout.Some? && q.layout.value in layouts && q.pages > 0
                  && var need := q.layout.value.pageStride * q.pages;
                     need <= SIZE_MAX && exists b :: OpenSpan(free, before, b, need))
            && (after.Some? ==>
                  && q.layout.Some?
                  && var need, t := q.layout.value.pageStride * q.pages, after.value.targets[|qs|];
                     && after.value.targets == before + [t]
                     && OpenSpan(free, before, t.offset, need)
                     && (forall b :: OpenSpan(free, before, b, need) ==> t.offset <= b)
                     && t.bytes == need && t.pages == q.pages
                     && t.layout < |layouts| && layouts[t.layout] == q.layout.value)
  {
    hide Normal, LayoutsOk, Covers, Open, PlaceOne, PlaceAll;
    var before := PlaceAll(layouts, free, qs).value;
    PlaceSnoc(layouts, free, qs, q);
    PlacedCells(layouts, free, qs);
    PlaceOneIsFirstFit(layouts, before.free, q);
    forall b, n: nat ensures Within(before.free, b, n) <==> OpenSpan(free, before.targets, b, n) {}
  }

  lemma PlaceOneIsFirstFit(layouts: seq<HostPageLayout>, free: seq<Run>, q: Request)
    requires LayoutsOk(layouts) && Normal(free)
    ensures PlaceOne(layouts, free, q).Some? <==>
              && q.layout.Some? && q.layout.value in layouts && q.pages > 0
              && var need := q.layout.value.pageStride * q.pages;
                 need <= SIZE_MAX && exists b :: Within(free, b, need)
    ensures PlaceOne(layouts, free, q).Some? ==>
              var need, t := q.layout.value.pageStride * q.pages, PlaceOne(layouts, free, q).value.0;
              && Within(free, t.offset, need) && (forall b :: Within(free, b, need) ==> t.offset <= b)
              && t.bytes == need && t.pages == q.pages && t.layout < |layouts| && layouts[t.layout] == q.layout.value
  {
    hide Normal, LayoutsOk, Within, Take, RequestBytes;
    if q.layout.Some? {
      RequestMeans(layouts, q.layout.value, q.pages);
      var need := q.layout.value.pageStride * q.pages;
      if RequestBytes(layouts, q.layout.value, q.pages).Some? { FirstFitLowest(free, need); }
    }
  }

  lemma PlaceSnoc(layouts: seq<HostPageLayout>, free: seq<Run>, qs: seq<Request>, q: Request)
    requires LayoutsOk(layouts) && Normal(free) && PlaceAll(layouts, free, qs).Some?
    ensures var before := PlaceAll(layouts, free, qs).value;
            var last := PlaceOne(layouts, before.free, q);
            PlaceAll(layouts, free, qs + [q])
            == if last.None? then None else Some(Placed(before.targets + [last.value.0], last.value.1))
  {
    hide Normal, LayoutsOk, PlaceOne;
    assert (qs + [q])[..|qs + [q]| - 1] == qs;
  }

  /** Every target of a plan lies at the lowest place that the free list and the targets before it leave. */
  lemma TargetsAreFirstFit(layouts: seq<HostPageLayout>, free: seq<Run>, qs: seq<Request>, i: nat)
    requires LayoutsOk(layouts) && Normal(free) && PlaceAll(layouts, free, qs).Some? && i < |qs|
    ensures var targets := PlaceAll(layouts, free, qs).value.targets;
            && OpenSpan(free, targets[..i], targets[i].offset, targets[i].bytes)
            && (forall b :: OpenSpan(free, targets[..i], b, targets[i].bytes) ==> targets[i].offset <= b)
            && qs[i].layout.Some? && targets[i].bytes == qs[i].layout.value.pageStride * qs[i].pages
  {
    hide Normal, LayoutsOk, OpenSpan, PlaceAll;
    PlanPrefix(layouts, free, qs, i);
    PlanPrefix(layouts, free, qs, i + 1);
    assert qs[..i + 1] == qs[..i] + [qs[i]];
    PlacementIsFirstFit(layouts, free, qs[..i], qs[i]);
  }

  // ----- The same steps on the arena

  ghost predicate Distinct(ts: seq<Ticket>) {
    forall i, j :: 0 <= i < j < |ts| ==> ts[i] != ts[j]
  }

  ghost predicate Releasable(s: Arena, ts: seq<Ticket>) {
    Distinct(ts) && forall i :: 0 <= i < |ts| ==> Live(s, ts[i])
  }

  function ExtentAt(s: Arena, t: Ticket): Run {
    if t.descriptor < |s.descriptors| then s.descriptors[t.descriptor].Extent() else Run(0, 0)
  }

  function Extents(s: Arena, ts: seq<Ticket>): (r: seq<Run>)
    ensures |r| == |ts|
    ensures forall i :: 0 <= i < |ts| ==> r[i] == ExtentAt(s, ts[i])
  {
    seq(|ts|, i requires 0 <= i < |ts| => ExtentAt(s, ts[i]))
  }

  /** The arena after the allocations are released in order. */
  function ReleaseAll(s: Arena, ts: seq<Ticket>): (r: Arena)
    requires Valid(s) && Releasable(s, ts)
    ensures Valid(r) && r.layouts == s.layouts && r.capacity == s.capacity
    ensures |r.descriptors| == |s.descriptors| && |r.idle| == |s.idle| + |ts|
    ensures forall u :: Live(r, u) <==> Live(s, u) && u !in ts
  {
    hide Valid, Release;
    if ts == [] then s else
    var rest, last := ts[..|ts| - 1], ts[|ts| - 1];
    var before := ReleaseAll(s, rest);
    ReleaseStep(before, last);
    assert ts == rest + [last];
    Release(before, last)
  }

  lemma ReleaseStep(s: Arena, t: Ticket)
    requires Valid(s) && Live(s, t)
    ensures var r := Release(s, t);
            && Valid(r) && r.layouts == s.layouts && r.capacity == s.capacity
            && |r.descriptors| == |s.descriptors| && |r.idle| == |s.idle| + 1
            && (forall u :: Live(r, u) <==> Live(s, u) && u != t)
            && (forall u :: Live(s, u) && u != t ==> r.descriptors[u.descriptor] == s.descriptors[u.descriptor])
  {
    ReleaseValid(s, t);
  }

  /** Releasing some allocations leaves the others as they were. */
  lemma {:induction false} ReleaseAllKeeps(s: Arena, ts: seq<Ticket>, u: Ticket)
    requires Valid(s) && Releasable(s, ts) && Live(s, u) && u !in ts
    ensures ReleaseAll(s, ts).descriptors[u.descriptor] == s.descriptors[u.descriptor]
  {
    hide Valid;
    if ts != [] { ReleaseAllKeeps(s, ts[..|ts| - 1], u); }
  }

  lemma ReleaseNone(s: Arena)
    requires Valid(s)
    ensures Releasable(s, []) && ReleaseAll(s, []) == s
  {
  }

  lemma ReleasableDistinct(s: Arena, ts: seq<Ticket>)
    requires Releasable(s, ts)
    ensures forall i, j :: 0 <= i < j < |ts| ==> ts[i] != ts[j]
    ensures forall n :: 0 <= n <= |ts| ==> Releasable(s, ts[..n])
  {
  }

  lemma ReleaseAllStep(s: Arena, ts: seq<Ticket>, i: nat)
    requires Valid(s) && Releasable(s, ts) && i < |ts|
    ensures Releasable(s, ts[..i]) && Releasable(s, ts[..i + 1])
    ensures Live(ReleaseAll(s, ts[..i]), ts[i])
    ensures ReleaseAll(s, ts[..i + 1]) == Release(ReleaseAll(s, ts[..i]), ts[i])
  {
    hide Valid;
    assert ts[..i + 1][..i] == ts[..i] && ts[i] !in ts[..i];
  }

  /** Simulating releases on a copy of the free list gives the free list of the arena after them. */
  lemma {:induction false} SimulatedReleases(s: Arena, ts: seq<Ticket>)
    requires Valid(s) && Releasable(s, ts)
    ensures ReleaseAll(s, ts).free == InsertAll(s.free, Extents(s, ts))
  {
    hide Valid;
    if ts != [] {
      var rest, last := ts[..|ts| - 1], ts[|ts| - 1];
      SimulatedReleases(s, rest);
      assert Extents(s, ts)[..|ts| - 1] == Extents(s, rest);
      assert last !in rest;
      ReleaseAllKeeps(s, rest, last);
    }
  }

  datatype Adopted = Adopted(arena: Arena, tickets: seq<Ticket>)

  /** The arena after the requests are allocated in order. */
  function AllocateAll(s: Arena, qs: seq<Request>): (r: Option<Adopted>)
    requires Valid(s)
    ensures r.Some? ==> Valid(r.value.arena) && |r.value.tickets| == |qs| && r.value.arena.layouts == s.layouts
  {
    if qs == [] then Some(Adopted(s, [])) else
    var before := AllocateAll(s, qs[..|qs| - 1]);
    var q := qs[|qs| - 1];
    if before.None? || q.layout.None? then None else
    var last := Allocate(before.value.arena, q.layout.value, q.pages);
    if last.None? then None else
    AllocateValid(before.value.arena, q.layout.value, q.pages);
    Some(Adopted(last.value.arena, before.value.tickets + [last.value.ticket]))
  }

  /** One simulated placement is one allocation: no idle descriptor is ever missing. */
  lemma AllocateOneAsPlaced(s: Arena, q: Request)
    requires Valid(s)
    ensures PlaceOne(s.layouts, s.free, q).Some? <==> q.layout.Some? && Allocate(s, q.layout.value, q.pages).Some?
    ensures PlaceOne(s.layouts, s.free, q).Some? ==>
              var (target, free) := PlaceOne(s.layouts, s.free, q).value;
              var a := Allocate(s, q.layout.value, q.pages).value;
              && a.ticket.descriptor < |a.arena.descriptors|
              && a.arena.free == free
              && Holding(a.arena, a.ticket, target)
  {
    if PlaceOne(s.layouts, s.free, q).Some? {
      FitMeansIdle(s, q.layout.value, q.pages);
      AllocateValid(s, q.layout.value, q.pages);
    }
  }

  /** The ticket's allocation is exactly the planned one. */
  predicate Holding(s: Arena, t: Ticket, target: Target) {
    && Live(s, t)
    && s.descriptors[t.descriptor].layout == target.layout
    && s.descriptors[t.descriptor].pages == target.pages
    && s.descriptors[t.descriptor].offset == target.offset
    && s.descriptors[t.descriptor].bytes == target.bytes
  }

  lemma AllocateKeepsHolding(s: Arena, layout: HostPageLayout, pages: nat, t: Ticket, target: Target)
    requires Valid(s) && Allocate(s, layout, pages).Some? && Holding(s, t, target)
    ensures Holding(Allocate(s, layout, pages).value.arena, t, target)
  {
    hide Valid;
    AllocateValid(s, layout, pages);
  }

  /** Every ticket holds what was planned for its request. */
  ghost predicate AllHold(s: Arena, tickets: seq<Ticket>, targets: seq<Target>) {
    |tickets| == |targets| && forall i :: 0 <= i < |tickets| ==> Holding(s, tickets[i], targets[i])
  }

  /** Simulated placement and real allocation of the requests come to the same. */
  ghost predicate AsPlaced(s: Arena, qs: seq<Request>)
    requires Valid(s)
  {
    && (AllocateAll(s, qs).Some? <==> PlaceAll(s.layouts, s.free, qs).Some?)
    && (AllocateAll(s, qs).Some? ==>
          var actual, plan := AllocateAll(s, qs).value, PlaceAll(s.layouts, s.free, qs).value;
          && actual.arena.free == plan.free && |actual.arena.idle| + |qs| == |s.idle|
          && AllHold(actual.arena, actual.tickets, plan.targets))
  }

  lemma HoldSnoc(s: Arena, layout: HostPageLayout, pages: nat, tickets: seq<Ticket>, targets: seq<Target>, last: Target)
    requires Valid(s) && Allocate(s, layout, pages).Some? && AllHold(s, tickets, targets)
    requires var a := Allocate(s, layout, pages).value; Holding(a.arena, a.ticket, last)
    ensures var a := Allocate(s, layout, pages).value; AllHold(a.arena, tickets + [a.ticket], targets + [last])
  {
    hide Valid, Holding, Allocate;
    var a := Allocate(s, layout, pages).value;
    forall i | 0 <= i < |tickets| ensures Holding(a.arena, tickets[i], targets[i]) {
      AllocateKeepsHolding(s, layout, pages, tickets[i], targets[i]);
    }
  }

  lemma AllocateUsesOne(s: Arena, layout: HostPageLayout, pages: nat)
    requires Valid(s) && Allocate(s, layout, pages).Some?
    ensures |Allocate(s, layout, pages).value.arena.idle| + 1 == |s.idle|
  {
  }

  lemma PlacedStep(s: Arena, qs: seq<Request>)
    requires Valid(s) && qs != [] && AsPlaced(s, qs[..|qs| - 1])
    ensures AsPlaced(s, qs)
  {
    hide Valid, PlaceOne, Allocate, Holding, AllHold, LayoutsOk, Normal, Covers, Owned;
    FreeListFacts(s);
    var rest, q := qs[..|qs| - 1], qs[|qs| - 1];
    var before := AllocateAll(s, rest);
    if before.Some? {
      var plan, arena := PlaceAll(s.layouts, s.free, rest).value, before.value.arena;
      AllocateOneAsPlaced(arena, q);
      if PlaceOne(s.layouts, plan.free, q).Some? {
        AllocateUsesOne(arena, q.layout.value, q.pages);
        HoldSnoc(arena, q.layout.value, q.pages, before.value.tickets, plan.targets,
                 PlaceOne(s.layouts, plan.free, q).value.0);
      }
    }
  }

  lemma {:induction false} AllAsPlaced(s: Arena, qs: seq<Request>)
    requires Valid(s)
    ensures AsPlaced(s, qs)
  {
    hide Valid;
    if qs != [] {
      AllAsPlaced(s, qs[..|qs| - 1]);
      PlacedStep(s, qs);
    }
  }

  /** Simulated placement and real allocation agree on success, on every offset and size, and on the
      final free list.  The number of descriptors never comes into it. */
  lemma AllocateAllAsPlaced(s: Arena, qs: seq<Request>)
    requires Valid(s)
    ensures AllocateAll(s, qs).Some? <==> PlaceAll(s.layouts, s.free, qs).Some?
    ensures AllocateAll(s, qs).Some? ==>
              var actual, plan := AllocateAll(s, qs).value, PlaceAll(s.layouts, s.free, qs).value;
              && actual.arena.free == plan.free
              && |actual.arena.idle| + |qs| == |s.idle|
              && forall i :: 0 <= i < |qs| ==> Holding(actual.arena, actual.tickets[i], plan.targets[i])
  {
    hide Valid, AllocateAll, PlaceAll, Holding;
    AllAsPlaced(s, qs);
  }

  // ----- The plan

  /** What plan_after_releases answers: place the requests on the free list the releases would leave. */
  function Plan(s: Arena, ts: seq<Ticket>, qs: seq<Request>): Option<Placed>
    requires Valid(s) && Releasable(s, ts)
  {
    PlaceAll(s.layouts, ReleaseAll(s, ts).free, qs)
  }

  /** The planner's descriptor-count rejection never refuses a placement that the extents admit. */
  lemma PlanNeedsNoCount(s: Arena, ts: seq<Ticket>, qs: seq<Request>)
    requires Valid(s) && Releasable(s, ts) && Plan(s, ts, qs).Some?
    ensures |qs| <= |s.idle| + |ts|
  {
    AllocateAllAsPlaced(ReleaseAll(s, ts), qs);
  }

  /** A plan replayed on the arena it was made for succeeds at every step, gives every target exactly
      its planned place and leaves exactly the simulated free list. */
  lemma PlanReplays(s: Arena, ts: seq<Ticket>, qs: seq<Request>)
    requires Valid(s) && Releasable(s, ts) && Plan(s, ts, qs).Some?
    ensures AllocateAll(ReleaseAll(s, ts), qs).Some?
    ensures var actual, plan := AllocateAll(ReleaseAll(s, ts), qs).value, Plan(s, ts, qs).value;
            && Valid(actual.arena)
            && actual.arena.free == plan.free
            && forall i :: 0 <= i < |qs| ==> Holding(actual.arena, actual.tickets[i], plan.targets[i])
  {
    AllocateAllAsPlaced(ReleaseAll(s, ts), qs);
  }

  /** The target spells out the request it was planned for. */
  ghost predicate Spells(layouts: seq<HostPageLayout>, target: Target, q: Request) {
    && target.layout < |layouts|
    && target.pages > 0
    && q == Request(Some(layouts[target.layout]), target.pages)
    && RequestBytes(layouts, layouts[target.layout], target.pages) == Some(target.bytes)
    && FindLayout(layouts, layouts[target.layout]) == target.layout
  }

  lemma PlaceOneSpells(layouts: seq<HostPageLayout>, free: seq<Run>, q: Request)
    requires LayoutsOk(layouts) && Normal(free) && PlaceOne(layouts, free, q).Some?
    ensures Spells(layouts, PlaceOne(layouts, free, q).value.0, q)
  {
  }

  /** The requests a plan was made for are the ones its targets spell out. */
  lemma {:induction false} PlanTargetsSpellRequests(layouts: seq<HostPageLayout>, free: seq<Run>, qs: seq<Request>)
    requires LayoutsOk(layouts) && Normal(free) && PlaceAll(layouts, free, qs).Some?
    ensures var ts := PlaceAll(layouts, free, qs).value.targets;
            |ts| == |qs| && forall i :: 0 <= i < |ts| ==> Spells(layouts, ts[i], qs[i])
  {
    hide Spells, PlaceOne, LayoutsOk;
    if qs != [] {
      PlanTargetsSpellRequests(layouts, free, qs[..|qs| - 1]);
      PlaceOneSpells(layouts, PlaceAll(layouts, free, qs[..|qs| - 1]).value.free, qs[|qs| - 1]);
    }
  }

  /** A plan's targets for its first requests are the first of its targets. */
  lemma {:induction false} PlanPrefix(layouts: seq<HostPageLayout>, free: seq<Run>, qs: seq<Request>, n: nat)
    requires LayoutsOk(layouts) && Normal(free) && PlaceAll(layouts, free, qs).Some? && n <= |qs|
    ensures PlaceAll(layouts, free, qs[..n]).Some?
    ensures PlaceAll(layouts, free, qs[..n]).value.targets == PlaceAll(layouts, free, qs).value.targets[..n]
  {
    hide LayoutsOk, Normal, PlaceOne;
    if n == |qs| {
      assert qs[..n] == qs;
    } else {
      PlanPrefix(layouts, free, qs[..|qs| - 1], n);
      assert qs[..|qs| - 1][..n] == qs[..n];
    }
  }

  lemma AllocateNone(s: Arena)
    requires Valid(s)
    ensures AllocateAll(s, []) == Some(Adopted(s, []))
  {
  }

  /** What the n-th allocation of a replay does: it succeeds, at the planned place. */
  lemma ReplayStep(s: Arena, qs: seq<Request>, n: nat)
    requires Valid(s) && PlaceAll(s.layouts, s.free, qs).Some? && n < |qs|
    ensures AllocateAll(s, qs[..n]).Some? && AllocateAll(s, qs[..n + 1]).Some?
    ensures var before := AllocateAll(s, qs[..n]).value;
            && qs[n].layout.Some?
            && Allocate(before.arena, qs[n].layout.value, qs[n].pages).Some?
            && var after := Allocate(before.arena, qs[n].layout.value, qs[n].pages).value;
              && AllocateAll(s, qs[..n + 1]) == Some(Adopted(after.arena, before.tickets + [after.ticket]))
              && Holding(after.arena, after.ticket, PlaceAll(s.layouts, s.free, qs).value.targets[n])
  {
    hide Valid, LayoutsOk, Normal, PlaceOne, Allocate, Holding, Covers, Owned, AllocateAll, PlaceAll;
    FreeListFacts(s);
    PlanPrefix(s.layouts, s.free, qs, n);
    PlanPrefix(s.layouts, s.free, qs, n + 1);
    AllocateAllAsPlaced(s, qs[..n]);
    AllocateAllAsPlaced(s, qs[..n + 1]);
    AllocateAllStep(s, qs, n);
  }

  /** AllocateAll, unfolded once. */
  lemma AllocateAllStep(s: Arena, qs: seq<Request>, n: nat)
    requires Valid(s) && n < |qs| && AllocateAll(s, qs[..n + 1]).Some?
    ensures AllocateAll(s, qs[..n]).Some? && qs[n].layout.Some?
    ensures var before := AllocateAll(s, qs[..n]).value;
            && Allocate(before.arena, qs[n].layout.value, qs[n].pages).Some?
            && var after := Allocate(before.arena, qs[n].layout.value, qs[n].pages).value;
              AllocateAll(s, qs[..n + 1]) == Some(Adopted(after.arena, before.tickets + [after.ticket]))
  {
    hide Valid, Allocate;
    assert qs[..n + 1][..n] == qs[..n];
  }

  /** The arena after a recipe: some requests spell its targets, their plan is the recipe's plan, and
      releasing then allocating for real ends exactly here, with exactly the simulated free list. */
  ghost predicate Replayed(s: Arena, ts: seq<Ticket>, targets: seq<Target>, after: Arena)
    requires Valid(s) && Releasable(s, ts)
  {
    exists qs :: ReplayedAs(s, ts, targets, after, qs)
  }

  ghost predicate ReplayedAs(s: Arena, ts: seq<Ticket>, targets: seq<Target>, after: Arena, qs: seq<Request>)
    requires Valid(s) && Releasable(s, ts)
  {
    && Plan(s, ts, qs).Some? && Plan(s, ts, qs).value.targets == targets
    && AllocateAll(ReleaseAll(s, ts), qs).Some?
    && after == AllocateAll(ReleaseAll(s, ts), qs).value.arena
    && after.free == Plan(s, ts, qs).value.free
  }
}
