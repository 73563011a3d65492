/** The host KV arena as the objects that the program updates in place. */
module HostArena {
  import opened Common
  import opened Runs
  import opened Sorting
  import opened KvLayout
  import opened ArenaState
  import opened ArenaTheorems
  import opened ArenaPlans
  import opened ArenaSuballocation
  import opened ArenaCensus

  datatype HostKVAllocationHandle = HostKVAllocationHandle(owner: HostKVArena?, descriptor: nat, generation: nat) {
    function AsTicket(): Ticket { Ticket(descriptor, generation) }
  }

  datatype HostKVSuballocationRelease =
    HostKVSuballocationRelease(allocation: HostKVAllocationHandle, beginPage: nat, pageCount: nat) {
    function AsSub(): Sub { Sub(allocation.AsTicket(), beginPage, pageCount) }
  }

  function Tickets(hs: seq<HostKVAllocationHandle>): (ts: seq<Ticket>)
    ensures |ts| == |hs| && forall i :: 0 <= i < |hs| ==> ts[i] == hs[i].AsTicket()
  {
    seq(|hs|, i requires 0 <= i < |hs| => hs[i].AsTicket())
  }

  function Subs(rs: seq<HostKVSuballocationRelease>): (ss: seq<Sub>)
    ensures |ss| == |rs| && forall i :: 0 <= i < |rs| ==> ss[i] == rs[i].AsSub()
  {
    seq(|rs|, i requires 0 <= i < |rs| => rs[i].AsSub())
  }

  lemma SpliceLeft(list: seq<Run>, p: nat, x: Run, z: Run)
    requires 0 < p <= |list|
    ensures var out := list[..p] + [x] + list[p..];
            out[p - 1] == list[p - 1] && out[p] == x && out[..p - 1] + [z] + out[p + 1..] == Splice(list, p - 1, p, [z])
  {
    var out := list[..p] + [x] + list[p..];
    assert out[..p - 1] == list[..p - 1] && out[p + 1..] == list[p..];
  }

  lemma SpliceRight(list: seq<Run>, lo: nat, p: nat, x: Run, z: Run)
    requires lo <= p < |list|
    ensures var out := Splice(list, lo, p, [x]);
            lo + 1 < |out| && out[lo] == x && out[lo + 1] == list[p]
            && out[..lo] + [z] + out[lo + 2..] == Splice(list, lo, p + 1, [z])
  {
    var out := Splice(list, lo, p, [x]);
    assert out[..lo] == list[..lo] && out[lo + 2..] == list[p + 1..];
  }

  lemma SpliceEnd(list: seq<Run>, lo: nat, p: nat, x: Run)
    requires lo <= p <= |list|
    ensures var out := Splice(list, lo, p, [x]); |out| == lo + 1 + (|list| - p) && out[lo] == x
  {
  }

  /** Coalescing: the first of two neighbours grows over the second, which is erased. */
  method MergeNeighbours(s: seq<Run>, i: nat) returns (out: seq<Run>)
    requires i + 1 < |s|
    ensures out == s[..i] + [Run(s[i].begin, s[i].count + s[i + 1].count)] + s[i + 2..]
  {
    out := s[i := Run(s[i].begin, s[i].count + s[i + 1].count)];
    out := out[..i + 1] + out[i + 2..];
  }

  /** The list edit that release and both planners perform: insert, then coalesce to either side. */
  method InsertExtent(list: seq<Run>, extent: Run) returns (out: seq<Run>)
    ensures out == Insert(list, extent)
  {
    hide LowerBound, Splice;
    var p := LowerBound(list, extent.begin);
    out := list[..p] + [extent] + list[p..];
    assert out == Splice(list, p, p, [extent]) by { PlainSplice(list, p, extent); }
    var inserted := p;
    ghost var left := extent;
    if p > 0 { SpliceLeft(list, p, extent, Run(list[p - 1].begin, list[p - 1].count + extent.count)); }
    if inserted != 0 && out[inserted - 1].End() == out[inserted].begin {
      left := Run(list[p - 1].begin, list[p - 1].count + extent.count);
      out := MergeNeighbours(out, inserted - 1);
      inserted := inserted - 1;
    }
    assert inserted == InsertFrom(list, extent) && out == Splice(list, inserted, p, [left]);
    SpliceEnd(list, inserted, p, left);
    var next := inserted + 1;
    if p < |list| { SpliceRight(list, inserted, p, left, Run(left.begin, left.count + list[p].count)); }
    if next != |out| && out[inserted].End() == out[next].begin {
      out := MergeNeighbours(out, inserted);
    }
  }

  lemma PlainSplice(list: seq<Run>, p: nat, x: Run)
    requires p <= |list|
    ensures list[..p] + [x] + list[p..] == Splice(list, p, p, [x])
  {
  }

  /** Move-only owner of one allocation. */
  class HostKVAllocation {
    var owner: HostKVArena?
    var descriptor: nat
    var generation: nat

    constructor (owner: HostKVArena?, descriptor: nat, generation: nat)
      ensures this.owner == owner && this.descriptor == descriptor && this.generation == generation
    {
      this.owner, this.descriptor, this.generation := owner, descriptor, generation;
    }

    function Handle(): HostKVAllocationHandle
      reads this
    {
      if owner != null then HostKVAllocationHandle(owner, descriptor, generation)
      else HostKVAllocationHandle(null, 0, 0)
    }

    /** Returns the bytes if the allocation is still the live one, and disarms the owner either way. */
    method Release() returns (released: bool)
      requires owner != null ==> owner.Valid()
      modifies this, if owner == null then {} else {owner}
      ensures (owner == null && descriptor == 0 && generation == 0) || (old(owner) == null && unchanged(this))
      ensures owner == null
      ensures released <==> old(owner != null && Live(owner.State(), Handle().AsTicket()))
      ensures old(owner) != null ==> old(owner).Valid() && old(owner).Extends(old(owner.history))
      ensures released ==> old(owner).State() == old(ArenaState.Release(owner.State(), Handle().AsTicket()))
      ensures !released && old(owner) != null ==> unchanged(old(owner))
    {
      hide ArenaState.Valid;
      if owner == null { return false; }
      released := owner.ReleaseDescriptor(descriptor, generation);
      owner, descriptor, generation := null, 0, 0;
    }
  }

  /** A plan bound to one revision of one arena. */
  class HostKVAllocationRecipe {
    var owner: HostKVArena?
    var arenaRevision: nat
    var releases: seq<HostKVAllocationHandle>
    var targets: seq<Target>

    constructor (owner: HostKVArena?, arenaRevision: nat, releases: seq<HostKVAllocationHandle>, targets: seq<Target>)
      ensures this.owner == owner && this.arenaRevision == arenaRevision
      ensures this.releases == releases && this.targets == targets
    {
      this.owner, this.arenaRevision, this.releases, this.targets := owner, arenaRevision, releases, targets;
    }
  }

  class HostKVArena {
    const capacityBytes: nat
    const layouts: seq<HostPageLayout>
    /** What the constructor reserved for freeExtents. */
    const extentCapacity: nat
    var occupiedBytes: nat
    var descriptors: seq<Descriptor>
    var freeDescriptors: seq<nat>
    var freeExtents: seq<Run>
    var revision: nat
    /** The state at every revision so far. */
    ghost var history: map<nat, Arena>

    function State(): Arena
      reads this
    {
      Arena(capacityBytes, layouts, descriptors, freeDescriptors, freeExtents, occupiedBytes, revision)
    }

    ghost predicate Valid()
      reads this
    {
      && ArenaState.Valid(State())
      && extentCapacity == |descriptors| + 1
      && revision in history && history[revision] == State()
      && forall r :: r in history ==> r <= revision && ArenaState.Valid(history[r])
    }

    lemma StateValid()
      requires Valid()
      ensures ArenaState.Valid(State())
    {
    }

    /** No state of the past is rewritten. */
    ghost predicate Extends(past: map<nat, Arena>)
      reads this
    {
      forall r :: r in past ==> r in history && history[r] == past[r]
    }

    /** An accepted configuration. */
    constructor (capacity: nat, supported: seq<HostPageLayout>)
      requires LayoutsOk(supported) && capacity <= SIZE_MAX && (capacity > 0 ==> supported != [])
      ensures Valid() && State() == Initial(capacity, supported)
    {
      capacityBytes, layouts := capacity, supported;
      occupiedBytes, revision := 0, 1;
      var maximum := MaxDescriptors(capacity, supported);
      extentCapacity := maximum + 1;
      descriptors := seq(maximum, _ => Descriptor(0, 0, 0, 0, 1, false));
      freeDescriptors := seq(maximum, i => maximum - 1 - i);
      freeExtents := if capacity == 0 then [] else [Run(0, capacity)];
      history := map[1 := Initial(capacity, supported)];
      new;
      InitialSound(capacity, supported);
      assert descriptors == Initial(capacity, supported).descriptors;
      assert freeDescriptors == Initial(capacity, supported).idle;
    }

    /** The checks of the constructor: what it accepts, and nothing else. */
    static method Create(capacity: nat, supported: seq<HostPageLayout>) returns (r: Result<HostKVArena>)
      requires capacity <= SIZE_MAX
      ensures r.Ok? <==> Accepted(capacity, supported)
      ensures r.Ok? ==> fresh(r.value) && r.value.Valid() && r.value.State() == Initial(capacity, supported)
    {
      hide LayoutsOk, LayoutsPlanned, MaxDescriptors, Initial, PlanLayout;
      assert LayoutsPlanned(supported[..0]) by { EmptyLayouts(); }
      for index := 0 to |supported|
        invariant LayoutsPlanned(supported[..index])
      {
        var planned := PlanHostKVPageLayout(supported[index].geometry);
        if planned != Ok(supported[index]) {
          LayoutRejected(supported, index, index);
          return Err(if planned.Err? then planned.error else InvalidArgument);
        }
        for previous := 0 to index
          invariant forall k :: 0 <= k < previous ==> supported[k] != supported[index]
        {
          if supported[previous] == supported[index] {
            LayoutRejected(supported, index, previous);
            return Err(InvalidArgument);
          }
        }
        LayoutAccepted(supported, index);
      }
      assert supported[..|supported|] == supported;
      PlannedLayouts(supported);
      if capacity != 0 && supported == [] { return Err(InvalidArgument); }
      if supported != [] { SmallestPositive(supported); }
      if MaxDescriptors(capacity, supported) > UINT32_MAX { return Err(OverflowError); }
      var arena := new HostKVArena(capacity, supported);
      r := Ok(arena);
    }

    static lemma PlannedLayouts(supported: seq<HostPageLayout>)
      requires LayoutsPlanned(supported)
      ensures LayoutsOk(supported)
    {
      hide PlanLayout;
    }

    static lemma EmptyLayouts()
      ensures LayoutsPlanned([])
    {
    }

    static ghost predicate Accepted(capacity: nat, supported: seq<HostPageLayout>) {
      && LayoutsPlanned(supported)
      && (capacity > 0 ==> supported != [])
      && MaxDescriptors(capacity, supported) <= UINT32_MAX
    }

    function ValidHandle(handle: HostKVAllocationHandle): bool
      reads this
    {
      handle.owner == this && Live(State(), handle.AsTicket())
    }

    method FindFreeExtent(bytes: nat) returns (index: nat)
      ensures index == FirstFit(freeExtents, bytes)
    {
      for i := 0 to |freeExtents|
        invariant FirstFit(freeExtents, bytes) >= i
      {
        if freeExtents[i].count >= bytes { return i; }
      }
      index := |freeExtents|;
    }

    method TakeDescriptor() returns (index: Option<nat>)
      modifies this`freeDescriptors
      ensures old(freeDescriptors) == [] ==> index.None? && freeDescriptors == old(freeDescriptors)
      ensures old(freeDescriptors) != [] ==>
                index == Some(old(freeDescriptors)[|old(freeDescriptors)| - 1])
                && freeDescriptors == old(freeDescriptors)[..|old(freeDescriptors)| - 1]
    {
      if freeDescriptors == [] { return None; }
      index := Some(freeDescriptors[|freeDescriptors| - 1]);
      freeDescriptors := freeDescriptors[..|freeDescriptors| - 1];
    }

    method BumpRevision(ghost next: Arena)
      requires ArenaState.Valid(next) && next == State().(revision := revision + 1)
      requires forall r :: r in history ==> r <= revision && ArenaState.Valid(history[r])
      requires extentCapacity == |descriptors| + 1
      modifies this`revision, this`history
      ensures Valid() && State() == next && Extends(old(history)) && revision == old(revision) + 1
    {
      revision := revision + 1;
      history := history[revision := next];
    }

    /** True exactly when allocate would succeed. */
    method CanAllocate(layout: HostPageLayout, pages: nat) returns (ok: bool)
      requires Valid()
      ensures ok <==> ArenaState.Allocate(State(), layout, pages).Some?
    {
      hide ArenaState.Valid;
      if pages == 0 || freeDescriptors == [] || FindLayout(layouts, layout) == |layouts|
         || layout.pageStride > SIZE_MAX / pages {
        return false;
      }
      var index := FindFreeExtent(layout.pageStride * pages);
      ok := index < |freeExtents|;
    }

    method Allocate(layout: HostPageLayout, pages: nat) returns (r: HostKVAllocation?)
      requires Valid()
      modifies this
      ensures Valid() && Extends(old(history))
      ensures r == null <==> old(ArenaState.Allocate(State(), layout, pages)).None?
      ensures r == null ==> unchanged(this)
      ensures r != null ==>
                && fresh(r)
                && State() == old(ArenaState.Allocate(State(), layout, pages)).value.arena
                && r.Handle() == HostKVAllocationHandle(this, r.descriptor, r.generation)
                && r.Handle().AsTicket() == old(ArenaState.Allocate(State(), layout, pages)).value.ticket
    {
      hide ArenaState.Valid, LayoutsOk, Normal, Covers, Take, FirstFit, FindLayout, Live, MaxDescriptors;
      LayoutFacts(State());
      var layoutIndex := FindLayout(layouts, layout);
      if layoutIndex == |layouts| || pages == 0 || freeDescriptors == [] || layout.pageStride > SIZE_MAX / pages {
        return null;
      }
      var bytes := layout.pageStride * pages;
      var freeIndex := FindFreeExtent(bytes);
      if freeIndex == |freeExtents| { return null; }
      ghost var planned := ArenaState.Allocate(State(), layout, pages).value;
      AllocateValid(State(), layout, pages);
      RequestPositive(layouts, layout, pages);
      IdleFacts(State());

      var taken := TakeDescriptor();
      var index := taken.value;
      var offset := freeExtents[freeIndex].begin;
      if freeExtents[freeIndex].count == bytes {
        freeExtents := freeExtents[..freeIndex] + freeExtents[freeIndex + 1..];
      } else {
        freeExtents := freeExtents[freeIndex := Run(offset + bytes, freeExtents[freeIndex].count - bytes)];
      }
      TakeFront(old(freeExtents), freeIndex, bytes);
      descriptors := descriptors[index := Descriptor(offset, bytes, layoutIndex, pages, descriptors[index].generation,
                                                     true)];
      occupiedBytes := occupiedBytes + bytes;
      BumpRevision(planned.arena);
      r := new HostKVAllocation(this, index, descriptors[index].generation);
    }

    /** First fit takes the front of an extent: shorten it, or drop it when nothing is left. */
    static lemma TakeFront(free: seq<Run>, k: nat, n: nat)
      requires k < |free| && 0 < n <= free[k].count
      ensures Take(free, k, free[k].begin, n)
           == if free[k].count == n then free[..k] + free[k + 1..]
              else free[k := Run(free[k].begin + n, free[k].count - n)]
    {
    }

    /** The vector was reserved for extentCapacity extents: the insert never makes it longer. */
    method InsertFreeExtent(extent: Run)
      requires |freeExtents| + 1 <= extentCapacity
      modifies this`freeExtents
      ensures freeExtents == Insert(old(freeExtents), extent)
    {
      freeExtents := InsertExtent(freeExtents, extent);
    }

    method ReleaseDescriptor(index: nat, generation: nat) returns (released: bool)
      requires Valid()
      modifies this
      ensures Valid() && Extends(old(history))
      ensures released <==> old(Live(State(), Ticket(index, generation)))
      ensures released ==> State() == old(ArenaState.Release(State(), Ticket(index, generation)))
      ensures !released ==> unchanged(this)
    {
      hide ArenaState.Valid;
      if index >= |descriptors| { return false; }
      if !descriptors[index].active || descriptors[index].generation != generation { return false; }
      ghost var next := ArenaState.Release(State(), Ticket(index, generation));
      ReleaseValid(State(), Ticket(index, generation));
      LiveCounted(State(), Ticket(index, generation));
      InsertNeverGrows(State());
      SumBytesAtLeast(descriptors, index);

      var extent := descriptors[index].Extent();
      occupiedBytes := occupiedBytes - descriptors[index].bytes;
      descriptors := descriptors[index := Retired(descriptors[index])];
      freeDescriptors := freeDescriptors + [index];
      InsertFreeExtent(extent);
      BumpRevision(next);
      released := true;
    }

    /** Splitting consumes the old owner and never runs out of descriptors. */
    method Split(allocation: HostKVAllocation, at: nat)
      returns (r: Result<(HostKVAllocation, HostKVAllocation)>)
      requires Valid()
      modifies this, allocation
      ensures Valid() && Extends(old(history))
      ensures r.Ok? <==> old(ValidHandle(allocation.Handle()) && CanSplit(State(), allocation.Handle().AsTicket(), at))
      ensures !old(ValidHandle(allocation.Handle())) ==> r == Err(InvalidArgument)
      ensures r.Err? && old(ValidHandle(allocation.Handle())) ==> r == Err(OutOfRange)
      ensures r.Err? ==> unchanged(this) && unchanged(allocation)
      ensures r.Ok? ==>
                && fresh(r.value.0) && fresh(r.value.1) && allocation.owner == null
                && r.value.0.owner == this && r.value.1.owner == this
                && var h := old(ArenaState.Split(State(), allocation.Handle().AsTicket(), at));
                  State() == h.arena && r.value.0.Handle().AsTicket() == h.left
                  && r.value.1.Handle().AsTicket() == h.right
    {
      hide ArenaState.Valid, RightHalf, LeftHalf, Smallest, StrideOf;
      if !ValidHandle(allocation.Handle()) { return Err(InvalidArgument); }
      var index := allocation.descriptor;
      if at == 0 || at >= descriptors[index].pages { return Err(OutOfRange); }
      var t := allocation.Handle().AsTicket();
      SplitHasDescriptor(State(), t, at);
      SplitValid(State(), t, at);
      IdleFacts(State());
      DescriptorFacts(State(), t);
      ghost var h := ArenaState.Split(State(), t, at);
      var taken := TakeDescriptor();
      if taken.None? {
        // The descriptor capacity error of the program.
        assert false;
        return Err(LogicError);
      }
      var original := descriptors[index];
      var stride := layouts[original.layout].pageStride;
      descriptors := descriptors[taken.value := RightHalf(original, at, stride, descriptors[taken.value].generation)];
      descriptors := descriptors[index := LeftHalf(descriptors[index], at, stride)];
      allocation.owner, allocation.descriptor, allocation.generation := null, 0, 0;
      BumpRevision(h.arena);
      var left := new HostKVAllocation(this, index, descriptors[index].generation);
      var right := new HostKVAllocation(this, taken.value, descriptors[taken.value].generation);
      r := Ok((left, right));
    }

    // ----- Plan and apply

    /** The recipe was planned by this arena, at a revision it has passed through. */
    ghost predicate Minted(recipe: HostKVAllocationRecipe)
      reads this, recipe
    {
      && recipe.arenaRevision in history
      && ArenaState.Valid(history[recipe.arenaRevision])
      && (forall i :: 0 <= i < |recipe.releases| ==> recipe.releases[i].owner == this)
      && Releasable(history[recipe.arenaRevision], Tickets(recipe.releases))
      && exists qs :: PlannedAs(recipe, qs)
    }

    ghost predicate PlannedAs(recipe: HostKVAllocationRecipe, qs: seq<Request>)
      requires recipe.arenaRevision in history && ArenaState.Valid(history[recipe.arenaRevision])
      requires Releasable(history[recipe.arenaRevision], Tickets(recipe.releases))
      reads this, recipe
    {
      var plan := Plan(history[recipe.arenaRevision], Tickets(recipe.releases), qs);
      plan.Some? && plan.value.targets == recipe.targets
    }

    /** Handles of live allocations of this arena, no two alike. */
    ghost predicate ReleasableHandles(hs: seq<HostKVAllocationHandle>)
      reads this
    {
      && (forall i :: 0 <= i < |hs| ==> hs[i].owner == this)
      && Releasable(State(), Tickets(hs))
    }

    /** One simulated first-fit placement, as both planners perform it. */
    method PlaceRequest(simulated: seq<Run>, request: Request) returns (r: Option<(Target, seq<Run>)>)
      requires LayoutsOk(layouts) && Normal(simulated)
      ensures r == PlaceOne(layouts, simulated, request)
    {
      if request.layout.None? || request.pages == 0 { return None; }
      var layout := request.layout.value;
      var layoutIndex := FindLayout(layouts, layout);
      if layoutIndex == |layouts| || layout.pageStride > SIZE_MAX / request.pages { return None; }
      var bytes := layout.pageStride * request.pages;
      RequestPositive(layouts, layout, request.pages);
      var k := FirstFit(simulated, bytes);
      if k == |simulated| { return None; }
      var offset := simulated[k].begin;
      TakeFront(simulated, k, bytes);
      var after := if simulated[k].count == bytes then simulated[..k] + simulated[k + 1..]
                   else simulated[k := Run(offset + bytes, simulated[k].count - bytes)];
      r := Some((Target(layoutIndex, request.pages, offset, bytes), after));
    }

    /** The placement loop of both planners, on a copy of the free list. */
    method PlaceRequests(start: seq<Run>, requests: seq<Request>) returns (r: Option<Placed>)
      requires LayoutsOk(layouts) && Normal(start)
      ensures r == PlaceAll(layouts, start, requests)
    {
      hide LayoutsOk, PlaceOne, Normal;
      var simulated := start;
      var targets: seq<Target> := [];
      for i := 0 to |requests|
        invariant PlaceAll(layouts, start, requests[..i]) == Some(Placed(targets, simulated))
        invariant Normal(simulated)
      {
        var placed := PlaceRequest(simulated, requests[i]);
        assert requests[..i + 1][..i] == requests[..i];
        if placed.None? {
          PlaceFailureSticks(layouts, start, requests, i + 1);
          return None;
        }
        targets, simulated := targets + [placed.value.0], placed.value.1;
      }
      assert requests[..|requests|] == requests;
      r := Some(Placed(targets, simulated));
    }

    /** A recipe exactly when the releases are good and the free extents they would leave take every
        target in order.  The descriptor count is tested first, and never matters. */
    method PlanAfterReleases(proposed: seq<HostKVAllocationHandle>, requests: seq<Request>)
      returns (recipe: HostKVAllocationRecipe?)
      requires Valid()
      ensures recipe != null <==>
                && (proposed != [] || requests != [])
                && ReleasableHandles(proposed)
                && Plan(State(), Tickets(proposed), requests).Some?
      ensures recipe != null ==>
                && fresh(recipe)
                && recipe.owner == this && recipe.arenaRevision == revision
                && recipe.releases == proposed
                && recipe.targets == Plan(State(), Tickets(proposed), requests).value.targets
                && Minted(recipe)
    {
      hide ArenaState.Valid, LayoutsOk, PlaceOne, Normal;
      FreeListFacts(State());
      if proposed == [] && requests == [] { return null; }
      if |requests| > |freeDescriptors| + |proposed| {
        if ReleasableHandles(proposed) && Plan(State(), Tickets(proposed), requests).Some? {
          PlanNeedsNoCount(State(), Tickets(proposed), requests);
        }
        return null;
      }
      var simulated := SimulateReleases(proposed);
      if simulated.None? { return null; }
      var free := simulated.value;
      ghost var s := State();
      ghost var ts := Tickets(proposed);
      FreeListFacts(ReleaseAll(s, ts));
      SimulatedReleases(s, ts);
      var placed := PlaceRequests(free, requests);
      if placed.None? { return null; }
      recipe := new HostKVAllocationRecipe(this, revision, proposed, placed.value.targets);
      assert PlannedAs(recipe, requests);
    }

    lemma NoneReleasable()
      ensures ReleasableHandles([]) && InsertAll(freeExtents, []) == freeExtents
    {
    }

    lemma ReleasableStep(hs: seq<HostKVAllocationHandle>, i: nat)
      requires i < |hs| && ReleasableHandles(hs[..i]) && ValidHandle(hs[i]) && hs[i] !in hs[..i]
      ensures ReleasableHandles(hs[..i + 1])
      ensures Extents(State(), Tickets(hs[..i + 1]))
           == Extents(State(), Tickets(hs[..i])) + [descriptors[hs[i].descriptor].Extent()]
    {
      var before, after := hs[..i], hs[..i + 1];
      assert after == before + [hs[i]];
      assert Tickets(after) == Tickets(before) + [hs[i].AsTicket()];
      forall j | 0 <= j < i ensures Tickets(before)[j] != hs[i].AsTicket() {
        assert before[j].owner == this && before[j] != hs[i];
      }
    }

    lemma NotReleasable(hs: seq<HostKVAllocationHandle>, i: nat)
      requires i < |hs| && (!ValidHandle(hs[i]) || hs[i] in hs[..i])
      ensures !ReleasableHandles(hs)
    {
      var ts := Tickets(hs);
      assert ts[i] == hs[i].AsTicket();
      if hs[i] in hs[..i] {
        var j :| 0 <= j < i && hs[j] == hs[i];
        assert ts[i] == ts[j];
      }
    }

    /** The releases inserted one by one into a copy of the free list; None if a handle is bad. */
    method SimulateReleases(proposed: seq<HostKVAllocationHandle>) returns (simulated: Option<seq<Run>>)
      requires Valid()
      ensures simulated.Some? <==> ReleasableHandles(proposed)
      ensures simulated.Some? ==> simulated.value == InsertAll(freeExtents, Extents(State(), Tickets(proposed)))
    {
      hide ArenaState.Valid, Insert, InsertAll, ReleasableHandles, ExtentAt, Valid;
      var free := freeExtents;
      ghost var s := State();
      NoneReleasable();
      ghost var extents: seq<Run> := [];
      assert proposed[..0] == [];
      for i := 0 to |proposed|
        invariant ReleasableHandles(proposed[..i])
        invariant extents == Extents(s, Tickets(proposed[..i]))
        invariant free == InsertAll(freeExtents, extents)
      {
        var handle := proposed[i];
        if !ValidHandle(handle) || handle in proposed[..i] {
          NotReleasable(proposed, i);
          return None;
        }
        ReleasableStep(proposed, i);
        free := InsertExtent(free, descriptors[handle.descriptor].Extent());
        InsertAllSnoc(freeExtents, extents, descriptors[handle.descriptor].Extent());
        extents := extents + [descriptors[handle.descriptor].Extent()];
      }
      assert proposed[..|proposed|] == proposed;
      simulated := Some(free);
    }

    predicate TargetFits(target: Target) {
      && target.layout < |layouts| && target.pages != 0
      && layouts[target.layout].pageStride <= SIZE_MAX / target.pages
      && layouts[target.layout].pageStride * target.pages == target.bytes
    }

    /** The validation pass of apply_recipe: nothing has been touched yet. */
    method RecipeFits(recipe: HostKVAllocationRecipe, proposed: seq<HostKVAllocation?>, outputs: seq<HostKVAllocation>)
      returns (ok: bool)
      requires Valid() && (recipe.owner == this ==> Minted(recipe))
      ensures ok <==>
                && recipe.owner == this && recipe.arenaRevision == revision
                && Matches(recipe, proposed)
                && |recipe.targets| == |outputs|
                && forall i :: 0 <= i < |outputs| ==> outputs[i].owner == null
    {
      hide ArenaState.Valid, Valid, Minted, TargetFits;
      if recipe.owner != this || recipe.arenaRevision != revision || |recipe.releases| != |proposed|
         || |recipe.targets| != |outputs| {
        return false;
      }
      for i := 0 to |proposed|
        invariant forall k :: 0 <= k < i ==> proposed[k] != null && proposed[k].Handle() == recipe.releases[k]
      {
        var allocation := proposed[i];
        if allocation == null || allocation.Handle() != recipe.releases[i] || !ValidHandle(recipe.releases[i]) {
          if allocation != null && allocation.Handle() == recipe.releases[i] { MintedHandle(recipe, i); }
          return false;
        }
      }
      for i := 0 to |outputs|
        invariant forall k :: 0 <= k < i ==> outputs[k].owner == null
      {
        MintedTarget(recipe, i);
        if outputs[i].owner != null || !TargetFits(recipe.targets[i]) { return false; }
      }
      ok := true;
    }

    /** The caller presents, in order, the owners of exactly the planned releases. */
    ghost predicate Matches(recipe: HostKVAllocationRecipe, proposed: seq<HostKVAllocation?>)
      reads recipe, proposed
    {
      && |recipe.releases| == |proposed|
      && forall i :: 0 <= i < |proposed| ==> proposed[i] != null && proposed[i].Handle() == recipe.releases[i]
    }

    lemma MatchesAt(recipe: HostKVAllocationRecipe, proposed: seq<HostKVAllocation?>)
      requires Matches(recipe, proposed) && Minted(recipe)
      ensures |Tickets(recipe.releases)| == |proposed|
      ensures forall i :: 0 <= i < |proposed| ==>
                && proposed[i] != null && proposed[i].owner == this
                && proposed[i].Handle().AsTicket() == Tickets(recipe.releases)[i]
    {
      hide ArenaState.Valid, Plan, Releasable;
    }

    lemma MintedHandle(recipe: HostKVAllocationRecipe, i: nat)
      requires Valid() && Minted(recipe) && recipe.arenaRevision == revision && i < |recipe.releases|
      ensures ValidHandle(recipe.releases[i])
    {
      hide ArenaState.Valid;
      assert Live(State(), Tickets(recipe.releases)[i]);
    }

    lemma MintedPlan(recipe: HostKVAllocationRecipe) returns (qs: seq<Request>)
      requires Valid() && Minted(recipe) && recipe.arenaRevision == revision
      ensures var ts := Tickets(recipe.releases);
              Releasable(State(), ts) && Plan(State(), ts, qs).Some?
              && Plan(State(), ts, qs).value.targets == recipe.targets
    {
      hide ArenaState.Valid;
      qs :| PlannedAs(recipe, qs);
    }

    lemma MintedTarget(recipe: HostKVAllocationRecipe, i: nat)
      requires Valid() && Minted(recipe) && recipe.arenaRevision == revision && i < |recipe.targets|
      ensures TargetFits(recipe.targets[i])
    {
      hide ArenaState.Valid;
      var s, ts := State(), Tickets(recipe.releases);
      var qs :| PlannedAs(recipe, qs);
      FreeListFacts(ReleaseAll(s, ts));
      PlanTargetsSpellRequests(layouts, ReleaseAll(s, ts).free, qs);
    }

    /** Releases every proposed allocation.  None of them can refuse. */
    method ReleaseProposed(proposed: seq<HostKVAllocation?>, ghost ts: seq<Ticket>)
      requires Valid() && Releasable(State(), ts) && |ts| == |proposed|
      requires forall i :: 0 <= i < |proposed| ==>
                 proposed[i] != null && proposed[i].owner == this && proposed[i].Handle().AsTicket() == ts[i]
      modifies this, set i | 0 <= i < |proposed| :: proposed[i]
      ensures Valid() && Extends(old(history))
      ensures State() == ReleaseAll(old(State()), ts)
      ensures forall i :: 0 <= i < |proposed| ==> proposed[i].owner == null
    {
      hide ArenaState.Valid, ArenaState.Release, ReleaseAll, Releasable, Live, Valid;
      ghost var s := State();
      StateValid();
      ReleaseNone(s);
      ReleasableDistinct(s, ts);
      assert ts[..0] == [];
      for i := 0 to |proposed|
        invariant Valid() && Extends(old(history))
        invariant State() == ReleaseAll(s, ts[..i])
        invariant forall k :: 0 <= k < i ==> proposed[k].owner == null
        invariant forall k :: i <= k < |proposed| ==>
                    proposed[k].owner == this && proposed[k].Handle().AsTicket() == ts[k]
      {
        ReleaseAllStep(s, ts, i);
        forall k | i < k < |proposed| ensures proposed[k] != proposed[i] { assert ts[k] != ts[i]; }
        var released := proposed[i].Release();
        if !released {
          // std::terminate in the program.
          assert false;
        }
      }
      assert ts[..|proposed|] == ts;
    }

    /** Allocates every target into its output.  Each one lands where it was planned. */
    method AdoptTargets(targets: seq<Target>, outputs: seq<HostKVAllocation>, ghost qs: seq<Request>)
      requires Valid() && |targets| == |outputs| == |qs|
      requires PlaceAll(layouts, freeExtents, qs).Some? && PlaceAll(layouts, freeExtents, qs).value.targets == targets
      requires forall i, j :: 0 <= i < j < |outputs| ==> outputs[i] != outputs[j]
      requires forall i :: 0 <= i < |outputs| ==> outputs[i].owner == null
      modifies this, outputs
      ensures Valid() && Extends(old(history))
      ensures AllocateAll(old(State()), qs).Some? && State() == AllocateAll(old(State()), qs).value.arena
      ensures forall i :: 0 <= i < |outputs| ==>
                outputs[i].owner == this && Holding(State(), outputs[i].Handle().AsTicket(), targets[i])
    {
      hide ArenaState.Valid, ArenaState.Allocate, PlaceAll, Holding, AllocateAll, LayoutsOk, Normal, Valid, Covers,
           Owned, RequestBytes, FindLayout;
      ghost var s := State();
      StateValid();
      FreeListFacts(s);
      AllocateNone(s);
      PlanTargetsSpellRequests(layouts, freeExtents, qs);
      assert qs[..0] == [];
      for i := 0 to |targets|
        invariant Valid() && Extends(old(history))
        invariant AllocateAll(s, qs[..i]).Some? && State() == AllocateAll(s, qs[..i]).value.arena
        invariant forall k :: 0 <= k < i ==>
                    outputs[k].owner == this
                    && outputs[k].Handle().AsTicket() == AllocateAll(s, qs[..i]).value.tickets[k]
        invariant forall k :: i <= k < |outputs| ==> outputs[k].owner == null
      {
        ReplayStep(s, qs, i);
        AdoptTarget(targets[i], outputs[i]);
      }
      assert qs[..|targets|] == qs;
      AllocateAllAsPlaced(s, qs);
    }

    /** One target of a recipe, allocated into its output. */
    method AdoptTarget(target: Target, output: HostKVAllocation)
      requires Valid() && target.layout < |layouts| && output.owner == null
      requires ArenaState.Allocate(State(), layouts[target.layout], target.pages).Some?
      requires var next := ArenaState.Allocate(State(), layouts[target.layout], target.pages).value;
               Holding(next.arena, next.ticket, target)
      modifies this, output
      ensures Valid() && Extends(old(history))
      ensures var next := old(ArenaState.Allocate(State(), layouts[target.layout], target.pages)).value;
              && State() == next.arena
              && output.owner == this && output.Handle().AsTicket() == next.ticket
    {
      hide ArenaState.Valid, ArenaState.Allocate, Holding, Valid;
      var allocation := Allocate(layouts[target.layout], target.pages);
      if allocation == null {
        // std::terminate in the program.
        assert false;
      }
      CheckPlace(allocation, target);
      output.owner, output.descriptor, output.generation :=
        allocation.owner, allocation.descriptor, allocation.generation;
      allocation.owner, allocation.descriptor, allocation.generation := null, 0, 0;
    }

    /** The last terminate of apply_recipe: the new descriptor is where it was planned. */
    method CheckPlace(allocation: HostKVAllocation, target: Target)
      requires allocation.owner == this && Holding(State(), allocation.Handle().AsTicket(), target)
    {
      var descriptor := descriptors[allocation.descriptor];
      if descriptor.offset != target.offset || descriptor.bytes != target.bytes {
        // std::terminate in the program.
        assert false;
      }
    }

    /** Adopts a recipe all at once or not at all.  Aliases among the proposed owners and the outputs
        are allowed; no terminate is reachable; every target gets exactly its planned place. */
    method ApplyRecipe(recipe: HostKVAllocationRecipe, proposed: seq<HostKVAllocation?>, outputs: seq<HostKVAllocation>)
      returns (ok: bool)
      requires Valid() && (recipe.owner == this ==> Minted(recipe))
      requires forall i, j :: 0 <= i < j < |outputs| ==> outputs[i] != outputs[j]
      modifies this, recipe, outputs, set i | 0 <= i < |proposed| :: proposed[i]
      ensures Valid() && Extends(old(history))
      ensures ok <==> old(
                && recipe.owner == this && recipe.arenaRevision == revision
                && Matches(recipe, proposed)
                && |recipe.targets| == |outputs|
                && forall i :: 0 <= i < |outputs| ==> outputs[i].owner == null)
      ensures !ok ==> unchanged(this) && unchanged(recipe) && unchanged(outputs)
                      && forall i :: 0 <= i < |proposed| && proposed[i] != null ==> unchanged(proposed[i])
      ensures ok ==>
                && Replayed(old(State()), old(Tickets(recipe.releases)), old(recipe.targets), State())
                && recipe.owner == null
                && (forall i :: 0 <= i < |proposed| ==> proposed[i].owner == null)
                && forall i :: 0 <= i < |outputs| ==>
                     && outputs[i].owner == this
                     && Holding(State(), outputs[i].Handle().AsTicket(), old(recipe.targets)[i])
    {
      hide ArenaState.Valid, Holding, Valid, Minted, Releasable, Matches, ReleaseAll, AllocateAll, PlaceAll;
      StateValid();
      ok := RecipeFits(recipe, proposed, outputs);
      if !ok { return; }
      ghost var s, ts := State(), Tickets(recipe.releases);
      ghost var qs := MintedPlan(recipe);
      MatchesAt(recipe, proposed);
      PlanReplays(s, ts, qs);
      ReleaseProposed(proposed, ts);
      AdoptTargets(recipe.targets, outputs, qs);
      assert ReplayedAs(s, ts, recipe.targets, State(), qs);
      recipe.owner, recipe.arenaRevision, recipe.releases, recipe.targets := null, 0, [], [];
    }

    // ----- Suballocation releases

    ghost predicate OwnedSubs(rs: seq<HostKVSuballocationRelease>)
    {
      forall i :: 0 <= i < |rs| ==> rs[i].allocation.owner == this
    }

    /** The proposed page runs inserted one by one; None if one is stale, empty, out of range or
        clashes with an earlier one. */
    method SimulateSubReleases(proposed: seq<HostKVSuballocationRelease>) returns (simulated: Option<seq<Run>>)
      requires Valid()
      ensures simulated.Some? <==> OwnedSubs(proposed) && WellFormed(State(), Subs(proposed))
      ensures simulated.Some? ==> simulated.value == SubFree(State(), Subs(proposed))
    {
      hide Valid, ArenaState.Valid, WellFormed, SubFree, Insert, ExtentOf;
      var free := freeExtents;
      ghost var s, rs := State(), Subs(proposed);
      NoSubs(s);
      assert rs[..0] == [];
      for i := 0 to |proposed|
        invariant forall k :: 0 <= k < i ==> proposed[k].allocation.owner == this
        invariant WellFormed(s, rs[..i])
        invariant free == SubFree(s, rs[..i])
      {
        var release := proposed[i];
        if !ValidHandle(release.allocation) || release.pageCount == 0 {
          NotWellFormedOrForeign(proposed, i);
          return None;
        }
        var descriptor := descriptors[release.allocation.descriptor];
        if release.beginPage > descriptor.pages || release.pageCount > descriptor.pages - release.beginPage {
          NotWellFormed(s, rs, i, i);
          return None;
        }
        var end := release.beginPage + release.pageCount;
        var clash := ClashesWithEarlier(proposed, i, end);
        if clash.Some? {
          NotWellFormed(s, rs, clash.value, i);
          return None;
        }
        var extent := SubExtent(release);
        WellFormedStep(s, rs, i);
        free := InsertExtent(free, extent);
      }
      assert rs[..|proposed|] == rs;
      simulated := Some(free);
    }

    /** The first earlier release of the same allocation that overlaps, if any. */
    method ClashesWithEarlier(proposed: seq<HostKVSuballocationRelease>, i: nat, end: nat) returns (clash: Option<nat>)
      requires i < |proposed| && end == proposed[i].beginPage + proposed[i].pageCount
      requires forall k :: 0 <= k <= i ==> proposed[k].allocation.owner == this
      ensures clash.Some? ==> clash.value < i && Clash(Subs(proposed)[clash.value], Subs(proposed)[i])
      ensures clash.None? ==> forall k :: 0 <= k < i ==> !Clash(Subs(proposed)[k], Subs(proposed)[i])
    {
      ghost var rs := Subs(proposed);
      var release := proposed[i];
      for prior := 0 to i
        invariant forall k :: 0 <= k < prior ==> !Clash(rs[k], rs[i])
      {
        var other := proposed[prior];
        if other.allocation != release.allocation { continue; }
        var otherEnd := other.beginPage + other.pageCount;
        if release.beginPage < otherEnd && other.beginPage < end { return Some(prior); }
      }
      clash := None;
    }

    lemma NotWellFormedOrForeign(proposed: seq<HostKVSuballocationRelease>, i: nat)
      requires i < |proposed| && (!ValidHandle(proposed[i].allocation) || proposed[i].pageCount == 0)
      ensures !(OwnedSubs(proposed) && WellFormed(State(), Subs(proposed)))
    {
      assert Subs(proposed)[i] == proposed[i].AsSub();
    }

    /** The extent of a page run.  The checked additions and products cannot overflow. */
    method SubExtent(release: HostKVSuballocationRelease) returns (extent: Run)
      requires Valid() && InRange(State(), release.AsSub())
      ensures extent == ExtentOf(State(), release.AsSub())
    {
      hide ArenaState.Valid;
      DescriptorFacts(State(), release.allocation.AsTicket());
      ExtentInside(State(), release.AsSub());
      InsideArena(State(), release.allocation.AsTicket());
      var descriptor := descriptors[release.allocation.descriptor];
      var stride := layouts[descriptor.layout].pageStride;
      var shift := CheckedMul(release.beginPage, stride);
      assert shift.Ok?;
      var offset := CheckedAdd(descriptor.offset, shift.value);
      var bytes := CheckedMul(release.pageCount, stride);
      assert offset.Ok? && bytes.Ok?;
      extent := Run(offset.value, bytes.value);
    }

    static lemma InsideArena(s: Arena, t: Ticket)
      requires ArenaState.Valid(s) && Live(s, t)
      ensures s.descriptors[t.descriptor].offset + s.descriptors[t.descriptor].bytes <= SIZE_MAX
    {
      assert Sized(s.layouts, s.capacity, s.descriptors[t.descriptor]);
    }

    /** Page runs that stay behind in one allocation: filter, sort, and count the gaps. */
    method CountRetainedRuns(proposed: seq<HostKVSuballocationRelease>, index: nat) returns (retained: nat)
      requires index < |descriptors|
      ensures retained == RetainedOf(State(), Subs(proposed), index)
    {
      ghost var rs := Subs(proposed);
      var intervals: seq<Interval> := [];
      assert rs[..0] == [];
      for k := 0 to |proposed|
        invariant intervals == Intervals(rs[..k], index)
      {
        if proposed[k].allocation.descriptor == index {
          intervals := intervals + [(proposed[k].beginPage, proposed[k].beginPage + proposed[k].pageCount)];
        }
        assert rs[..k + 1][..k] == rs[..k] && rs[..k + 1][k] == proposed[k].AsSub();
      }
      assert rs[..|proposed|] == rs;
      var sorted := Sort(SelfKey, intervals);
      var cursor: nat := 0;
      retained := 0;
      for k := 0 to |sorted|
        invariant retained + RetainedRuns(sorted[k..], cursor, descriptors[index].pages)
               == RetainedOf(State(), rs, index)
      {
        if sorted[k].0 > cursor { retained := retained + 1; }
        cursor := sorted[k].1;
        assert sorted[k..][1..] == sorted[k + 1..];
      }
      if cursor < descriptors[index].pages { retained := retained + 1; }
    }

    /** The descriptor accounting: the requests plus what every cut-up allocation will need more,
        against the idle descriptors plus the allocations that disappear. */
    method CountDescriptors(proposed: seq<HostKVSuballocationRelease>, requests: seq<Request>) returns (enough: bool)
      requires Valid() && OwnedSubs(proposed) && WellFormed(State(), Subs(proposed))
      ensures enough <==> CountAdmits(State(), Subs(proposed), requests)
    {
      hide Valid, ArenaState.Valid, Weight, WeightSum, RetainedOf, WellFormed, Touched;
      ghost var s, rs, n := State(), Subs(proposed), |descriptors|;
      var available, required := |freeDescriptors|, |requests|;
      StateValid();
      CountStart(s, rs);
      for index := 0 to |proposed|
        invariant required - available == |requests| + WeightSum(s, rs, index, n) - n
      {
        var allocation := proposed[index].allocation;
        WellFormedAt(s, rs, index);
        var first := IsFirst(proposed, index);
        WeightStep(s, rs, index, n);
        if !first { continue; }
        var retained := CountRetainedRuns(proposed, allocation.descriptor);
        if retained == 0 {
          available := available + 1;
        } else if retained > 1 {
          required := required + (retained - 1);
        }
      }
      enough := required <= available;
    }

    /** Whether no earlier release names the same allocation. */
    method IsFirst(proposed: seq<HostKVSuballocationRelease>, index: nat) returns (first: bool)
      requires OwnedSubs(proposed) && WellFormed(State(), Subs(proposed)) && index < |proposed|
      ensures first <==> !Touched(Subs(proposed)[..index], proposed[index].allocation.descriptor)
    {
      ghost var rs := Subs(proposed);
      assert InRange(State(), rs[index]);
      for prior := 0 to index
        invariant forall k :: 0 <= k < prior ==>
                    rs[..index][k].ticket.descriptor != proposed[index].allocation.descriptor
      {
        assert rs[..index][prior] == rs[prior] && InRange(State(), rs[prior]);
        if proposed[prior].allocation == proposed[index].allocation { return false; }
      }
      first := true;
    }

    lemma NothingProposed()
      requires Valid()
      ensures Subs([]) == [] && CanAllocateAfter(State(), [], [])
    {
    }

    /** Exact, with no word about descriptors: true just when the page runs are well formed and the
        free extents they would leave take the targets in order. */
    method CanAllocateAfterSuballocationReleases(proposed: seq<HostKVSuballocationRelease>, requests: seq<Request>)
      returns (ok: bool)
      requires Valid()
      ensures ok <==> OwnedSubs(proposed) && CanAllocateAfter(State(), Subs(proposed), requests)
    {
      hide ArenaState.Valid, WellFormed, SubFree, CountAdmits, Valid;
      StateValid();
      if proposed == [] && requests == [] {
        NothingProposed();
        return true;
      }
      var simulated := SimulateSubReleases(proposed);
      if simulated.None? { return false; }
      FreeListFacts(State());
      SubFreeCorrect(State(), Subs(proposed));
      var enough := CountDescriptors(proposed, requests);
      if !enough {
        if CanAllocateAfter(State(), Subs(proposed), requests) {
          CountNeverRefuses(State(), Subs(proposed), requests);
        }
        return false;
      }
      var placed := PlaceRequests(simulated.value, requests);
      ok := placed.Some?;
    }
  }
}
