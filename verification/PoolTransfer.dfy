/** The copies as callers see them: pages named by handles, checked against the pool, at the planned cost. */
module PoolTransfer {
  import opened Common
  import opened KvLayout
  import opened Payload
  import opened PageCopy
  import opened PageTransfer
  import opened PageWork
  import opened DevicePool

  /** Where the bytes of page q come from when pages are copied one after the other. */
  function Origin(from: seq<nat>, to: seq<nat>, q: nat): nat
    requires |from| == |to|
  {
    if to == [] then q else
    var n := |to| - 1;
    Origin(from[..n], to[..n], if to[n] == q then from[n] else q)
  }

  /** Pages that are not copied to stay; when the destinations are distinct and no source is one of them,
      each destination holds its source. */
  lemma {:induction false} OriginOf(from: seq<nat>, to: seq<nat>, q: nat)
    requires |from| == |to|
    ensures q !in to ==> Origin(from, to, q) == q
    ensures Distinct(to) ==>
              forall i :: 0 <= i < |to| && to[i] == q && from[i] !in to ==> Origin(from, to, q) == from[i]
  {
    if to != [] {
      var n := |to| - 1;
      OriginOf(from[..n], to[..n], q);
      OriginOf(from[..n], to[..n], from[n]);
    }
  }

  /** Every page now holds what its origin held. */
  ghost predicate PagesFrom(shape: PlaneShape, before: seq<byte>, after: seq<byte>, from: seq<nat>, to: seq<nat>)
    requires shape.Valid() && |from| == |to|
  {
    && |after| == |before|
    && forall q: nat, j: nat :: q < shape.pages && j < shape.PageBytes() ==>
         && shape.Place(q, j) < |after| && shape.Place(Origin(from, to, q), j) < |before|
         && after[shape.Place(q, j)] == before[shape.Place(Origin(from, to, q), j)]
  }

  lemma PagesFromNothing(shape: PlaneShape, plane: seq<byte>)
    requires shape.Valid() && |plane| == shape.Total()
    ensures PagesFrom(shape, plane, plane, [], [])
  {
    hide PlaneShape.Place, PlaneShape.Total, PlaneShape.PageBytes;
    forall q: nat, j: nat | q < shape.pages && j < shape.PageBytes() ensures shape.Place(q, j) < |plane| {
      PlaceInside(shape, q, j);
    }
  }

  lemma PagesFromSnoc(shape: PlaneShape, a: seq<byte>, b: seq<byte>, c: seq<byte>, from: seq<nat>, to: seq<nat>, x: nat,
                      y: nat)
    requires shape.Valid() && |from| == |to| && PagesFrom(shape, a, b, from, to) && PageCopied(shape, b, c, x, y)
    requires x < shape.pages
    ensures PagesFrom(shape, a, c, from + [x], to + [y])
  {
    hide PlaneShape.Place, PlaneShape.PageBytes;
    assert (from + [x])[..|to|] == from && (to + [y])[..|to|] == to;
    forall q: nat, j: nat | q < shape.pages && j < shape.PageBytes()
      ensures var origin := Origin(from + [x], to + [y], q);
              && shape.Place(q, j) < |c| && shape.Place(origin, j) < |a|
              && c[shape.Place(q, j)] == a[shape.Place(origin, j)]
    {
      var middle := if q == y then x else q;
      assert c[shape.Place(q, j)] == b[shape.Place(middle, j)];
      assert b[shape.Place(middle, j)] == a[shape.Place(Origin(from, to, middle), j)];
    }
  }

  /** The page is copied in every plane. */
  ghost predicate AllCopied(geometry: PageGeometry, pages: nat, before: seq<seq<byte>>, after: seq<seq<byte>>, x: nat,
                            y: nat)
    requires PlanesSized(geometry, pages, before)
  {
    SizesFrom(geometry, pages, before);
    && |after| == |before|
    && forall p :: 0 <= p < |before| ==>
         PageCopied(ShapeOf(geometry, geometry.planes[p], pages), before[p], after[p], x, y)
  }

  /** In every plane, every page holds what its origin held. */
  ghost predicate AllFrom(geometry: PageGeometry, pages: nat, before: seq<seq<byte>>, after: seq<seq<byte>>,
                          from: seq<nat>, to: seq<nat>)
    requires PlanesSized(geometry, pages, before) && |from| == |to|
  {
    SizesFrom(geometry, pages, before);
    && |after| == |before|
    && forall p :: 0 <= p < |before| ==>
         PagesFrom(ShapeOf(geometry, geometry.planes[p], pages), before[p], after[p], from, to)
  }

  lemma AllFromNothing(geometry: PageGeometry, pages: nat, planes: seq<seq<byte>>)
    requires PlanesSized(geometry, pages, planes)
    ensures AllFrom(geometry, pages, planes, planes, [], [])
  {
    hide PagesFrom, PlanesSized, PlaneShape.Total;
    SizesFrom(geometry, pages, planes);
    forall p | 0 <= p < |planes|
      ensures PagesFrom(ShapeOf(geometry, geometry.planes[p], pages), planes[p], planes[p], [], [])
    {
      PagesFromNothing(ShapeOf(geometry, geometry.planes[p], pages), planes[p]);
    }
  }

  lemma AllFromSnoc(geometry: PageGeometry, pages: nat, a: seq<seq<byte>>, b: seq<seq<byte>>, c: seq<seq<byte>>,
                    from: seq<nat>, to: seq<nat>, x: nat, y: nat)
    requires PlanesSized(geometry, pages, a) && PlanesSized(geometry, pages, b) && |from| == |to|
    requires AllFrom(geometry, pages, a, b, from, to) && AllCopied(geometry, pages, b, c, x, y)
    requires x < pages
    ensures AllFrom(geometry, pages, a, c, from + [x], to + [y])
  {
    hide PagesFrom, PageCopied, PlanesSized, PlaneShape.Total;
    SizesFrom(geometry, pages, a);
    forall p | 0 <= p < |a|
      ensures PagesFrom(ShapeOf(geometry, geometry.planes[p], pages), a[p], c[p], from + [x], to + [y])
    {
      PagesFromSnoc(ShapeOf(geometry, geometry.planes[p], pages), a[p], b[p], c[p], from, to, x, y);
    }
  }

  lemma AllFromNext(geometry: PageGeometry, pages: nat, a: seq<seq<byte>>, b: seq<seq<byte>>, c: seq<seq<byte>>,
                    from: seq<DeviceKVPageHandle>, to: seq<DeviceKVPageHandle>, i: nat)
    requires PlanesSized(geometry, pages, a) && PlanesSized(geometry, pages, b) && i < |from| == |to|
    requires AllFrom(geometry, pages, a, b, IndexesOf(from)[..i], IndexesOf(to)[..i])
    requires 0 <= from[i].index < pages && 0 <= to[i].index
    requires AllCopied(geometry, pages, b, c, from[i].index, to[i].index)
    ensures AllFrom(geometry, pages, a, c, IndexesOf(from)[..i + 1], IndexesOf(to)[..i + 1])
  {
    hide AllFrom, AllCopied, PlanesSized;
    var xs, ys := IndexesOf(from), IndexesOf(to);
    assert xs[..i + 1] == xs[..i] + [xs[i]] && ys[..i + 1] == ys[..i] + [ys[i]];
    AllFromSnoc(geometry, pages, a, b, c, xs[..i], ys[..i], xs[i], ys[i]);
  }

  function Plus(a: TransferWork, b: TransferWork): TransferWork {
    TransferWork(a.payloadBytes + b.payloadBytes, a.copyOperations + b.copyOperations)
  }

  /** The pool's pages and the memory behind them. */
  class DeviceKVMemory {
    const pool: DeviceKVPagePool
    const memory: DeviceKVPlanes

    ghost predicate Valid()
      reads this, pool, memory
    {
      pool.Valid() && memory.Valid() && memory.pages == pool.capacity
    }

    constructor (pool: DeviceKVPagePool, memory: DeviceKVPlanes)
      requires pool.Valid() && memory.Valid() && memory.pages == pool.capacity
      ensures Valid() && this.pool == pool && this.memory == memory
    {
      this.pool, this.memory := pool, memory;
    }

    /** physical_index of every handle; a stale one throws. */
    method PhysicalIndexes(handles: seq<DeviceKVPageHandle>) returns (r: Result<seq<nat>>)
      requires Valid()
      ensures r == if pool.AllValid(handles) then Ok(IndexesOf(handles)) else Err(InvalidArgument)
      ensures r.Ok? ==> InPool(r.value, memory.pages)
    {
      hide DeviceKVPlanes.Valid, PagePool.HandlesSound;
      PoolSized();
      var indexes: seq<nat> := [];
      for i := 0 to |handles|
        invariant forall k :: 0 <= k < i ==> pool.ValidHandle(handles[k])
        invariant indexes == IndexesOf(handles)[..i]
      {
        if !pool.ValidHandle(handles[i]) { return Err(InvalidArgument); }
        indexes := indexes + [handles[i].index];
      }
      assert IndexesOf(handles)[..|handles|] == IndexesOf(handles);
      r := Ok(indexes);
    }

    lemma MemorySized()
      requires Valid()
      ensures PlanesSized(memory.geometry, memory.pages, memory.planes)
    {
    }

    lemma PoolSized()
      requires Valid()
      ensures |pool.used| == |pool.generations| == memory.pages
    {
    }

    /** Two valid handles to one page are the same handle. */
    lemma HandlesDiffer(handles: seq<DeviceKVPageHandle>)
      requires Valid() && pool.AllValid(handles)
      ensures Distinct(IndexesOf(handles)) <==> forall i, j :: 0 <= i < j < |handles| ==> handles[i] != handles[j]
      ensures forall x, g :: (x, g) in pool.owners && x in IndexesOf(handles) ==> (x, g) in TicketsOf(handles)
    {
      var pages := IndexesOf(handles);
      forall i, j | 0 <= i < j < |handles| ensures pages[i] == pages[j] <==> handles[i] == handles[j] {
        assert pool.ValidHandle(handles[i]) && pool.ValidHandle(handles[j]);
      }
      forall x, g | (x, g) in pool.owners && x in pages ensures (x, g) in TicketsOf(handles) {
        var i :| 0 <= i < |pages| && pages[i] == x;
        assert pool.ValidHandle(handles[i]) && PagePool.Current(pool.used, pool.generations, (x, g));
      }
    }

    /** contiguous_run_count over handles. */
    method RunsOf(handles: seq<DeviceKVPageHandle>) returns (r: Result<nat>)
      requires Valid()
      ensures r.Ok? <==> pool.AllValid(handles)
      ensures r.Ok? ==> r.value == RunCount(IndexesOf(handles), |handles|)
      ensures r.Err? ==> r.error == InvalidArgument
    {
      var indexes := PhysicalIndexes(handles);
      if indexes.Err? { return Err(InvalidArgument); }
      var runs := ContiguousRunCount(indexes.value);
      r := Ok(runs);
    }

    /** copy_to_host: a stale handle throws, and otherwise every listed page reaches its record. */
    method CopyToHost(source: seq<DeviceKVPageHandle>, destination: HostPages) returns (r: Result<()>)
      requires Valid() && destination.Valid()
      modifies destination`bytes, memory`work
      ensures Valid() && destination.Valid()
      ensures r.Ok? <==> && |source| == destination.pageCount && destination.layout.geometry == memory.geometry
                         && pool.AllValid(source)
      ensures r.Err? ==> destination.bytes == old(destination.bytes) && memory.work == old(memory.work)
      ensures r.Ok? ==>
                && AllMoved(destination.layout, memory.pages, memory.planes, destination.bytes, IndexesOf(source), 0,
                            |source|, |memory.planes|)
                && PaddingSame(destination.layout, old(destination.bytes), destination.bytes)
                && |destination.layout.planes| == |destination.layout.geometry.planes|
                && memory.work == Plus(old(memory.work),
                                       HostWork(destination.layout, |source|, RunCount(IndexesOf(source), |source|)))
    {
      hide PagePool.Valid, PagePool.HandlesSound, PlanesSized, WellPlanned, PayloadPerPage, CopiesPerRun, RunCount,
           PaddingSame, AllMoved, DeviceKVPagePool.AllValid;
      if destination.pageCount != |source|
        || destination.layout.geometry != memory.geometry { return Err(InvalidArgument); }
      var indexes := PhysicalIndexes(source);
      if indexes.Err? { return Err(InvalidArgument); }
      PlaneCount(destination.layout, memory.geometry, memory.pages, memory.planes);
      r := memory.CopyToHost(indexes.value, destination);
    }

    /** copy_from_host: stale and repeated handles throw; otherwise every record reaches its page, and the pages of
        all other leases stay as they were. */
    method CopyFromHost(source: HostPages, destination: seq<DeviceKVPageHandle>) returns (r: Result<()>)
      requires Valid() && source.Valid()
      modifies memory`planes, memory`work, memory`validationStamp, memory`validationMarks
      ensures Valid()
      ensures r.Ok? <==> && |destination| == source.pageCount && source.layout.geometry == memory.geometry
                         && pool.AllValid(destination)
                         && forall i, j :: 0 <= i < j < |destination| ==> destination[i] != destination[j]
      ensures r.Err? ==> memory.planes == old(memory.planes) && memory.work == old(memory.work)
      ensures r.Ok? ==>
                && AllMoved(source.layout, memory.pages, memory.planes, source.bytes, IndexesOf(destination), 0,
                            |destination|, |memory.planes|)
                && |source.layout.planes| == |source.layout.geometry.planes|
                && memory.work == Plus(old(memory.work),
                                       HostWork(source.layout, |destination|,
                                                RunCount(IndexesOf(destination), |destination|)))
      ensures r.Ok? ==> OtherLeasesSame(source.layout, old(memory.planes), destination)
    {
      hide PagePool.Valid, PagePool.HandlesSound, PlanesSized, WellPlanned, PayloadPerPage, CopiesPerRun, RunCount,
           AllMoved, DeviceKVPagePool.AllValid, OthersSame, OtherLeasesSame;
      if source.pageCount != |destination| || source.layout.geometry != memory.geometry { return Err(InvalidArgument); }
      var indexes := PhysicalIndexes(destination);
      if indexes.Err? { return Err(InvalidArgument); }
      HandlesDiffer(destination);
      PlaneCount(source.layout, memory.geometry, memory.pages, memory.planes);
      ghost var before := memory.planes;
      r := memory.CopyFromHost(source, indexes.value);
      PlaneCount(source.layout, memory.geometry, memory.pages, memory.planes);
      if r.Ok? { LeasesApart(source.layout, before, destination); }
    }

    /** The page of a lease that is not listed has the bytes it had. */
    ghost predicate OtherLeasesSame(layout: HostPageLayout, before: seq<seq<byte>>, listed: seq<DeviceKVPageHandle>)
      requires WellPlanned(layout)
      reads this, pool, memory
    {
      forall p, x, g :: 0 <= p < |layout.planes| && p < |before| && p < |memory.planes|
                        && (x, g) in pool.owners && (x, g) !in TicketsOf(listed) ==>
        PageSameIn(layout, memory.pages, before[p], memory.planes[p], p, x)
    }

    lemma LeasesApart(layout: HostPageLayout, before: seq<seq<byte>>, listed: seq<DeviceKVPageHandle>)
      requires Valid() && pool.AllValid(listed) && WellPlanned(layout)
      requires OthersSame(layout, memory.pages, before, memory.planes, IndexesOf(listed))
      ensures OtherLeasesSame(layout, before, listed)
    {
      hide PlanesSized, WellPlanned, PageSameIn, PagePool.Valid;
      PoolSized();
      HandlesDiffer(listed);
      forall p, x, g | 0 <= p < |layout.planes| && p < |before| && p < |memory.planes|
                       && (x, g) in pool.owners && (x, g) !in TicketsOf(listed)
        ensures PageSameIn(layout, memory.pages, before[p], memory.planes[p], p, x)
      {
        assert PagePool.Current(pool.used, pool.generations, (x, g));
        assert x !in IndexesOf(listed);
      }
    }

    /** copy_page over handles. */
    method CopyPage(source: DeviceKVPageHandle, destination: DeviceKVPageHandle) returns (r: Result<()>)
      requires Valid()
      modifies memory`planes, memory`work
      ensures Valid() && |memory.planes| == |old(memory.planes)|
      ensures r.Ok? <==> pool.ValidHandle(source) && pool.ValidHandle(destination)
      ensures r.Err? ==> memory.planes == old(memory.planes) && memory.work == old(memory.work)
      ensures r.Ok? ==>
                && 0 <= source.index < memory.pages && 0 <= destination.index < memory.pages
                && AllCopied(memory.geometry, memory.pages, old(memory.planes), memory.planes, source.index,
                             destination.index)
      ensures r.Ok? && source != destination ==>
                memory.work == Plus(old(memory.work),
                                    TransferWork(PoolPayload(memory.geometry, |memory.geometry.planes|),
                                                 |memory.geometry.planes|))
      ensures r.Ok? && source == destination ==> memory.work == old(memory.work)
    {
      hide PagePool.Valid, PagePool.HandlesSound, PlanesSized, PageCopied;
      PoolSized();
      SizesFrom(memory.geometry, memory.pages, memory.planes);
      PlanesCounted(memory.geometry, memory.pages, memory.planes);
      if !pool.ValidHandle(source) { return Err(InvalidArgument); }
      if !pool.ValidHandle(destination) { return Err(InvalidArgument); }
      r := memory.CopyPage(source.index, destination.index);
      PlanesCounted(memory.geometry, memory.pages, memory.planes);
    }

    static lemma PlanesCounted(geometry: PageGeometry, pages: nat, planes: seq<seq<byte>>)
      requires PlanesSized(geometry, pages, planes)
      ensures |planes| == |geometry.planes| > 0
    {
    }

    // ----- Planned, then done

    /** Offload at the planned cost: the work of the copies is the plan made from the run count. */
    method Offload(source: seq<DeviceKVPageHandle>, destination: HostPages) returns (r: Result<TransferWork>)
      requires Valid() && destination.Valid()
      modifies destination`bytes, memory`work
      ensures Valid() && destination.Valid()
      ensures r.Err? ==> destination.bytes == old(destination.bytes) && memory.work == old(memory.work)
      ensures r.Ok? <==>
                && |source| == destination.pageCount && destination.layout.geometry == memory.geometry
                && pool.AllValid(source) && |destination.layout.planes| == |destination.layout.geometry.planes|
                && WorkFits(HostWork(destination.layout, |source|, RunCount(IndexesOf(source), |source|)))
      ensures r.Ok? ==> memory.work == Plus(old(memory.work), r.value)
      ensures r.Ok? ==>
                AllMoved(destination.layout, memory.pages, memory.planes, destination.bytes, IndexesOf(source), 0,
                         |source|, |memory.planes|)
    {
      hide PagePool.Valid, PagePool.HandlesSound, DeviceKVPlanes.Valid, WellPlanned, AllMoved,
        DeviceKVPagePool.AllValid, RunCount, PaddingSame;
      LayoutCounted(destination.layout);
      var runs := RunsOf(source);
      if runs.Err? { return Err(runs.error); }
      RunCountBounds(IndexesOf(source), |source|);
      NothingCosts(destination.layout);
      var plan := PlanHostTransferWork(destination.layout, |source|, runs.value);
      if plan.Err? { return plan; }
      var copied := CopyToHost(source, destination);
      if copied.Err? { return Err(copied.error); }
      r := plan;
    }

    static lemma LayoutCounted(layout: HostPageLayout)
      requires WellPlanned(layout)
      ensures 0 < |layout.planes| == |layout.geometry.planes|
    {
    }

    static lemma NothingCosts(layout: HostPageLayout)
      requires |layout.planes| == |layout.geometry.planes|
      ensures HostWork(layout, 0, 0) == DeviceWork(layout, 0) == TransferWork(0, 0)
    {
    }

    /** Load at the planned cost. */
    method Load(source: HostPages, destination: seq<DeviceKVPageHandle>) returns (r: Result<TransferWork>)
      requires Valid() && source.Valid()
      modifies memory`planes, memory`work, memory`validationStamp, memory`validationMarks
      ensures Valid()
      ensures r.Err? ==> memory.planes == old(memory.planes) && memory.work == old(memory.work)
      ensures r.Ok? <==>
                && |destination| == source.pageCount && source.layout.geometry == memory.geometry
                && pool.AllValid(destination) && |source.layout.planes| == |source.layout.geometry.planes|
                && (forall i, j :: 0 <= i < j < |destination| ==> destination[i] != destination[j])
                && WorkFits(HostWork(source.layout, |destination|, RunCount(IndexesOf(destination), |destination|)))
      ensures r.Ok? ==> memory.work == Plus(old(memory.work), r.value)
      ensures r.Ok? ==>
                && AllMoved(source.layout, memory.pages, memory.planes, source.bytes, IndexesOf(destination), 0,
                            |destination|, |memory.planes|)
                && OtherLeasesSame(source.layout, old(memory.planes), destination)
    {
      hide PagePool.Valid, PagePool.HandlesSound, DeviceKVPlanes.Valid, WellPlanned, AllMoved,
        DeviceKVPagePool.AllValid, RunCount, OtherLeasesSame;
      LayoutCounted(source.layout);
      var runs := RunsOf(destination);
      if runs.Err? { return Err(runs.error); }
      RunCountBounds(IndexesOf(destination), |destination|);
      NothingCosts(source.layout);
      var plan := PlanHostTransferWork(source.layout, |destination|, runs.value);
      if plan.Err? { return plan; }
      var copied := CopyFromHost(source, destination);
      if copied.Err? { return Err(copied.error); }
      r := plan;
    }

    /** Pages copied one after the other: every page ends up with the bytes of its origin, at the planned cost
        when no page is copied onto itself. */
    method CopyPages(layout: HostPageLayout, from: seq<DeviceKVPageHandle>, to: seq<DeviceKVPageHandle>)
      returns (r: Result<TransferWork>)
      requires Valid() && WellPlanned(layout) && layout.geometry == memory.geometry && |from| == |to|
      modifies memory`planes, memory`work
      ensures Valid() && |memory.planes| == |old(memory.planes)|
      ensures r.Ok? <==> pool.AllValid(from) && pool.AllValid(to) && WorkFits(DeviceWork(layout, |from|))
      ensures r.Ok? && (forall i :: 0 <= i < |from| ==> from[i] != to[i]) ==>
                memory.work == Plus(old(memory.work), r.value)
      ensures r.Ok? ==>
                AllFrom(memory.geometry, memory.pages, old(memory.planes), memory.planes, IndexesOf(from),
                        IndexesOf(to))
    {
      hide DeviceKVPagePool.Valid, DeviceKVPlanes.Valid, DeviceKVPagePool.ValidHandle, PlanesSized, WellPlanned,
           AllFrom, AllCopied, PayloadPerPage, Plus, Valid, PoolPayload;
      LayoutCounted(layout);
      NothingCosts(layout);
      PoolPayloadIsHostPayload(layout, |layout.planes|);
      var plan := PlanDeviceCopyWork(layout, |from|);
      if plan.Err? { return plan; }
      ghost var start, payload, count := memory.planes, PayloadPerPage(layout, |layout.planes|), |layout.planes|;
      PlusNothing(memory.work, payload, count);
      MemorySized();
      PlanesCounted(memory.geometry, memory.pages, memory.planes);
      AllFromNothing(memory.geometry, memory.pages, start);
      assert IndexesOf(from)[..0] == [] && IndexesOf(to)[..0] == [];
      for i := 0 to |from|
        invariant Valid() && |memory.planes| == |start|
        invariant forall k :: 0 <= k < i ==> pool.ValidHandle(from[k]) && pool.ValidHandle(to[k])
        invariant (forall k :: 0 <= k < i ==> from[k] != to[k]) ==>
                    memory.work == Plus(old(memory.work), TransferWork(payload * i, count * i))
        invariant AllFrom(memory.geometry, memory.pages, start, memory.planes, IndexesOf(from)[..i], IndexesOf(to)[..i])
      {
        ghost var was := memory.planes;
        MemorySized();
        var copied := CopyPage(from[i], to[i]);
        if copied.Err? { return Err(copied.error); }
        PlusMore(old(memory.work), payload, count, i);
        AllFromNext(memory.geometry, memory.pages, start, was, memory.planes, from, to, i);
      }
      assert IndexesOf(from)[..|from|] == IndexesOf(from) && IndexesOf(to)[..|to|] == IndexesOf(to);
      r := plan;
    }

    static lemma PlusNothing(w: TransferWork, a: nat, b: nat)
      ensures Plus(w, TransferWork(a * 0, b * 0)) == w
    {
    }

    /** One page more of the same work. */
    static lemma PlusMore(w: TransferWork, a: nat, b: nat, i: nat)
      ensures Plus(w, TransferWork(a * (i + 1), b * (i + 1))) ==
              Plus(Plus(w, TransferWork(a * i, b * i)), TransferWork(a, b))
    {
    }
  }

  /** Offload, then load elsewhere, over handles: every destination page is its source page, the pages of all other
      leases stay, and each side adds its planned work. */
  method MovePages(from: DeviceKVMemory, offloaded: seq<DeviceKVPageHandle>, to: DeviceKVMemory,
                   loaded: seq<DeviceKVPageHandle>, host: HostPages)
    returns (r: Result<(TransferWork, TransferWork)>)
    requires from.Valid() && to.Valid() && host.Valid()
    modifies host`bytes, from.memory`work, to.memory`planes, to.memory`work, to.memory`validationStamp,
             to.memory`validationMarks
    ensures from.Valid() && to.Valid() && host.Valid()
    ensures |host.layout.planes| == |host.layout.geometry.planes|
    ensures r.Ok? <==>
              && |offloaded| == |loaded| == host.pageCount
              && host.layout.geometry == from.memory.geometry == to.memory.geometry
              && from.pool.AllValid(offloaded) && to.pool.AllValid(loaded)
              && (forall i, j :: 0 <= i < j < |loaded| ==> loaded[i] != loaded[j])
              && WorkFits(HostWork(host.layout, |offloaded|, RunCount(IndexesOf(offloaded), |offloaded|)))
              && WorkFits(HostWork(host.layout, |loaded|, RunCount(IndexesOf(loaded), |loaded|)))
    ensures r.Err? ==> to.memory.planes == old(to.memory.planes)
    ensures r.Ok? ==>
              && (forall k, p :: 0 <= k < |loaded| && 0 <= p < |host.layout.planes| ==>
                    SameIn(host.layout, from.memory.pages, old(from.memory.planes), IndexesOf(offloaded)[k],
                           to.memory.pages, to.memory.planes, IndexesOf(loaded)[k], p))
              && to.OtherLeasesSame(host.layout, old(to.memory.planes), loaded)
    ensures r.Ok? && from.memory != to.memory ==>
              && from.memory.work == Plus(old(from.memory.work), r.value.0)
              && to.memory.work == Plus(old(to.memory.work), r.value.1)
    ensures r.Ok? && from.memory == to.memory ==>
              to.memory.work == Plus(Plus(old(to.memory.work), r.value.0), r.value.1)
  {
    hide DeviceKVPagePool.Valid, DeviceKVPlanes.Valid, DeviceKVPagePool.AllValid, WellPlanned, AllMoved, SameIn,
         DeviceKVMemory.OtherLeasesSame, RunCount, PayloadPerPage, CopiesPerRun, PlanesSized;
    from.MemorySized();
    to.MemorySized();
    DeviceKVMemory.LayoutCounted(host.layout);
    ghost var source := from.memory.planes;
    var offload := from.Offload(offloaded, host);
    if offload.Err? { return Err(offload.error); }
    PlaneCount(host.layout, from.memory.geometry, from.memory.pages, source);
    var load := to.Load(host, loaded);
    if load.Err? { return Err(load.error); }
    to.MemorySized();
    PlaneCount(host.layout, to.memory.geometry, to.memory.pages, to.memory.planes);
    RoundTrip(host.layout, from.memory.pages, source, IndexesOf(offloaded), host.bytes, to.memory.pages,
              to.memory.planes, IndexesOf(loaded));
    r := Ok((offload.value, load.value));
  }
}
