/** Views of host allocations: records inside the bytes of an arena, and copies that reach no other allocation. */
module HostViews {
  import opened Common
  import opened KvLayout
  import opened Payload
  import opened PageCopy
  import opened PageTransfer
  import opened PageWork
  import opened DevicePool
  import opened PoolTransfer
  import opened ArenaState
  import opened HostArena

  /** A run of records of one allocation, as read off its handle. */
  datatype HostKVAllocationView =
    HostKVAllocationView(handle: HostKVAllocationHandle, at: nat, layout: HostPageLayout, pageCount: nat) {
    function Bytes(): nat { pageCount * layout.pageStride }
    function End(): nat { at + Bytes() }
  }

  /** The bytes of a descriptor's extent are the same in both. */
  ghost predicate SameExtent(d: Descriptor, before: seq<byte>, after: seq<byte>) {
    && d.offset + d.bytes <= |before| == |after|
    && after[d.offset..d.offset + d.bytes] == before[d.offset..d.offset + d.bytes]
  }

  /** The view lies inside the extent and has its layout. */
  ghost predicate InExtent(layouts: seq<HostPageLayout>, d: Descriptor, v: HostKVAllocationView) {
    && d.layout < |layouts| && v.layout == layouts[d.layout]
    && d.offset <= v.at && v.End() <= d.offset + d.bytes
  }

  /** Replacing a stretch of the bytes. */
  function Patched(bytes: seq<byte>, at: nat, part: seq<byte>): (r: seq<byte>)
    requires at + |part| <= |bytes|
    ensures |r| == |bytes|
  {
    bytes[..at] + part + bytes[at + |part|..]
  }

  lemma PatchedAt(bytes: seq<byte>, at: nat, part: seq<byte>)
    requires at + |part| <= |bytes|
    ensures var r := Patched(bytes, at, part);
            r[at..at + |part|] == part && r[..at] == bytes[..at] && r[at + |part|..] == bytes[at + |part|..]
  {
  }

  /** A patch inside one extent leaves an extent that does not overlap it alone. */
  lemma PatchedElsewhere(bytes: seq<byte>, at: nat, part: seq<byte>, d: Descriptor)
    requires at + |part| <= |bytes| && d.offset + d.bytes <= |bytes|
    requires d.offset + d.bytes <= at || at + |part| <= d.offset
    ensures SameExtent(d, bytes, Patched(bytes, at, part))
  {
    var r := Patched(bytes, at, part);
    forall i | d.offset <= i < d.offset + d.bytes ensures r[i] == bytes[i] {}
    assert r[d.offset..d.offset + d.bytes] == bytes[d.offset..d.offset + d.bytes];
  }

  /** What a valid arena says about two of its live descriptors. */
  lemma LiveExtents(s: Arena, t: Ticket, u: Ticket)
    requires ArenaState.Valid(s) && Live(s, t) && Live(s, u)
    ensures var d, e := s.descriptors[t.descriptor], s.descriptors[u.descriptor];
            && d.layout < |s.layouts| && d.bytes == d.pages * s.layouts[d.layout].pageStride
            && d.offset + d.bytes <= s.capacity && e.offset + e.bytes <= s.capacity
            && (t != u ==> d.offset + d.bytes <= e.offset || e.offset + e.bytes <= d.offset)
  {
    assert Sized(s.layouts, s.capacity, s.descriptors[t.descriptor]);
    assert Sized(s.layouts, s.capacity, s.descriptors[u.descriptor]);
  }

  lemma PlannedLayout(layouts: seq<HostPageLayout>, i: nat)
    requires LayoutsPlanned(layouts) && i < |layouts|
    ensures WellPlanned(layouts[i])
  {
    hide PlanLayout, WellPlanned;
    PlanLayoutSound(layouts[i].geometry);
  }

  lemma SubviewInside(begin: nat, count: nat, pages: nat, stride: nat)
    requires begin + count <= pages
    ensures begin * stride + count * stride <= pages * stride
  {
    MulSum(begin, count, stride);
    MulMonotone(begin + count, pages, stride);
  }

  /** An arena and the pinned bytes it hands out. */
  class HostKVBacking {
    const arena: HostKVArena
    var bytes: seq<byte>

    ghost predicate Valid()
      reads this, arena
    {
      arena.Valid() && LayoutsPlanned(arena.layouts) && |bytes| == arena.capacityBytes
    }

    constructor (arena: HostKVArena, bytes: seq<byte>)
      requires arena.Valid() && LayoutsPlanned(arena.layouts) && |bytes| == arena.capacityBytes
      ensures Valid() && this.arena == arena && this.bytes == bytes
    {
      this.arena, this.bytes := arena, bytes;
    }

    /** For as long as its handle validates, the view lies inside the allocation it was made from. */
    ghost predicate Views(v: HostKVAllocationView)
      reads arena
    {
      arena.ValidHandle(v.handle) ==> InExtent(arena.layouts, arena.descriptors[v.handle.descriptor], v)
    }

    /** All allocations but one have the bytes they had. */
    ghost predicate OthersSame(before: seq<byte>, t: Ticket)
      reads this, arena
    {
      forall u :: Live(arena.State(), u) && u != t ==> SameExtent(arena.descriptors[u.descriptor], before, bytes)
    }

    lemma Facts()
      requires Valid()
      ensures ArenaState.Valid(arena.State()) && LayoutsPlanned(arena.layouts)
      ensures |bytes| == arena.State().capacity && arena.State().layouts == arena.layouts
    {
    }

    /** writable_view and view: all records of a live allocation. */
    method View(allocation: HostKVAllocation) returns (r: Result<HostKVAllocationView>)
      requires Valid()
      ensures r.Ok? <==> arena.ValidHandle(allocation.Handle())
      ensures r.Err? ==> r.error == InvalidArgument
      ensures r.Ok? ==>
                && Views(r.value) && r.value.handle == allocation.Handle()
                && var d := arena.descriptors[allocation.descriptor];
                   r.value.at == d.offset && r.value.End() == d.offset + d.bytes && r.value.pageCount == d.pages
    {
      hide ArenaState.Valid, HostKVArena.Valid, LayoutsPlanned;
      if !arena.ValidHandle(allocation.Handle()) { return Err(InvalidArgument); }
      Facts();
      var t := allocation.Handle().AsTicket();
      LiveExtents(arena.State(), t, t);
      var descriptor := arena.descriptors[allocation.descriptor];
      r := Ok(HostKVAllocationView(allocation.Handle(), descriptor.offset, arena.layouts[descriptor.layout],
                                   descriptor.pages));
    }

    /** subview: some of the records of a view. */
    method Subview(v: HostKVAllocationView, begin: nat, count: nat) returns (r: Result<HostKVAllocationView>)
      requires Valid() && Views(v)
      ensures r.Ok? <==> arena.ValidHandle(v.handle) && count > 0 && begin + count <= v.pageCount
      ensures r.Err? ==> r.error == OutOfRange
      ensures r.Ok? ==> Views(r.value) && r.value.handle == v.handle && r.value.layout == v.layout
      ensures r.Ok? ==>
                && r.value.at == v.at + begin * v.layout.pageStride && r.value.pageCount == count
                && v.at <= r.value.at && r.value.End() <= v.End()
    {
      hide HostKVArena.Valid, LayoutsPlanned;
      if !arena.ValidHandle(v.handle) || count == 0 || begin > v.pageCount || count > v.pageCount - begin {
        return Err(OutOfRange);
      }
      SubviewInside(begin, count, v.pageCount, v.layout.pageStride);
      r := Ok(v.(at := v.at + begin * v.layout.pageStride, pageCount := count));
    }

    /** The bytes of a view of a live allocation. */
    method Records(v: HostKVAllocationView) returns (records: HostPages)
      requires Valid() && Views(v) && arena.ValidHandle(v.handle)
      ensures fresh(records) && records.Valid() && records.layout == v.layout && records.pageCount == v.pageCount
      ensures v.End() <= |bytes| && records.bytes == bytes[v.at..v.End()]
    {
      hide ArenaState.Valid, HostKVArena.Valid, LayoutsPlanned, WellPlanned;
      Facts();
      LiveExtents(arena.State(), v.handle.AsTicket(), v.handle.AsTicket());
      PlannedLayout(arena.layouts, arena.descriptors[v.handle.descriptor].layout);
      records := new HostPages(v.layout, v.pageCount, bytes[v.at..v.End()]);
    }

    /** The records written back touch no other allocation. */
    lemma OthersApart(v: HostKVAllocationView, before: seq<byte>, part: seq<byte>)
      requires Valid() && Views(v) && arena.ValidHandle(v.handle)
      requires |before| == |bytes| && |part| == v.Bytes() && v.End() <= |before| && bytes == Patched(before, v.at, part)
      ensures OthersSame(before, v.handle.AsTicket())
    {
      hide ArenaState.Valid, HostKVArena.Valid, LayoutsPlanned, SameExtent, Patched;
      Facts();
      var t := v.handle.AsTicket();
      forall u | Live(arena.State(), u) && u != t ensures SameExtent(arena.descriptors[u.descriptor], before, bytes) {
        LiveExtents(arena.State(), t, u);
        PatchedElsewhere(before, v.at, part, arena.descriptors[u.descriptor]);
      }
    }

    /** copy_to_host into a view: refuses a stale view, and leaves every other allocation alone. */
    method CopyToHost(device: DeviceKVMemory, source: seq<DeviceKVPageHandle>, v: HostKVAllocationView)
      returns (r: Result<()>)
      requires Valid() && device.Valid() && Views(v)
      modifies this`bytes, device.memory`work
      ensures Valid() && device.Valid() && Views(v)
      ensures r.Ok? <==> && arena.ValidHandle(v.handle) && |source| == v.pageCount
                         && v.layout.geometry == device.memory.geometry && device.pool.AllValid(source)
      ensures r.Err? ==> bytes == old(bytes) && device.memory.work == old(device.memory.work)
      ensures r.Ok? ==> v.End() <= |bytes| == |old(bytes)|
      ensures r.Ok? ==>
                && WellPlanned(v.layout) && |device.memory.planes| == |v.layout.planes|
                && AllMoved(v.layout, device.memory.pages, device.memory.planes, bytes[v.at..v.End()],
                            IndexesOf(source), 0, |source|, |device.memory.planes|)
                && PaddingSame(v.layout, old(bytes)[v.at..v.End()], bytes[v.at..v.End()])
                && bytes[..v.at] == old(bytes)[..v.at] && bytes[v.End()..] == old(bytes)[v.End()..]
      ensures r.Ok? ==> OthersSame(old(bytes), v.handle.AsTicket())
    {
      hide ArenaState.Valid, HostKVArena.Valid, LayoutsPlanned, WellPlanned, DeviceKVMemory.Valid, AllMoved,
           PaddingSame, DeviceKVPagePool.AllValid, OthersSame, Patched, InExtent, HostWork, RunCount;
      if !arena.ValidHandle(v.handle) { return Err(InvalidArgument); }
      var records := Records(v);
      var copied := device.CopyToHost(source, records);
      if copied.Err? { return copied; }
      PlanesOf(device, v.layout);
      PatchedAt(bytes, v.at, records.bytes);
      ghost var before := bytes;
      bytes := Patched(bytes, v.at, records.bytes);
      OthersApart(v, before, records.bytes);
      r := Ok(());
    }

    static lemma PlanesOf(device: DeviceKVMemory, layout: HostPageLayout)
      requires device.Valid() && WellPlanned(layout) && layout.geometry == device.memory.geometry
      ensures |device.memory.planes| == |layout.planes|
    {
      PlaneCount(layout, device.memory.geometry, device.memory.pages, device.memory.planes);
    }

    /** copy_from_host out of a view: refuses a stale view, and leaves the pages of all other leases alone. */
    method CopyFromHost(device: DeviceKVMemory, v: HostKVAllocationView, destination: seq<DeviceKVPageHandle>)
      returns (r: Result<()>)
      requires Valid() && device.Valid() && Views(v)
      modifies device.memory`planes, device.memory`work, device.memory`validationStamp, device.memory`validationMarks
      ensures Valid() && device.Valid() && Views(v)
      ensures r.Ok? <==> && arena.ValidHandle(v.handle) && |destination| == v.pageCount
                         && v.layout.geometry == device.memory.geometry && device.pool.AllValid(destination)
                         && forall i, j :: 0 <= i < j < |destination| ==> destination[i] != destination[j]
      ensures r.Err? ==>
                device.memory.planes == old(device.memory.planes) && device.memory.work == old(device.memory.work)
      ensures r.Ok? ==>
                && WellPlanned(v.layout) && v.End() <= |bytes| && |device.memory.planes| == |v.layout.planes|
                && AllMoved(v.layout, device.memory.pages, device.memory.planes, bytes[v.at..v.End()],
                            IndexesOf(destination), 0, |destination|, |device.memory.planes|)
                && device.OtherLeasesSame(v.layout, old(device.memory.planes), destination)
    {
      hide ArenaState.Valid, HostKVArena.Valid, LayoutsPlanned, WellPlanned, DeviceKVMemory.Valid, AllMoved,
           DeviceKVPagePool.AllValid, DeviceKVMemory.OtherLeasesSame, InExtent, HostWork, RunCount;
      if !arena.ValidHandle(v.handle) { return Err(InvalidArgument); }
      var records := Records(v);
      r := device.CopyFromHost(records, destination);
      if r.Ok? { PlanesOf(device, v.layout); }
    }
  }
}
