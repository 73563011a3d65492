/** Host and device page copies undo each other, do not depend on the plane order, and cost what was planned. */
module PageWork {
  import opened Common
  import opened KvLayout
  import opened Payload
  import opened PageCopy
  import opened PageTransfer

  // ----- Round trips

  /** Page b of one plane is page a of another, byte for byte. */
  ghost predicate SamePage(from: PlaneShape, source: seq<byte>, a: nat, to: PlaneShape, target: seq<byte>, b: nat,
                           bytes: nat)
    requires from.Valid() && to.Valid()
  {
    forall j :: 0 <= j < bytes ==> SamePageByte(from, source, a, to, target, b, j)
  }

  ghost predicate SamePageByte(from: PlaneShape, source: seq<byte>, a: nat, to: PlaneShape, target: seq<byte>, b: nat,
                               j: nat)
    requires from.Valid() && to.Valid()
  {
    && from.Place(a, j) < |source| && to.Place(b, j) < |target|
    && target[to.Place(b, j)] == source[from.Place(a, j)]
  }

  /** Plane p of page b in one pool is plane p of page a in another. */
  ghost predicate SameIn(layout: HostPageLayout, fromPages: nat, source: seq<seq<byte>>, a: nat,
                         toPages: nat, target: seq<seq<byte>>, b: nat, p: nat)
    requires WellPlanned(layout) && p < |layout.planes|
  {
    ShapeValid(layout, fromPages, p);
    ShapeValid(layout, toPages, p);
    && p < |source| && p < |target|
    && SamePage(Shape(layout, fromPages, p), source[p], a, Shape(layout, toPages, p), target[p], b,
                layout.planes[p].pagePayloadBytes)
  }

  lemma ThroughHost(layout: HostPageLayout, fromPages: nat, source: seq<seq<byte>>, a: nat, host: seq<byte>, k: nat,
                    toPages: nat, target: seq<seq<byte>>, b: nat, p: nat)
    requires WellPlanned(layout) && p < |layout.planes|
    requires Moved(layout, fromPages, source, host, a, k, p) && Moved(layout, toPages, target, host, b, k, p)
    ensures SameIn(layout, fromPages, source, a, toPages, target, b, p)
  {
    hide WellPlanned, Shape, PlaneShape.Place, Cell;
    ShapeValid(layout, fromPages, p);
    ShapeValid(layout, toPages, p);
    PositiveExtents(layout, p);
    var from, to := Shape(layout, fromPages, p), Shape(layout, toPages, p);
    var stride, offset := layout.pageStride, layout.planes[p].offset;
    forall j | 0 <= j < layout.planes[p].pagePayloadBytes
      ensures SamePageByte(from, source[p], a, to, target[p], b, j)
    {
      assert SameByte(from, source[p], a, stride, offset, host, k, j);
      assert SameByte(to, target[p], b, stride, offset, host, k, j);
    }
  }

  /** Offloading pages and loading the records into other pages moves every page whole, in every plane,
      however either list falls into runs. */
  lemma RoundTrip(layout: HostPageLayout, fromPages: nat, source: seq<seq<byte>>, offloaded: seq<nat>, host: seq<byte>,
                  toPages: nat, target: seq<seq<byte>>, loaded: seq<nat>)
    requires WellPlanned(layout) && |offloaded| == |loaded|
    requires AllMoved(layout, fromPages, source, host, offloaded, 0, |offloaded|, |layout.planes|)
    requires AllMoved(layout, toPages, target, host, loaded, 0, |loaded|, |layout.planes|)
    ensures forall k, p :: 0 <= k < |loaded| && 0 <= p < |layout.planes| ==>
              SameIn(layout, fromPages, source, offloaded[k], toPages, target, loaded[k], p)
  {
    hide WellPlanned, Moved, SameIn;
    forall k, p | 0 <= k < |loaded| && 0 <= p < |layout.planes|
      ensures SameIn(layout, fromPages, source, offloaded[k], toPages, target, loaded[k], p)
    {
      assert Moved(layout, fromPages, source, host, offloaded[k], k, p);
      assert Moved(layout, toPages, target, host, loaded[k], k, p);
      ThroughHost(layout, fromPages, source, offloaded[k], host, k, toPages, target, loaded[k], p);
    }
  }

  /** Offload, then load elsewhere: the two operations in sequence. */
  method MovePages(from: DeviceKVPlanes, offloaded: seq<nat>, to: DeviceKVPlanes, loaded: seq<nat>, host: HostPages)
    returns (r: Result<()>)
    requires from.Valid() && to.Valid() && host.Valid() && |offloaded| == |loaded|
    modifies host`bytes, from`work, to`planes, to`work, to`validationStamp, to`validationMarks
    ensures from.Valid() && to.Valid() && host.Valid()
    ensures r.Ok? <==>
              && |offloaded| == host.pageCount && host.layout.geometry == from.geometry == to.geometry
              && InPool(offloaded, from.pages) && InPool(loaded, to.pages) && Distinct(loaded)
    ensures r.Ok? ==> forall k, p :: 0 <= k < |loaded| && 0 <= p < |host.layout.planes| ==>
              SameIn(host.layout, from.pages, old(from.planes), offloaded[k], to.pages, to.planes, loaded[k], p)
    ensures r.Ok? ==> OthersSame(host.layout, to.pages, old(to.planes), to.planes, loaded)
  {
    hide WellPlanned, PlanesSized, AllMoved, SameIn, OthersSame, PaddingSame;
    ghost var source := from.planes;
    r := from.CopyToHost(offloaded, host);
    if r.Err? { return; }
    PlaneCount(host.layout, from.geometry, from.pages, source);
    r := to.CopyFromHost(host, loaded);
    if r.Err? { return; }
    PlaneCount(host.layout, to.geometry, to.pages, to.planes);
    RoundTrip(host.layout, from.pages, source, offloaded, host.bytes, to.pages, to.planes, loaded);
  }

  // ----- The host image does not depend on the plane order

  function Reordered(geometry: PageGeometry, order: PlaneOrder): PageGeometry {
    geometry.(order := order)
  }

  lemma {:induction false} PlanPlanesIgnoreOrder(geometry: PageGeometry, order: PlaneOrder, n: nat)
    requires n <= |geometry.planes|
    ensures PlanPlanes(Reordered(geometry, order), n) == PlanPlanes(geometry, n)
  {
    if n > 0 { PlanPlanesIgnoreOrder(geometry, order, n - 1); }
  }

  /** Two layouts put every plane of a record in the same place. */
  ghost predicate SameRecord(a: HostPageLayout, b: HostPageLayout) {
    a.planes == b.planes && a.pageStride == b.pageStride
  }

  /** Both orders plan the same record. */
  lemma PlanIgnoresOrder(geometry: PageGeometry, order: PlaneOrder)
    ensures var a, b := PlanLayout(geometry), PlanLayout(Reordered(geometry, order));
            && a.Ok? == b.Ok?
            && (a.Ok? ==> WellPlanned(a.value) && WellPlanned(b.value) && SameRecord(a.value, b.value))
  {
    PlanPlanesIgnoreOrder(geometry, order, |geometry.planes|);
    if PlanLayout(geometry).Ok? {
      PlanLayoutSound(geometry);
      PlanLayoutSound(Reordered(geometry, order));
    }
  }

  /** Byte j of plane p is the same in page x of one pool and page y of another, whatever their plane orders. */
  ghost predicate SameContent(la: HostPageLayout, aPages: nat, a: seq<seq<byte>>, x: nat,
                              lb: HostPageLayout, bPages: nat, b: seq<seq<byte>>, y: nat, p: nat, j: nat)
    requires WellPlanned(la) && WellPlanned(lb) && p < |la.planes| && p < |lb.planes|
  {
    ShapeValid(la, aPages, p);
    ShapeValid(lb, bPages, p);
    p < |a| && p < |b| && SamePageByte(Shape(la, aPages, p), a[p], x, Shape(lb, bPages, p), b[p], y, j)
  }

  /** The same page content in a page-major and a head-major pool gives the same record. */
  lemma HostImageIgnoresOrder(la: HostPageLayout, aPages: nat, a: seq<seq<byte>>, x: nat, hostA: seq<byte>,
                              lb: HostPageLayout, bPages: nat, b: seq<seq<byte>>, y: nat, hostB: seq<byte>, k: nat,
                                p: nat, j: nat)
    requires WellPlanned(la) && WellPlanned(lb) && SameRecord(la, lb) && p < |la.planes|
    requires Moved(la, aPages, a, hostA, x, k, p) && Moved(lb, bPages, b, hostB, y, k, p)
    requires j < la.planes[p].pagePayloadBytes && SameContent(la, aPages, a, x, lb, bPages, b, y, p, j)
    ensures var at := Cell(la.pageStride, k, la.planes[p].offset + j);
            at < |hostA| && at < |hostB| && hostA[at] == hostB[at]
  {
    hide WellPlanned, Shape, PlaneShape.Place, Cell;
    ShapeValid(la, aPages, p);
    ShapeValid(lb, bPages, p);
    PositiveExtents(la, p);
    PositiveExtents(lb, p);
    assert SameByte(Shape(la, aPages, p), a[p], x, la.pageStride, la.planes[p].offset, hostA, k, j);
    assert SameByte(Shape(lb, bPages, p), b[p], y, lb.pageStride, lb.planes[p].offset, hostB, k, j);
  }

  // ----- Planned work

  /** What copying the listed pages to or from the host costs. */
  function HostWork(layout: HostPageLayout, pages: nat, runs: nat): TransferWork
    requires |layout.planes| == |layout.geometry.planes|
  {
    TransferWork(PayloadPerPage(layout, |layout.planes|) * pages, CopiesPerRun(layout.geometry, |layout.planes|) * runs)
  }

  lemma {:induction false} PayloadGrows(layout: HostPageLayout, i: nat, j: nat)
    requires i <= j <= |layout.planes|
    ensures PayloadPerPage(layout, i) <= PayloadPerPage(layout, j)
  {
    if i < j { PayloadGrows(layout, i, j - 1); }
  }

  lemma {:induction false} CopiesGrow(geometry: PageGeometry, i: nat, j: nat)
    requires i <= j <= |geometry.planes|
    ensures CopiesPerRun(geometry, i) <= CopiesPerRun(geometry, j)
  {
    if i < j { CopiesGrow(geometry, i, j - 1); }
  }

  predicate WorkFits(work: TransferWork) {
    work.payloadBytes <= SIZE_MAX && work.copyOperations <= UINT32_MAX
  }

  lemma WorkTooBig(layout: HostPageLayout, n: nat, pages: nat, runs: nat)
    requires |layout.planes| == |layout.geometry.planes| && n <= |layout.planes| && pages > 0 && runs > 0
    ensures PayloadPerPage(layout, n) > SIZE_MAX ==> HostWork(layout, pages, runs).payloadBytes > SIZE_MAX
    ensures CopiesPerRun(layout.geometry, n) > UINT32_MAX ==> HostWork(layout, pages, runs).copyOperations > UINT32_MAX
  {
    PayloadGrows(layout, n, |layout.planes|);
    CopiesGrow(layout.geometry, n, |layout.planes|);
    AtLeastOnce(PayloadPerPage(layout, |layout.planes|), pages);
    AtLeastOnce(CopiesPerRun(layout.geometry, |layout.planes|), runs);
  }

  lemma AtLeastOnce(a: nat, n: nat)
    requires n > 0
    ensures a * n >= a
  {
    MulMonotone(1, n, a);
    assert a * n == n * a;
  }

  /** plan_host_kv_transfer_work: the cost of a transfer, or the overflow it would be. */
  method PlanHostTransferWork(layout: HostPageLayout, pages: nat, runs: nat) returns (r: Result<TransferWork>)
    ensures pages == 0 ==> r == Ok(TransferWork(0, 0))
    ensures pages > 0 && (runs == 0 || runs > pages || layout.planes == []
                          || |layout.planes| != |layout.geometry.planes|)
            ==> r == Err(InvalidArgument)
    ensures pages > 0 && 0 < runs <= pages && 0 < |layout.planes| == |layout.geometry.planes| ==>
              r == if WorkFits(HostWork(layout, pages, runs)) then Ok(HostWork(layout, pages, runs))
                else Err(OverflowError)
  {
    hide CopiesOf;
    if pages == 0 { return Ok(TransferWork(0, 0)); }
    if runs == 0 || runs > pages || layout.planes == [] || |layout.planes| != |layout.geometry.planes| {
      return Err(InvalidArgument);
    }
    var bytesPerPage: nat, operationsPerRun: nat := 0, 0;
    for p := 0 to |layout.planes|
      invariant bytesPerPage == PayloadPerPage(layout, p) && operationsPerRun == CopiesPerRun(layout.geometry, p)
    {
      WorkTooBig(layout, p + 1, pages, runs);
      var bytes := CheckedAdd(bytesPerPage, layout.planes[p].pagePayloadBytes);
      if bytes.Err? { return Err(OverflowError); }
      var operations := CheckedAdd(operationsPerRun, CopiesOf(layout.geometry, p));
      if operations.Err? { return Err(OverflowError); }
      bytesPerPage, operationsPerRun := bytes.value, operations.value;
    }
    var payload := CheckedMul(bytesPerPage, pages);
    if payload.Err? { return Err(OverflowError); }
    var operations := CheckedMul(operationsPerRun, runs);
    if operations.Err? || operations.value > UINT32_MAX { return Err(OverflowError); }
    r := Ok(TransferWork(payload.value, operations.value));
  }

  lemma {:induction false} RunCountBounds(list: seq<nat>, n: nat)
    requires n <= |list|
    ensures RunCount(list, n) <= n && (n > 0 ==> RunCount(list, n) > 0)
  {
    if n > 0 { RunCountBounds(list, n - 1); }
  }

  /** What one copied page costs, for n pages. */
  function DeviceWork(layout: HostPageLayout, pages: nat): TransferWork {
    TransferWork(PayloadPerPage(layout, |layout.planes|) * pages, |layout.planes| * pages)
  }

  /** plan_device_kv_copy_work. */
  method PlanDeviceCopyWork(layout: HostPageLayout, pages: nat) returns (r: Result<TransferWork>)
    ensures pages == 0 ==> r == Ok(TransferWork(0, 0))
    ensures pages > 0 && (layout.planes == [] || |layout.planes| != |layout.geometry.planes|)
            ==> r == Err(InvalidArgument)
    ensures pages > 0 && 0 < |layout.planes| == |layout.geometry.planes| ==>
              r == if WorkFits(DeviceWork(layout, pages)) then Ok(DeviceWork(layout, pages)) else Err(OverflowError)
  {
    if pages == 0 { return Ok(TransferWork(0, 0)); }
    if layout.planes == [] || |layout.planes| != |layout.geometry.planes| { return Err(InvalidArgument); }
    var bytesPerPage: nat := 0;
    for p := 0 to |layout.planes|
      invariant bytesPerPage == PayloadPerPage(layout, p)
    {
      PayloadGrows(layout, p + 1, |layout.planes|);
      AtLeastOnce(PayloadPerPage(layout, |layout.planes|), pages);
      var bytes := CheckedAdd(bytesPerPage, layout.planes[p].pagePayloadBytes);
      if bytes.Err? { return Err(OverflowError); }
      bytesPerPage := bytes.value;
    }
    var payload := CheckedMul(bytesPerPage, pages);
    if payload.Err? { return Err(OverflowError); }
    var operations := CheckedMul(|layout.planes|, pages);
    if operations.Err? || operations.value > UINT32_MAX { return Err(OverflowError); }
    r := Ok(TransferWork(payload.value, operations.value));
  }

  /** The payload of a pool page is the payload of a host record. */
  lemma {:induction false} PoolPayloadIsHostPayload(layout: HostPageLayout, n: nat)
    requires WellPlanned(layout) && n <= |layout.planes|
    ensures PoolPayload(layout.geometry, n) == PayloadPerPage(layout, n)
  {
    hide WellPlanned;
    if n > 0 {
      PoolPayloadIsHostPayload(layout, n - 1);
      ShapeValid(layout, 0, n - 1);
      PositiveExtents(layout, n - 1);
    }
  }
}
