/** Page geometry shared by the device pool and the host arena, and the packed host page layout. */
module KvLayout {
  import opened Common

  datatype DType = BF16 | FP32 | I32 | U8 | I64 | I8 | FP16 | FP8E4M3FN

  function DTypeSize(dtype: DType): nat {
    match dtype
    case BF16 => 2
    case FP32 => 4
    case I32 => 4
    case U8 => 1
    case I64 => 8
    case I8 => 1
    case FP16 => 2
    case FP8E4M3FN => 1
  }

  datatype PlaneOrder = PageMajor | HeadMajor

  datatype PlaneGeometry = PlaneGeometry(dtype: DType, leadingExtent: int, headExtent: int, alignment: nat)

  datatype PageGeometry = PageGeometry(pageTokens: nat, order: PlaneOrder, planes: seq<PlaneGeometry>)

  datatype HostPlaneLayout = HostPlaneLayout(offset: nat, pagePayloadBytes: nat, headPayloadBytes: nat) {
    function End(): nat { offset + pagePayloadBytes }
  }

  datatype HostPageLayout = HostPageLayout(geometry: PageGeometry, planes: seq<HostPlaneLayout>, pageStride: nat)

  const HOST_ALIGNMENT: nat := 256

  /** align_up to 256 with the overflow check of the host arena's helper. */
  function AlignHost(value: nat): Result<nat> {
    if value > SIZE_MAX - (HOST_ALIGNMENT - 1) then Err(OverflowError) else Ok(AlignUp(value, HOST_ALIGNMENT))
  }

  function HeadBytes(geometry: PageGeometry, plane: PlaneGeometry): nat {
    if plane.leadingExtent <= 0 then 0 else plane.leadingExtent * geometry.pageTokens * DTypeSize(plane.dtype)
  }

  datatype Planned = Planned(planes: seq<HostPlaneLayout>, cursor: nat)

  /** One plane placed after the planes planned so far. */
  function PlanPlane(geometry: PageGeometry, before: Planned, plane: PlaneGeometry): Result<Planned> {
    if plane.leadingExtent <= 0 || plane.headExtent <= 0 then Err(InvalidArgument) else
    var offset :- AlignHost(before.cursor);
    var column :- CheckedMul(plane.leadingExtent, geometry.pageTokens);
    var head :- CheckedMul(column, DTypeSize(plane.dtype));
    var page :- CheckedMul(head, plane.headExtent);
    var cursor :- CheckedAdd(offset, page);
    Ok(Planned(before.planes + [HostPlaneLayout(offset, page, head)], cursor))
  }

  function PlanPlanes(geometry: PageGeometry, n: nat): Result<Planned>
    requires n <= |geometry.planes|
  {
    if n == 0 then Ok(Planned([], 0)) else
    var before :- PlanPlanes(geometry, n - 1);
    PlanPlane(geometry, before, geometry.planes[n - 1])
  }

  function PlanLayout(geometry: PageGeometry): Result<HostPageLayout> {
    if geometry.pageTokens == 0 || geometry.planes == [] then Err(InvalidArgument) else
    var all :- PlanPlanes(geometry, |geometry.planes|);
    var stride :- AlignHost(all.cursor);
    Ok(HostPageLayout(geometry, all.planes, stride))
  }

  /** Planes are aligned, in order, disjoint, inside the page record, and sized by their geometry. */
  ghost predicate WellPlanned(layout: HostPageLayout) {
    && layout.geometry.pageTokens > 0
    && |layout.planes| == |layout.geometry.planes| > 0
    && PlanesFit(layout.geometry, layout.planes, layout.pageStride)
    && layout.pageStride % HOST_ALIGNMENT == 0
    && HOST_ALIGNMENT <= layout.pageStride <= SIZE_MAX
  }

  ghost predicate PlanesFit(geometry: PageGeometry, planes: seq<HostPlaneLayout>, end: nat)
    requires |planes| <= |geometry.planes|
  {
    && (forall i :: 0 <= i < |planes| ==>
          && geometry.planes[i].leadingExtent > 0 && geometry.planes[i].headExtent > 0
          && planes[i].offset % HOST_ALIGNMENT == 0
          && planes[i].headPayloadBytes == HeadBytes(geometry, geometry.planes[i]) > 0
          && planes[i].pagePayloadBytes == planes[i].headPayloadBytes * geometry.planes[i].headExtent > 0
          && planes[i].End() <= end)
    && (forall i, j :: 0 <= i < j < |planes| ==> planes[i].End() <= planes[j].offset)
  }

  lemma PlanPlaneSizes(geometry: PageGeometry, before: Planned, plane: PlaneGeometry)
    requires geometry.pageTokens > 0 && PlanPlane(geometry, before, plane).Ok?
    ensures plane.leadingExtent > 0 && plane.headExtent > 0
    ensures var all := PlanPlane(geometry, before, plane).value;
            var last := all.planes[|before.planes|];
            && all == Planned(before.planes + [last], last.End()) && last.End() <= SIZE_MAX
            && last.offset == AlignUp(before.cursor, HOST_ALIGNMENT)
            && last.headPayloadBytes == HeadBytes(geometry, plane) > 0
            && last.pagePayloadBytes == last.headPayloadBytes * plane.headExtent > 0
  {
    hide AlignUp;
    Positive(plane.leadingExtent, geometry.pageTokens);
    Positive(plane.leadingExtent * geometry.pageTokens, DTypeSize(plane.dtype));
    Positive(HeadBytes(geometry, plane), plane.headExtent);
  }

  lemma Positive(a: int, b: int)
    requires a > 0 && b > 0
    ensures a * b > 0
  {
  }

  lemma {:induction false} PlanPlanesFit(geometry: PageGeometry, n: nat)
    requires n <= |geometry.planes| && geometry.pageTokens > 0 && PlanPlanes(geometry, n).Ok?
    ensures var all := PlanPlanes(geometry, n).value;
            |all.planes| == n && all.cursor <= SIZE_MAX && (n > 0 ==> all.cursor > 0)
              && PlanesFit(geometry, all.planes, all.cursor)
  {
    hide PlanPlane, HeadBytes, AlignUp;
    if n > 0 {
      PlanPlanesFit(geometry, n - 1);
      var before := PlanPlanes(geometry, n - 1).value;
      var all := PlanPlanes(geometry, n).value;
      var plane := geometry.planes[n - 1];
      AlignUpIsLeast(before.cursor, HOST_ALIGNMENT);
      PlanPlaneSizes(geometry, before, plane);
    }
  }

  /** Every layout the planner returns is well planned. */
  lemma PlanLayoutSound(geometry: PageGeometry)
    requires PlanLayout(geometry).Ok?
    ensures WellPlanned(PlanLayout(geometry).value)
    ensures PlanLayout(geometry).value.geometry == geometry
  {
    hide PlanPlanes, HeadBytes, AlignUp;
    PlanPlanesFit(geometry, |geometry.planes|);
    var all := PlanPlanes(geometry, |geometry.planes|).value;
    AlignUpIsLeast(all.cursor, HOST_ALIGNMENT);
    AlignedOnce(all.cursor);
    FitsAligned(geometry, all.planes, all.cursor, AlignUp(all.cursor, HOST_ALIGNMENT));
  }

  lemma AlignedOnce(n: nat)
    requires n > 0
    ensures AlignUp(n, HOST_ALIGNMENT) >= HOST_ALIGNMENT
  {
  }

  lemma FitsAligned(geometry: PageGeometry, planes: seq<HostPlaneLayout>, end: nat, aligned: nat)
    requires |planes| <= |geometry.planes| && PlanesFit(geometry, planes, end) && end <= aligned
    ensures PlanesFit(geometry, planes, aligned)
  {
  }

  lemma {:induction false} PlanFailureSticks(geometry: PageGeometry, n: nat, m: nat)
    requires n <= m <= |geometry.planes| && PlanPlanes(geometry, n).Err?
    ensures PlanPlanes(geometry, m) == PlanPlanes(geometry, n)
  {
    if n < m { PlanFailureSticks(geometry, n, m - 1); }
  }

  // ----- Which layout a geometry gets, and which geometries get none

  /** The payload of a plane in one page: elements of the type's width for every token and head. */
  function PlaneBytes(geometry: PageGeometry, plane: PlaneGeometry): nat {
    if plane.headExtent <= 0 then 0 else HeadBytes(geometry, plane) * plane.headExtent
  }

  /** Where the first n planes end when each begins on the next boundary, whatever fits in 64 bits. */
  function PackedEnd(geometry: PageGeometry, n: nat): nat
    requires n <= |geometry.planes|
  {
    if n == 0 then 0
    else AlignUp(PackedEnd(geometry, n - 1), HOST_ALIGNMENT) + PlaneBytes(geometry, geometry.planes[n - 1])
  }

  /** The least boundary at or above n. */
  predicate NextBoundary(n: nat, at: nat) {
    at % HOST_ALIGNMENT == 0 && n <= at < n + HOST_ALIGNMENT
  }

  /** The number of bytes of n elements. */
  predicate Wide(dtype: DType, n: int, bytes: int) {
    match dtype
    case I8 => bytes == n
    case U8 => bytes == n
    case FP8E4M3FN => bytes == n
    case BF16 => bytes == 2 * n
    case FP16 => bytes == 2 * n
    case FP32 => bytes == 4 * n
    case I32 => bytes == 4 * n
    case I64 => bytes == 8 * n
  }

  /** No byte is wasted but for alignment, and no plane is larger than its elements. */
  ghost predicate Packed(layout: HostPageLayout) {
    && |layout.planes| == |layout.geometry.planes| > 0
    && layout.planes[0].offset == 0
    && (forall i :: 0 < i < |layout.planes| ==> NextBoundary(layout.planes[i - 1].End(), layout.planes[i].offset))
    && NextBoundary(layout.planes[|layout.planes| - 1].End(), layout.pageStride)
    && forall i :: 0 <= i < |layout.planes| ==>
         var g, plane := layout.geometry.planes[i], layout.planes[i];
         && Wide(g.dtype, g.leadingExtent * layout.geometry.pageTokens, plane.headPayloadBytes)
         && plane.pagePayloadBytes == plane.headPayloadBytes * g.headExtent
  }

  lemma BoundaryFits(n: nat)
    ensures NextBoundary(n, AlignUp(n, HOST_ALIGNMENT))
    ensures AlignUp(n, HOST_ALIGNMENT) <= SIZE_MAX <==> AlignHost(n).Ok?
  {
    AlignUpIsLeast(n, HOST_ALIGNMENT);
  }

  /** One plane is refused exactly for its extents or because its end does not fit. */
  lemma PlanPlaneExact(geometry: PageGeometry, before: Planned, plane: PlaneGeometry)
    requires geometry.pageTokens > 0
    ensures PlanPlane(geometry, before, plane).Ok? <==>
              && plane.leadingExtent > 0 && plane.headExtent > 0
              && AlignUp(before.cursor, HOST_ALIGNMENT) + PlaneBytes(geometry, plane) <= SIZE_MAX
    ensures PlanPlane(geometry, before, plane).Ok? ==>
              PlanPlane(geometry, before, plane).value.cursor
              == AlignUp(before.cursor, HOST_ALIGNMENT) + PlaneBytes(geometry, plane)
  {
    hide AlignUp;
    BoundaryFits(before.cursor);
    if plane.leadingExtent > 0 && plane.headExtent > 0 {
      GrowsBy(plane.leadingExtent * geometry.pageTokens, DTypeSize(plane.dtype));
      GrowsBy(HeadBytes(geometry, plane), plane.headExtent);
    }
  }

  lemma GrowsBy(a: nat, b: int)
    requires b > 0
    ensures a <= a * b
  {
    MulMonotone(1, b, a);
  }

  /** The plan exists exactly as far as the extents are positive and the packed end fits. */
  lemma {:induction false} PlanPlanesExact(geometry: PageGeometry, n: nat)
    requires n <= |geometry.planes| && geometry.pageTokens > 0
    ensures PlanPlanes(geometry, n).Ok? <==>
              && (forall i :: 0 <= i < n ==> geometry.planes[i].leadingExtent > 0 && geometry.planes[i].headExtent > 0)
              && PackedEnd(geometry, n) <= SIZE_MAX
    ensures PlanPlanes(geometry, n).Ok? ==> PlanPlanes(geometry, n).value.cursor == PackedEnd(geometry, n)
  {
    hide PlanPlane, AlignUp, PlaneBytes;
    if n > 0 {
      PlanPlanesExact(geometry, n - 1);
      AlignUpIsLeast(PackedEnd(geometry, n - 1), HOST_ALIGNMENT);
      PlanPlaneExact(geometry, Planned([], PackedEnd(geometry, n - 1)), geometry.planes[n - 1]);
      if PlanPlanes(geometry, n - 1).Ok? {
        PlanPlaneExact(geometry, PlanPlanes(geometry, n - 1).value, geometry.planes[n - 1]);
      }
    }
  }

  lemma {:induction false} PlanPlanesPacked(geometry: PageGeometry, n: nat)
    requires n <= |geometry.planes| && geometry.pageTokens > 0 && PlanPlanes(geometry, n).Ok?
    ensures var all := PlanPlanes(geometry, n).value;
            && |all.planes| == n && all.cursor == (if n == 0 then 0 else all.planes[n - 1].End())
            && (n > 0 ==> all.planes[0].offset == 0)
            && (forall i :: 0 < i < n ==> NextBoundary(all.planes[i - 1].End(), all.planes[i].offset))
  {
    hide PlanPlane, HeadBytes, AlignUp;
    if n > 0 {
      PlanPlanesPacked(geometry, n - 1);
      var before := PlanPlanes(geometry, n - 1).value;
      BoundaryFits(before.cursor);
      PlanPlaneSizes(geometry, before, geometry.planes[n - 1]);
    }
  }

  /** Exactly the geometries with tokens and planes of positive extents whose record is a 64-bit number of bytes get a
      layout, and it is the packed one. */
  lemma PlanLayoutExact(geometry: PageGeometry)
    ensures PlanLayout(geometry).Ok? <==>
              && geometry.pageTokens > 0 && geometry.planes != []
              && (forall i :: 0 <= i < |geometry.planes| ==>
                    geometry.planes[i].leadingExtent > 0 && geometry.planes[i].headExtent > 0)
              && AlignUp(PackedEnd(geometry, |geometry.planes|), HOST_ALIGNMENT) <= SIZE_MAX
    ensures PlanLayout(geometry).Ok? ==>
              && Packed(PlanLayout(geometry).value)
              && PlanLayout(geometry).value.pageStride
                 == AlignUp(PackedEnd(geometry, |geometry.planes|), HOST_ALIGNMENT)
  {
    hide PlanPlanes, AlignUp, HeadBytes;
    var n := |geometry.planes|;
    if geometry.pageTokens > 0 && n > 0 {
      PlanPlanesExact(geometry, n);
      BoundaryFits(PackedEnd(geometry, n));
      if PlanLayout(geometry).Ok? {
        PlanPlanesPacked(geometry, n);
        PlanLayoutSound(geometry);
        forall i | 0 <= i < n
          ensures Wide(geometry.planes[i].dtype, geometry.planes[i].leadingExtent * geometry.pageTokens,
                       HeadBytes(geometry, geometry.planes[i]))
        {
          HeadWide(geometry, geometry.planes[i]);
        }
      }
    }
  }

  lemma HeadWide(geometry: PageGeometry, plane: PlaneGeometry)
    requires plane.leadingExtent > 0
    ensures Wide(plane.dtype, plane.leadingExtent * geometry.pageTokens, HeadBytes(geometry, plane))
  {
  }

  /** plan_host_kv_page_layout: one pass over the planes with a running cursor. */
  method PlanHostKVPageLayout(geometry: PageGeometry) returns (r: Result<HostPageLayout>)
    ensures r == PlanLayout(geometry)
    ensures r.Ok? ==> WellPlanned(r.value)
  {
    if geometry.pageTokens == 0 || geometry.planes == [] {
      return Err(InvalidArgument);
    }
    var planes: seq<HostPlaneLayout> := [];
    var cursor: nat := 0;
    for i := 0 to |geometry.planes|
      invariant PlanPlanes(geometry, i) == Ok(Planned(planes, cursor))
    {
      var step := PlanPlane(geometry, Planned(planes, cursor), geometry.planes[i]);
      if step.Err? {
        PlanFailureSticks(geometry, i + 1, |geometry.planes|);
        return Err(step.error);
      }
      planes, cursor := step.value.planes, step.value.cursor;
    }
    var stride := AlignHost(cursor);
    if stride.Err? { return Err(stride.error); }
    r := Ok(HostPageLayout(geometry, planes, stride.value));
    PlanLayoutSound(geometry);
  }
}
