/** Views of encoded weights: regions of a parent, complete parents, and the planes of a run of rows. */
module WeightView {
  import opened Common
  import opened WeightGeometry

  /** A parent by identity: two parents are the same when their ids are. */
  datatype Parent = Parent(id: nat, geometry: Geometry, resident: bool)

  datatype Region = Region(parent: Option<Parent>, begin: nat, end: nat)

  datatype View = View(shape: seq<nat>, parts: seq<Region>)

  predicate ValidRegion(r: Region) {
    r.parent.Some? && r.begin < r.end <= r.parent.value.geometry.elements
  }

  /** Parts of one parent, each starting where the one before ends. */
  ghost predicate Adjacent(parts: seq<Region>, n: nat) {
    && n <= |parts|
    && (forall i :: 0 <= i < n ==> parts[i].parent == parts[0].parent && parts[i].begin < parts[i].end)
    && (forall i :: 0 <= i < n - 1 ==> parts[i].end == parts[i + 1].begin)
  }

  /** What contiguous_weight_region accepts. */
  ghost predicate Mergeable(view: View) {
    && view.parts != [] && Adjacent(view.parts, |view.parts|)
    && (forall i :: 0 <= i < |view.parts| ==> ValidRegion(view.parts[i]))
    && ElementCount(view.shape) == Ok(view.parts[|view.parts| - 1].end - view.parts[0].begin)
  }

  /** Merges adjacent regions of one parent, and nothing else. */
  method ContiguousRegion(view: View) returns (r: Result<Region>)
    ensures r.Ok? <==> Mergeable(view)
    ensures r.Ok? ==> r.value == Region(view.parts[0].parent, view.parts[0].begin, view.parts[|view.parts| - 1].end)
  {
    hide Adjacent, ElementCount, Product, ValidRegion;
    if view.parts == [] { return Err(InvalidArgument); }
    var merged := view.parts[0];
    if !ValidRegion(merged) { return Err(InvalidArgument); }
    RegionNonempty(merged);
    AdjacentOne(view.parts);
    for i := 1 to |view.parts|
      invariant merged == Region(view.parts[0].parent, view.parts[0].begin, view.parts[i - 1].end)
      invariant merged.begin < merged.end
      invariant Adjacent(view.parts, i) && forall k :: 0 <= k < i ==> ValidRegion(view.parts[k])
    {
      var next := view.parts[i];
      if !ValidRegion(next) { return Err(InvalidArgument); }
      if next.parent != merged.parent || next.begin != merged.end {
        NotAdjacent(view.parts, i);
        return Err(InvalidArgument);
      }
      RegionNonempty(next);
      AdjacentStep(view.parts, i);
      merged := merged.(end := next.end);
    }
    var count := WeightElementCount(view.shape);
    if count.Err? { return Err(count.error); }
    if merged.end - merged.begin != count.value { return Err(InvalidArgument); }
    r := Ok(merged);
  }

  lemma RegionNonempty(r: Region)
    requires ValidRegion(r)
    ensures r.begin < r.end
  {
  }

  lemma AdjacentOne(parts: seq<Region>)
    requires parts != [] && parts[0].begin < parts[0].end
    ensures Adjacent(parts, 1)
  {
  }

  lemma AdjacentStep(parts: seq<Region>, n: nat)
    requires 0 < n < |parts| && Adjacent(parts, n)
    requires parts[n].parent == parts[0].parent && parts[n].begin == parts[n - 1].end && parts[n].begin < parts[n].end
    ensures Adjacent(parts, n + 1)
  {
  }

  lemma NotAdjacent(parts: seq<Region>, i: nat)
    requires 0 < i < |parts| && (parts[i].parent != parts[0].parent || parts[i].begin != parts[i - 1].end)
    ensures !Adjacent(parts, |parts|)
  {
    if Adjacent(parts, |parts|) {
      AdjacentAt(parts, |parts|, i);
      assert false;
    }
  }

  lemma AdjacentAt(parts: seq<Region>, n: nat, i: nat)
    requires Adjacent(parts, n) && 0 < i < n
    ensures parts[i].parent == parts[0].parent && parts[i].begin == parts[i - 1].end
  {
    assert parts[i - 1].end == parts[i - 1 + 1].begin;
  }

  /** The parts are the whole of one parent, in order, under the parent's own shape. */
  ghost predicate Complete(view: View) {
    && view.parts != [] && view.parts[0].parent.Some?
    && Adjacent(view.parts, |view.parts|)
    && view.shape == view.parts[0].parent.value.geometry.shape
    && view.parts[0].begin == 0
    && view.parts[|view.parts| - 1].end == view.parts[0].parent.value.geometry.elements
  }

  method IsComplete(view: View) returns (complete: bool)
    ensures complete <==> Complete(view)
  {
    if view.parts == [] { return false; }
    var parent := view.parts[0].parent;
    if parent.None? || view.shape != parent.value.geometry.shape { return false; }
    var end: nat := 0;
    for i := 0 to |view.parts|
      invariant Adjacent(view.parts, i)
      invariant if i == 0 then end == 0 else view.parts[0].begin == 0 && end == view.parts[i - 1].end
    {
      var part := view.parts[i];
      if part.parent != parent || part.begin != end || part.end <= part.begin {
        if i > 0 && part.end > part.begin { NotAdjacent(view.parts, i); }
        return false;
      }
      end := part.end;
    }
    complete := end == parent.value.geometry.elements;
  }

  lemma {:induction false} AdjacentOrdered(parts: seq<Region>, n: nat, i: nat, j: nat)
    requires Adjacent(parts, n) && i < j < n
    ensures parts[i].end <= parts[j].begin
    decreases j - i
  {
    if i < j - 1 { AdjacentOrdered(parts, n, i, j - 1); }
  }

  lemma {:induction false} AdjacentCovers(parts: seq<Region>, n: nat, e: nat) returns (i: nat)
    requires Adjacent(parts, n) && n > 0 && parts[0].begin <= e < parts[n - 1].end
    ensures i < n && parts[i].begin <= e < parts[i].end
    decreases n
  {
    if e >= parts[n - 1].begin {
      i := n - 1;
    } else {
      i := AdjacentCovers(parts, n - 1, e);
    }
  }

  /** Every element of a complete parent lies in exactly one part. */
  lemma CompleteOnce(view: View, e: nat)
    requires Complete(view) && e < view.parts[0].parent.value.geometry.elements
    ensures exists i :: 0 <= i < |view.parts| && view.parts[i].begin <= e < view.parts[i].end
    ensures forall i, j :: 0 <= i < j < |view.parts| ==>
              !(view.parts[i].begin <= e < view.parts[i].end && view.parts[j].begin <= e < view.parts[j].end)
  {
    var i := AdjacentCovers(view.parts, |view.parts|, e);
    forall i, j | 0 <= i < j < |view.parts| ensures view.parts[i].end <= view.parts[j].begin {
      AdjacentOrdered(view.parts, |view.parts|, i, j);
    }
  }

  // ----- Planes of a run of rows

  datatype RowPlanes = RowPlanes(codes: nat, high: Option<nat>, scales: Option<nat>, rowBegin: nat, rowCount: nat,
                                 swizzled: bool)

  /** weight_row_planes: offsets, from the parent's first byte, of the planes of whole rows. */
  function RowPlanesOf(region: Region): Result<RowPlanes> {
    if !ValidRegion(region) then Err(InvalidArgument) else
    var g := region.parent.value.geometry;
    if !region.parent.value.resident || |g.shape| != 2 || g.shape[1] == 0
       || region.begin % g.shape[1] != 0 || region.end % g.shape[1] != 0 then Err(InvalidArgument)
    else
      var first := region.begin / g.shape[1];
      var swizzled := g.layout == BlockScaleK16M128x4;
      Ok(RowPlanes(first * g.codeBytesPerRow,
                   if g.highBytes > 0 then Some(g.highOffset + first * g.highBytesPerRow) else None,
                   if g.scaleBytes > 0 then Some(g.scaleOffset + if swizzled then 0 else first * g.scaleBytesPerRow)
                     else None,
                   first, (region.end - region.begin) / g.shape[1], swizzled))
  }

  /** The rows of every plane fill the plane. */
  ghost predicate RowsFill(g: Geometry) {
    && |g.shape| == 2 && g.shape[1] > 0 && g.elements == g.shape[0] * g.shape[1]
    && g.shape[0] * g.codeBytesPerRow == g.codeBytes
    && g.shape[0] * g.highBytesPerRow == g.highBytes
  }

  lemma RowsOf(format: QType, layout: QuantLayout, shape: seq<nat>)
    requires GeometryOf(format, layout, shape).Ok? && |shape| == 2
    ensures RowsFill(GeometryOf(format, layout, shape).value)
  {
    hide GeometryOf, RowsFill;
    ShapeKept(format, layout, shape);
    TwoDimensions(shape);
    var g := GeometryOf(format, layout, shape).value;
    if layout == Contiguous {
      RowsOfPlain(g);
    } else {
      RowsOfQuantized(g);
    }
  }

  lemma RowsOfPlain(g: Geometry)
    requires |g.shape| == 2 && GeometryOf(g.format, Contiguous, g.shape) == Ok(g) && g.elements == Area(g.shape)
    ensures RowsFill(g)
  {
    var word := WordBytes(g.format).value;
    assert g.shape[0] * (g.shape[1] * word) == g.shape[0] * g.shape[1] * word;
  }

  lemma RowsOfQuantized(g: Geometry)
    requires |g.shape| == 2 && g.layout != Contiguous && g.elements == Area(g.shape)
    requires GeometryOf(g.format, g.layout, g.shape) == Ok(g)
    ensures RowsFill(g)
  {
    if g.layout == BlockScaleK16M128x4 { HalfOfRows(g.shape[0], g.shape[1]); }
  }

  function Area(shape: seq<nat>): nat
    requires |shape| == 2
  {
    shape[0] * shape[1]
  }

  lemma TwoDimensions(shape: seq<nat>)
    requires |shape| == 2
    ensures Product(shape, 2) == Area(shape)
  {
    assert Product(shape, 1) == Product(shape, 0) * shape[0] == shape[0];
  }

  lemma HalfOfRows(n: nat, k: nat)
    requires k % 64 == 0
    ensures n * k / 2 == n * (k / 2)
  {
    Even(k);
    Doubled(n, k / 2);
  }

  lemma Even(k: nat)
    requires k % 64 == 0
    ensures k == k / 2 * 2
  {
    assert k == k / 64 * 32 * 2 + 0;
    MultipleDiv(k / 64 * 32, 2, 0);
  }

  lemma Doubled(n: nat, h: nat)
    ensures n * (h * 2) / 2 == n * h
  {
    assert n * (h * 2) == n * h * 2 + 0;
    MultipleDiv(n * h, 2, 0);
  }

  /** The planes begin at the first row of the region, each in its own plane, and a plane that the parent has is there;
      only swizzled scales are given from the first row of the parent on. */
  ghost predicate RowsAt(region: Region, planes: RowPlanes) {
    region.parent.Some?
    && var g := region.parent.value.geometry;
       && |g.shape| == 2 && planes.rowBegin * g.shape[1] == region.begin
       && (planes.rowBegin + planes.rowCount) * g.shape[1] == region.end
       && planes.codes == planes.rowBegin * g.codeBytesPerRow
       && (planes.high.Some? <==> g.highBytes > 0) && (planes.scales.Some? <==> g.scaleBytes > 0)
       && (planes.high.Some? ==> planes.high.value - g.highOffset == planes.rowBegin * g.highBytesPerRow)
       && (planes.swizzled <==> g.layout == BlockScaleK16M128x4)
       && (planes.scales.Some? ==> planes.scales.value - g.scaleOffset
                                   == if planes.swizzled then 0 else planes.rowBegin * g.scaleBytesPerRow)
  }

  /** weight_row_planes refuses exactly what is no run of whole rows of a resident matrix. */
  lemma RowPlanesRefuse(format: QType, layout: QuantLayout, shape: seq<nat>, region: Region)
    requires GeometryOf(format, layout, shape).Ok?
    requires region.parent.Some? ==> region.parent.value.geometry == GeometryOf(format, layout, shape).value
    ensures RowPlanesOf(region).Ok? <==>
              && region.parent.Some? && region.parent.value.resident && |shape| == 2
              && region.begin < region.end <= Product(shape, |shape|)
              && region.begin % shape[1] == 0 && region.end % shape[1] == 0
  {
    hide GeometryOf;
    ShapeKept(format, layout, shape);
    CountToCorrect(shape, |shape|);
    PositiveShape(format, layout, shape);
  }

  lemma PositiveShape(format: QType, layout: QuantLayout, shape: seq<nat>)
    requires GeometryOf(format, layout, shape).Ok?
    ensures forall i :: 0 <= i < |shape| ==> shape[i] > 0
  {
    CountToCorrect(shape, |shape|);
  }

  lemma WholeRows(region: Region)
    requires RowPlanesOf(region).Ok?
    ensures RowsAt(region, RowPlanesOf(region).value)
  {
    var columns := region.parent.value.geometry.shape[1];
    var a, b := region.begin / columns, region.end / columns;
    assert region.begin == a * columns && region.end == b * columns;
    assert (b - a) * columns == region.end - region.begin;
    MultipleDiv(b - a, columns, 0);
  }

  /** Row slices stay in their planes, and the plain scale planes agree with the scale addresses. */
  lemma RowPlanesInside(format: QType, layout: QuantLayout, shape: seq<nat>, region: Region, row: nat, group: nat)
    requires GeometryOf(format, layout, shape).Ok? && RowPlanesOf(region).Ok?
    requires region.parent.value.geometry == GeometryOf(format, layout, shape).value
    ensures RowsAt(region, RowPlanesOf(region).value)
    ensures var g, planes := GeometryOf(format, layout, shape).value, RowPlanesOf(region).value;
            && |g.shape| == 2 && planes.rowCount > 0 && planes.rowBegin + planes.rowCount <= g.shape[0]
            && planes.codes + planes.rowCount * g.codeBytesPerRow <= g.codeBytes <= g.bytes
            && (planes.high.Some? ==>
                  planes.high.value + planes.rowCount * g.highBytesPerRow <= g.highOffset + g.highBytes)
            && (row < planes.rowCount && ScaleOffset(g, planes.rowBegin + row, group).Ok? && !planes.swizzled ==>
                  planes.scales.Some? && ScaleOffset(g, planes.rowBegin + row, group).value
                                         == planes.scales.value + row * g.scaleBytesPerRow + group * 2)
  {
    hide GeometryOf, ScaleOffset, RowsAt;
    WholeRows(region);
    ShapeKept(format, layout, shape);
    RowsOf(format, layout, shape);
    GeometryPlanes(format, layout, shape);
    CodesInside(format, layout, shape);
    var g, planes := GeometryOf(format, layout, shape).value, RowPlanesOf(region).value;
    RowRange(region.begin, region.end, g.shape[0], g.shape[1]);
    var last := planes.rowBegin + planes.rowCount;
    SliceInside(planes.rowBegin, planes.rowCount, g.shape[0], g.codeBytesPerRow);
    SliceInside(planes.rowBegin, planes.rowCount, g.shape[0], g.highBytesPerRow);
    PlainScale(format, layout, shape, planes.rowBegin, row, group);
  }

  lemma CodesInside(format: QType, layout: QuantLayout, shape: seq<nat>)
    requires GeometryOf(format, layout, shape).Ok?
    ensures GeometryOf(format, layout, shape).value.codeBytes <= GeometryOf(format, layout, shape).value.bytes
  {
    hide GeometryOf;
    ShapeKept(format, layout, shape);
    GeometryPlanes(format, layout, shape);
  }

  lemma RowRange(begin: nat, end: nat, rows: nat, columns: nat)
    requires columns > 0 && begin < end <= rows * columns && begin % columns == 0 && end % columns == 0
    ensures (end - begin) / columns > 0 && begin / columns + (end - begin) / columns <= rows
  {
    var a, b := begin / columns, end / columns;
    assert begin == a * columns && end == b * columns;
    QuotientOrder(a + 1, b, columns);
    QuotientOrder(b, rows, columns);
    assert end - begin == (b - a) * columns + 0;
    MultipleDiv(b - a, columns, 0);
  }

  lemma QuotientOrder(a: int, b: int, n: int)
    requires n > 0 && a * n - n < b * n
    ensures a <= b
  {
    assert (a - b) * n == a * n - b * n;
    if a - b >= 1 { MulAtLeast(a - b, n); }
  }

  lemma SliceInside(first: nat, count: nat, rows: nat, bytes: nat)
    requires first + count <= rows
    ensures first * bytes + count * bytes <= rows * bytes
  {
    MulMonotone(first + count, rows, bytes);
    assert (first + count) * bytes == first * bytes + count * bytes;
  }

  lemma PlainScale(format: QType, layout: QuantLayout, shape: seq<nat>, first: nat, row: nat, group: nat)
    requires GeometryOf(format, layout, shape).Ok?
    ensures var g := GeometryOf(format, layout, shape).value;
            ScaleOffset(g, first + row, group).Ok? && layout != BlockScaleK16M128x4 ==>
              && g.scaleBytes > 0
              && ScaleOffset(g, first + row, group).value
                 == g.scaleOffset + first * g.scaleBytesPerRow + row * g.scaleBytesPerRow + group * 2
  {
    hide GeometryOf;
    ShapeKept(format, layout, shape);
    var g := GeometryOf(format, layout, shape).value;
    assert (first + row) * g.scaleBytesPerRow == first * g.scaleBytesPerRow + row * g.scaleBytesPerRow;
    if ScaleOffset(g, first + row, group).Ok? && layout != BlockScaleK16M128x4 {
      ContiguousHasNoScales(format, layout, shape);
      ScalesAreTheWords(format, layout, shape, first + row, group);
    }
  }

  lemma ContiguousHasNoScales(format: QType, layout: QuantLayout, shape: seq<nat>)
    requires GeometryOf(format, layout, shape).Ok? && GeometryOf(format, layout, shape).value.groupSize > 0
    ensures layout != Contiguous
  {
  }
}
