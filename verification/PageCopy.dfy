/** Moving KV pages between the device planes and packed host page records. */
module PageCopy {
  import opened Common
  import opened KvLayout
  import opened Payload

  // ----- Records: memory cut into cells of equal stride

  /** Byte i of record k. */
  function Cell(stride: nat, k: nat, i: nat): nat { k * stride + i }

  lemma CellBelow(stride: nat, k: nat, i: nat, n: nat)
    requires k < n && i < stride
    ensures Cell(stride, k, i) < n * stride
  {
    MulMonotone(k + 1, n, stride);
  }

  lemma RowBound(row: nat, height: nat, pitch: nat, col: nat, width: nat)
    requires row < height && col < width
    ensures row * pitch + col < (height - 1) * pitch + width
  {
    MulMonotone(row, height - 1, pitch);
  }

  /** cudaMemcpy2D between two buffers: height rows of width bytes, each buffer with its own pitch. */
  function Memcpy2D(dst: seq<byte>, dstAt: nat, dstPitch: nat, src: seq<byte>, srcAt: nat, srcPitch: nat,
                    width: nat, height: nat): (r: seq<byte>)
    requires 0 < width <= dstPitch && width <= srcPitch && height > 0
    requires dstAt + (height - 1) * dstPitch + width <= |dst|
    requires srcAt + (height - 1) * srcPitch + width <= |src|
    ensures |r| == |dst|
  {
    seq(|dst|, y requires 0 <= y < |dst| =>
      if y >= dstAt && (y - dstAt) / dstPitch < height && (y - dstAt) % dstPitch < width then
        (RowBound((y - dstAt) / dstPitch, height, srcPitch, (y - dstAt) % dstPitch, width);
         src[srcAt + ((y - dstAt) / dstPitch) * srcPitch + (y - dstAt) % dstPitch])
      else dst[y])
  }

  /** The piece of a copy that goes from record (sb, so) on to record (db, o) on. */
  datatype RecordCopy = RecordCopy(ds: nat, db: nat, o: nat, ss: nat, sb: nat, so: nat, width: nat, count: nat) {
    predicate Fits(dst: nat, src: nat) {
      && count > 0 && width > 0 && o + width <= ds && so + width <= ss
      && (db + count) * ds <= dst && (sb + count) * ss <= src
    }

    predicate Hits(k: nat, i: nat) { db <= k < db + count && o <= i < o + width }
  }

  lemma LastRow(begin: nat, count: nat, stride: nat, o: nat, width: nat, total: nat)
    requires count > 0 && o + width <= stride && (begin + count) * stride <= total
    ensures Cell(stride, begin, o) + (count - 1) * stride + width <= total
  {
    assert begin * stride + (count - 1) * stride == (begin + count - 1) * stride;
    assert (begin + count - 1) * stride + stride == (begin + count) * stride;
  }

  function Run(c: RecordCopy, dst: seq<byte>, src: seq<byte>): (r: seq<byte>)
    requires c.Fits(|dst|, |src|)
    ensures |r| == |dst|
  {
    LastRow(c.db, c.count, c.ds, c.o, c.width, |dst|);
    LastRow(c.sb, c.count, c.ss, c.so, c.width, |src|);
    Memcpy2D(dst, Cell(c.ds, c.db, c.o), c.ds, src, Cell(c.ss, c.sb, c.so), c.ss, c.width, c.count)
  }

  /** Row and column of a distance from the first byte of a copy. */
  lemma RowOf(stride: nat, q: int, r: int, width: nat, count: nat)
    requires 0 < width <= stride && width - stride <= r < stride
    ensures var d := q * stride + r;
            (d >= 0 && d / stride < count && d % stride < width) <==> (0 <= q < count && 0 <= r < width)
    ensures q >= 0 && r >= 0 ==> (q * stride + r) / stride == q && (q * stride + r) % stride == r
  {
    if q < 0 {
      MulMonotone(1, -q, stride);
      assert q * stride == -((-q) * stride);
    } else if r >= 0 {
      MultipleDiv(q, stride, r);
    } else if q > 0 {
      assert q * stride + r == (q - 1) * stride + (stride + r);
      MultipleDiv(q - 1, stride, stride + r);
    }
  }

  lemma CellDistance(stride: nat, k: nat, i: nat, b: nat, o: nat)
    ensures Cell(stride, k, i) - Cell(stride, b, o) == (k - b) * stride + (i - o)
  {
  }

  /** Where a byte of record k lies relative to the first byte of a copy. */
  lemma CellPlace(stride: nat, k: nat, i: nat, b: nat, o: nat, width: nat, count: nat)
    requires i < stride && o + width <= stride && width > 0
    ensures var y, at := Cell(stride, k, i), Cell(stride, b, o);
            (y >= at && (y - at) / stride < count && (y - at) % stride < width)
              <==> (b <= k < b + count && o <= i < o + width)
    ensures var y, at := Cell(stride, k, i), Cell(stride, b, o);
            b <= k < b + count && o <= i < o + width ==> (y - at) / stride == k - b && (y - at) % stride == i - o
  {
    hide Cell;
    CellDistance(stride, k, i, b, o);
    RowOf(stride, k - b, i - o, width, count);
  }

  /** A byte inside a row of the copy comes from the same column of the same source row. */
  lemma RunInside(c: RecordCopy, dst: seq<byte>, src: seq<byte>, y: nat, row: nat, column: nat)
    requires c.Fits(|dst|, |src|) && y < |dst| && y >= Cell(c.ds, c.db, c.o) && row < c.count && column < c.width
    requires (y - Cell(c.ds, c.db, c.o)) / c.ds == row && (y - Cell(c.ds, c.db, c.o)) % c.ds == column
    ensures var from := Cell(c.ss, c.sb, c.so) + Cell(c.ss, row, column);
            from < |src| && Run(c, dst, src)[y] == src[from]
  {
    LastRow(c.db, c.count, c.ds, c.o, c.width, |dst|);
    LastRow(c.sb, c.count, c.ss, c.so, c.width, |src|);
    RowBound(row, c.count, c.ss, column, c.width);
  }

  /** Any other byte stays. */
  lemma RunOutside(c: RecordCopy, dst: seq<byte>, src: seq<byte>, y: nat)
    requires c.Fits(|dst|, |src|) && y < |dst|
    requires var at := Cell(c.ds, c.db, c.o);
             !(y >= at && (y - at) / c.ds < c.count && (y - at) % c.ds < c.width)
    ensures Run(c, dst, src)[y] == dst[y]
  {
    hide Cell;
    LastRow(c.db, c.count, c.ds, c.o, c.width, |dst|);
    LastRow(c.sb, c.count, c.ss, c.so, c.width, |src|);
  }

  lemma CellMoved(stride: nat, b: nat, o: nat, rows: nat, columns: nat)
    ensures Cell(stride, b, o) + Cell(stride, rows, columns) == Cell(stride, b + rows, o + columns)
  {
  }

  /** A record copy writes exactly the bytes it hits, from the matching source bytes. */
  lemma RunAt(c: RecordCopy, dst: seq<byte>, src: seq<byte>, k: nat, i: nat)
    requires c.Fits(|dst|, |src|) && i < c.ds && Cell(c.ds, k, i) < |dst|
    ensures c.Hits(k, i) ==> Cell(c.ss, c.sb + (k - c.db), c.so + (i - c.o)) < |src|
    ensures Run(c, dst, src)[Cell(c.ds, k, i)]
         == if c.Hits(k, i) then src[Cell(c.ss, c.sb + (k - c.db), c.so + (i - c.o))] else dst[Cell(c.ds, k, i)]
  {
    hide Cell, Run;
    CellPlace(c.ds, k, i, c.db, c.o, c.width, c.count);
    if c.Hits(k, i) {
      RunInside(c, dst, src, Cell(c.ds, k, i), k - c.db, i - c.o);
      CellMoved(c.ss, c.sb, c.so, k - c.db, i - c.o);
    } else {
      RunOutside(c, dst, src, Cell(c.ds, k, i));
    }
  }

  // ----- Device planes

  /** set_contiguous_strides: the byte stride of dimension i. */
  function Stride(dtype: DType, ne: seq<nat>, i: nat): nat
    requires i <= |ne|
  {
    if i == 0 then DTypeSize(dtype) else Stride(dtype, ne, i - 1) * ne[i - 1]
  }

  datatype PlaneShape = PlaneShape(order: PlaneOrder, pages: nat, heads: nat, headBytes: nat) {
    ghost predicate Valid() { heads > 0 && headBytes > 0 }

    function PageBytes(): nat { headBytes * heads }

    function Total(): nat { pages * PageBytes() }

    /** What one copy moves of each page: the whole page, or one head. */
    function StripBytes(): nat { if order == PageMajor then PageBytes() else headBytes }

    function Strips(): nat { if order == PageMajor then 1 else heads }

    /** Where byte j of a page lies: the bytes of a page are its heads, one behind the other. */
    function Place(page: nat, j: nat): nat
      requires Valid()
    {
      if order == PageMajor then Cell(PageBytes(), page, j)
      else Cell(headBytes, (j / headBytes) * pages + page, j % headBytes)
    }
  }

  /** The tensor the pool plans for a plane: pages outermost, or heads outermost. */
  function Extents(geometry: PageGeometry, plane: PlaneGeometry, pages: nat): seq<nat>
    requires plane.leadingExtent > 0 && plane.headExtent > 0
  {
    if geometry.order == PageMajor then [plane.leadingExtent, geometry.pageTokens, plane.headExtent, pages]
    else [plane.leadingExtent, geometry.pageTokens, pages, plane.headExtent]
  }

  function ShapeOf(geometry: PageGeometry, plane: PlaneGeometry, pages: nat): PlaneShape {
    PlaneShape(geometry.order, pages, Max(0, plane.headExtent), HeadBytes(geometry, plane))
  }

  /** The strides the copies use: nb[2] is a head (of a page), nb[3] what the outermost index skips. */
  lemma StridesOfPlane(geometry: PageGeometry, plane: PlaneGeometry, pages: nat)
    requires plane.leadingExtent > 0 && plane.headExtent > 0
    ensures var ne, shape := Extents(geometry, plane, pages), ShapeOf(geometry, plane, pages);
            && Stride(plane.dtype, ne, 2) == shape.headBytes
            && Stride(plane.dtype, ne, 3) == if geometry.order == PageMajor then shape.PageBytes()
               else shape.headBytes * pages
  {
    var ne := Extents(geometry, plane, pages);
    var size := DTypeSize(plane.dtype);
    assert Stride(plane.dtype, ne, 1) == size * plane.leadingExtent;
    assert Stride(plane.dtype, ne, 2) == size * plane.leadingExtent * geometry.pageTokens;
    Rearrange(size, plane.leadingExtent, geometry.pageTokens);
    assert Stride(plane.dtype, ne, 3) == Stride(plane.dtype, ne, 2) * ne[2];
  }

  lemma Rearrange(a: nat, b: nat, c: nat)
    ensures a * b * c == b * c * a
  {
    assert a * b * c == a * (b * c);
  }

  /** Byte b of element (l, token, head) of a page, in page bytes and in tensor strides. */
  lemma ElementPlace(geometry: PageGeometry, plane: PlaneGeometry, pages: nat, page: nat, head: nat, inner: nat)
    requires plane.leadingExtent > 0 && plane.headExtent > 0 && ShapeOf(geometry, plane, pages).Valid()
    requires inner < HeadBytes(geometry, plane)
    ensures var ne, shape := Extents(geometry, plane, pages), ShapeOf(geometry, plane, pages);
            shape.Place(page, head * shape.headBytes + inner)
            == inner + (if geometry.order == PageMajor
                        then head * Stride(plane.dtype, ne, 2) + page * Stride(plane.dtype, ne, 3)
                        else page * Stride(plane.dtype, ne, 2) + head * Stride(plane.dtype, ne, 3))
  {
    hide Stride, HeadBytes;
    StridesOfPlane(geometry, plane, pages);
    var hb := HeadBytes(geometry, plane);
    MultipleDiv(head, hb, inner);
    assert (head * pages + page) * hb == head * (hb * pages) + page * hb by { HeadMajorBase(head, pages, page, hb); }
  }

  lemma HeadMajorBase(head: nat, pages: nat, page: nat, hb: nat)
    ensures (head * pages + page) * hb == head * (hb * pages) + page * hb
  {
    assert (head * pages) * hb == head * (hb * pages);
  }

  lemma HeadBelow(shape: PlaneShape, j: nat)
    requires shape.Valid() && j < shape.PageBytes()
    ensures j / shape.headBytes < shape.heads
  {
    var hb := shape.headBytes;
    if j / hb >= shape.heads { MulMonotone(shape.heads, j / hb, hb); }
  }

  /** Places lie inside the plane. */
  lemma PlaceInside(shape: PlaneShape, page: nat, j: nat)
    requires shape.Valid() && page < shape.pages && j < shape.PageBytes()
    ensures shape.Place(page, j) < shape.Total()
  {
    if shape.order == PageMajor {
      CellBelow(shape.PageBytes(), page, j, shape.pages);
    } else {
      HeadBelow(shape, j);
      CellBelow(shape.pages, j / shape.headBytes, page, shape.heads);
      CellBelow(shape.headBytes, (j / shape.headBytes) * shape.pages + page, j % shape.headBytes,
                shape.heads * shape.pages);
      TotalOf(shape);
    }
  }

  lemma TotalOf(shape: PlaneShape)
    ensures shape.Total() == shape.heads * shape.pages * shape.headBytes
  {
    Rearrange(shape.pages, shape.headBytes, shape.heads);
    Rearrange(shape.heads, shape.pages, shape.headBytes);
    assert shape.headBytes * shape.heads * shape.pages == shape.pages * shape.headBytes * shape.heads;
  }

  lemma CellInjective(stride: nat, k: nat, i: nat, l: nat, j: nat)
    requires i < stride && j < stride && Cell(stride, k, i) == Cell(stride, l, j)
    ensures k == l && i == j
  {
    MultipleDiv(k, stride, i);
    MultipleDiv(l, stride, j);
  }

  lemma DivMod(i: nat, n: nat)
    requires n > 0
    ensures i == Cell(n, i / n, i % n) && i % n < n
  {
  }

  /** No two page bytes share a place. */
  lemma PlaceInjective(shape: PlaneShape, p: nat, i: nat, q: nat, j: nat)
    requires shape.Valid() && p < shape.pages && q < shape.pages && i < shape.PageBytes() && j < shape.PageBytes()
    requires shape.Place(p, i) == shape.Place(q, j)
    ensures p == q && i == j
  {
    hide Cell;
    if shape.order == PageMajor {
      CellInjective(shape.PageBytes(), p, i, q, j);
    } else {
      var hb := shape.headBytes;
      DivMod(i, hb);
      DivMod(j, hb);
      HeadMajorInjective(hb, shape.pages, p, i / hb, i % hb, q, j / hb, j % hb);
    }
  }

  lemma HeadMajorInjective(hb: nat, pages: nat, p: nat, h: nat, i: nat, q: nat, g: nat, j: nat)
    requires p < pages && q < pages && i < hb && j < hb
    requires Cell(hb, h * pages + p, i) == Cell(hb, g * pages + q, j)
    ensures p == q && h == g && i == j
  {
    hide Cell;
    CellInjective(hb, h * pages + p, i, g * pages + q, j);
    RowInjective(pages, h, p, g, q);
  }

  lemma RowInjective(pages: nat, h: nat, p: nat, g: nat, q: nat)
    requires p < pages && q < pages && h * pages + p == g * pages + q
    ensures h == g && p == q
  {
    assert Cell(pages, h, p) == Cell(pages, g, q);
    CellInjective(pages, h, p, g, q);
  }

  /** Every byte of the plane is some page byte. */
  lemma PlaceOnto(shape: PlaneShape, y: nat) returns (page: nat, j: nat)
    requires shape.Valid() && y < shape.Total()
    ensures page < shape.pages && j < shape.PageBytes() && shape.Place(page, j) == y
  {
    hide PlaneShape.Place, PlaneShape.Total, PlaneShape.PageBytes;
    if shape.order == PageMajor {
      page, j := PageMajorOnto(shape, y);
    } else {
      page, j := HeadMajorOnto(shape, y);
    }
  }

  lemma PageMajorOnto(shape: PlaneShape, y: nat) returns (page: nat, j: nat)
    requires shape.Valid() && y < shape.Total() && shape.order == PageMajor
    ensures page < shape.pages && j < shape.PageBytes() && shape.Place(page, j) == y
  {
    hide PlaneShape.PageBytes;
    page, j := y / shape.PageBytes(), y % shape.PageBytes();
    QuotientBelow(y, shape.PageBytes(), shape.pages);
  }

  lemma HeadMajorOnto(shape: PlaneShape, y: nat) returns (page: nat, j: nat)
    requires shape.Valid() && y < shape.Total() && shape.order == HeadMajor
    ensures page < shape.pages && j < shape.PageBytes() && shape.Place(page, j) == y
  {
    hide PlaneShape.Total, PlaneShape.Place, Cell;
    TotalOf(shape);
    var h, p, i := TwoLevels(shape.headBytes, shape.heads, shape.pages, y);
    page, j := p, h * shape.headBytes + i;
    PlaceInStrip(shape, page, h, i);
    StripInside(shape, h);
  }

  lemma TwoLevels(hb: nat, heads: nat, pages: nat, y: nat) returns (h: nat, page: nat, i: nat)
    requires hb > 0 && y < heads * pages * hb
    ensures h < heads && page < pages && i < hb && y == Cell(hb, h * pages + page, i)
  {
    QuotientBelow(y, hb, heads * pages);
    QuotientBelow(y / hb, pages, heads);
    h, page, i := y / hb / pages, y / hb % pages, y % hb;
  }

  lemma QuotientBelow(y: nat, n: nat, count: nat)
    requires y < count * n
    ensures n > 0 && y / n < count && y == (y / n) * n + y % n
  {
    assert n == 0 ==> count * n == 0;
    if y / n >= count { MulMonotone(count, y / n, n); }
  }

  // ----- Strips: what one 2D copy moves

  lemma StripFacts(shape: PlaneShape)
    requires shape.Valid()
    ensures shape.StripBytes() > 0 && shape.Strips() > 0
    ensures shape.Strips() * shape.StripBytes() == shape.PageBytes() > 0
    ensures shape.Total() == shape.Strips() * shape.pages * shape.StripBytes()
  {
    TotalOf(shape);
    MulAtLeast(shape.heads, shape.headBytes);
    assert shape.order == PageMajor ==> shape.Strips() * shape.pages == shape.pages;
  }

  lemma PlaceInStrip(shape: PlaneShape, page: nat, t: nat, i: nat)
    requires shape.Valid() && t < shape.Strips() && i < shape.StripBytes()
    ensures shape.Place(page, t * shape.StripBytes() + i) == Cell(shape.StripBytes(), t * shape.pages + page, i)
  {
    if shape.order == PageMajor {
      assert t == 0;
      assert t * shape.StripBytes() + i == i && t * shape.pages + page == page;
    } else {
      MultipleDiv(t, shape.headBytes, i);
    }
  }

  lemma StripInside(shape: PlaneShape, t: nat)
    requires shape.Valid() && t < shape.Strips()
    ensures (t + 1) * shape.StripBytes() == t * shape.StripBytes() + shape.StripBytes() <= shape.PageBytes()
  {
    StripFacts(shape);
    MulMonotone(t + 1, shape.Strips(), shape.StripBytes());
  }

  lemma RowsInside(shape: PlaneShape, t: nat, first: nat, count: nat)
    requires shape.Valid() && t < shape.Strips() && first + count <= shape.pages
    ensures (t * shape.pages + first + count) * shape.StripBytes() <= shape.Total()
  {
    StripFacts(shape);
    MulMonotone(t + 1, shape.Strips(), shape.pages);
    assert (t + 1) * shape.pages == t * shape.pages + shape.pages;
    MulMonotone(t * shape.pages + first + count, shape.Strips() * shape.pages, shape.StripBytes());
  }

  /** Byte j of a device page and of a plane in host record k are the same. */
  ghost predicate SameByte(shape: PlaneShape, plane: seq<byte>, page: nat, stride: nat, offset: nat, host: seq<byte>,
                           k: nat, j: nat)
    requires shape.Valid()
  {
    && shape.Place(page, j) < |plane| && Cell(stride, k, offset + j) < |host|
    && host[Cell(stride, k, offset + j)] == plane[shape.Place(page, j)]
  }

  /** The first upTo bytes of a device page and of a plane in host record k are the same. */
  ghost predicate SameBytes(shape: PlaneShape, plane: seq<byte>, page: nat, stride: nat, offset: nat, host: seq<byte>,
                            k: nat, upTo: nat)
    requires shape.Valid()
  {
    forall j :: 0 <= j < upTo ==> SameByte(shape, plane, page, stride, offset, host, k, j)
  }

  /** Host bytes outside [lo, hi) of the records [b, e) did not change. */
  ghost predicate HostSame(before: seq<byte>, after: seq<byte>, stride: nat, b: nat, e: nat, lo: nat, hi: nat) {
    && |before| == |after|
    && forall k: nat, i: nat :: i < stride && Cell(stride, k, i) < |before| && !(b <= k < e && lo <= i < hi) ==>
         after[Cell(stride, k, i)] == before[Cell(stride, k, i)]
  }

  /** Plane bytes outside [lo, hi) of the pages [first, first + count) did not change. */
  ghost predicate PlaneSame(shape: PlaneShape, before: seq<byte>, after: seq<byte>, first: nat, count: nat, lo: nat,
                            hi: nat)
    requires shape.Valid()
  {
    && |before| == |after|
    && forall q: nat, j: nat ::
         q < shape.pages && j < shape.PageBytes() && !(first <= q < first + count && lo <= j < hi) ==>
           shape.Place(q, j) < |before| && after[shape.Place(q, j)] == before[shape.Place(q, j)]
  }

  /** The copy of strip t of the pages [first, first + count) to the records from begin on. */
  function StripOut(shape: PlaneShape, stride: nat, offset: nat, begin: nat, first: nat, count: nat,
                    t: nat): RecordCopy
  {
    RecordCopy(stride, begin, offset + t * shape.StripBytes(), shape.StripBytes(), t * shape.pages + first, 0,
               shape.StripBytes(), count)
  }

  /** And back. */
  function StripIn(shape: PlaneShape, stride: nat, offset: nat, begin: nat, first: nat, count: nat,
                   t: nat): RecordCopy
  {
    RecordCopy(shape.StripBytes(), t * shape.pages + first, 0, stride, begin, offset + t * shape.StripBytes(),
               shape.StripBytes(), count)
  }

  /** What every strip copy is given. */
  ghost predicate StripReady(shape: PlaneShape, plane: nat, stride: nat, offset: nat, host: nat, begin: nat, first: nat,
                             count: nat, t: nat)
  {
    && shape.Valid() && t < shape.Strips() && count > 0 && first + count <= shape.pages && plane == shape.Total()
    && offset + shape.PageBytes() <= stride && (begin + count) * stride <= host
  }

  lemma StripsFit(shape: PlaneShape, plane: nat, stride: nat, offset: nat, host: nat, begin: nat, first: nat,
                  count: nat, t: nat)
    requires StripReady(shape, plane, stride, offset, host, begin, first, count, t)
    ensures StripOut(shape, stride, offset, begin, first, count, t).Fits(host, plane)
    ensures StripIn(shape, stride, offset, begin, first, count, t).Fits(plane, host)
  {
    StripFacts(shape);
    StripInside(shape, t);
    RowsInside(shape, t, first, count);
  }

  /** One more strip of a run is on the host. */
  lemma StripOutStep(shape: PlaneShape, plane: seq<byte>, stride: nat, offset: nat, host: seq<byte>, begin: nat,
                     first: nat, count: nat, t: nat, k: nat)
    requires StripReady(shape, |plane|, stride, offset, |host|, begin, first, count, t)
    requires begin <= k < begin + count
    requires SameBytes(shape, plane, first + (k - begin), stride, offset, host, k, t * shape.StripBytes())
    ensures var c := StripOut(shape, stride, offset, begin, first, count, t);
            && c.Fits(|host|, |plane|)
            && SameBytes(shape, plane, first + (k - begin), stride, offset, Run(c, host, plane), k,
                         (t + 1) * shape.StripBytes())
  {
    hide Run, Cell, PlaneShape.Place, PlaneShape.PageBytes, PlaneShape.Total;
    StripsFit(shape, |plane|, stride, offset, |host|, begin, first, count, t);
    StripInside(shape, t);
    var c := StripOut(shape, stride, offset, begin, first, count, t);
    var sb, page := shape.StripBytes(), first + (k - begin);
    var after := Run(c, host, plane);
    forall j | 0 <= j < (t + 1) * sb ensures SameByte(shape, plane, page, stride, offset, after, k, j) {
      assert j < t * sb ==> SameByte(shape, plane, page, stride, offset, host, k, j);
      HostCellInside(stride, k, offset + j, begin + count, |host|);
      RunAt(c, host, plane, k, offset + j);
      if j >= t * sb {
        var i: nat := j - t * sb;
        PlaceInStrip(shape, page, t, i);
        assert t * sb + i == j && t * shape.pages + page == c.sb + (k - c.db) && c.so + (offset + j - c.o) == i;
      }
    }
  }

  lemma HostCellInside(stride: nat, k: nat, i: nat, e: nat, host: nat)
    requires k < e && i < stride && e * stride <= host
    ensures Cell(stride, k, i) < host
  {
    CellBelow(stride, k, i, e);
  }

  lemma StripOutFrame(shape: PlaneShape, plane: seq<byte>, stride: nat, offset: nat, host: seq<byte>, begin: nat,
                      first: nat, count: nat, t: nat)
    requires StripReady(shape, |plane|, stride, offset, |host|, begin, first, count, t)
    ensures var c := StripOut(shape, stride, offset, begin, first, count, t);
            && c.Fits(|host|, |plane|)
            && HostSame(host, Run(c, host, plane), stride, begin, begin + count,
                        offset + t * shape.StripBytes(), offset + (t + 1) * shape.StripBytes())
  {
    hide Run, Cell, PlaneShape.PageBytes, PlaneShape.Total;
    StripsFit(shape, |plane|, stride, offset, |host|, begin, first, count, t);
    StripInside(shape, t);
    var c := StripOut(shape, stride, offset, begin, first, count, t);
    forall k: nat, i: nat | i < stride && Cell(stride, k, i) < |host| && !c.Hits(k, i)
      ensures Run(c, host, plane)[Cell(stride, k, i)] == host[Cell(stride, k, i)]
    {
      RunAt(c, host, plane, k, i);
    }
  }

  /** One more strip of a run is on the device. */
  lemma StripInStep(shape: PlaneShape, plane: seq<byte>, stride: nat, offset: nat, host: seq<byte>, begin: nat,
                    first: nat, count: nat, t: nat, k: nat)
    requires StripReady(shape, |plane|, stride, offset, |host|, begin, first, count, t)
    requires begin <= k < begin + count
    requires SameBytes(shape, plane, first + (k - begin), stride, offset, host, k, t * shape.StripBytes())
    ensures var c := StripIn(shape, stride, offset, begin, first, count, t);
            && c.Fits(|plane|, |host|)
            && SameBytes(shape, Run(c, plane, host), first + (k - begin), stride, offset, host, k,
                         (t + 1) * shape.StripBytes())
  {
    hide Run, Cell, PlaneShape.Place, PlaneShape.PageBytes, PlaneShape.Total;
    StripsFit(shape, |plane|, stride, offset, |host|, begin, first, count, t);
    StripInside(shape, t);
    var c := StripIn(shape, stride, offset, begin, first, count, t);
    var sb, page := shape.StripBytes(), first + (k - begin);
    var after := Run(c, plane, host);
    forall j | 0 <= j < (t + 1) * sb ensures SameByte(shape, after, page, stride, offset, host, k, j) {
      assert j < t * sb ==> SameByte(shape, plane, page, stride, offset, host, k, j);
      HostCellInside(stride, k, offset + j, begin + count, |host|);
      StripInAt(shape, plane, stride, offset, host, begin, first, count, t, page, j);
    }
  }

  lemma StripInFrame(shape: PlaneShape, plane: seq<byte>, stride: nat, offset: nat, host: seq<byte>, begin: nat,
                     first: nat, count: nat, t: nat)
    requires StripReady(shape, |plane|, stride, offset, |host|, begin, first, count, t)
    ensures var c := StripIn(shape, stride, offset, begin, first, count, t);
            && c.Fits(|plane|, |host|)
            && PlaneSame(shape, plane, Run(c, plane, host), first, count, t * shape.StripBytes(),
                         (t + 1) * shape.StripBytes())
  {
    hide Run, Cell, PlaneShape.Place, PlaneShape.PageBytes, PlaneShape.Total;
    StripsFit(shape, |plane|, stride, offset, |host|, begin, first, count, t);
    var c := StripIn(shape, stride, offset, begin, first, count, t);
    var after := Run(c, plane, host);
    forall q: nat, j: nat | q < shape.pages && j < shape.PageBytes()
                            && !(first <= q < first + count
                                 && t * shape.StripBytes() <= j < (t + 1) * shape.StripBytes())
      ensures shape.Place(q, j) < |plane| && after[shape.Place(q, j)] == plane[shape.Place(q, j)]
    {
      StripInAt(shape, plane, stride, offset, host, begin, first, count, t, q, j);
    }
  }

  /** What the copy of strip t leaves at byte j of page q. */
  lemma StripInAt(shape: PlaneShape, plane: seq<byte>, stride: nat, offset: nat, host: seq<byte>, begin: nat,
                  first: nat, count: nat, t: nat, q: nat, j: nat)
    requires StripReady(shape, |plane|, stride, offset, |host|, begin, first, count, t)
    requires q < shape.pages && j < shape.PageBytes()
    ensures var c := StripIn(shape, stride, offset, begin, first, count, t);
            && c.Fits(|plane|, |host|)
            && shape.Place(q, j) < |plane|
            && var hit := first <= q < first + count && t * shape.StripBytes() <= j < (t + 1) * shape.StripBytes();
               && (hit ==> Cell(stride, begin + (q - first), offset + j) < |host|)
               && Run(c, plane, host)[shape.Place(q, j)]
                  == if hit then host[Cell(stride, begin + (q - first), offset + j)] else plane[shape.Place(q, j)]
  {
    hide Run, Cell, PlaneShape.Place, PlaneShape.PageBytes, PlaneShape.Total;
    StripsFit(shape, |plane|, stride, offset, |host|, begin, first, count, t);
    PlaceInside(shape, q, j);
    StripFacts(shape);
    StripInside(shape, t);
    var sb := shape.StripBytes();
    var s, i := j / sb, j % sb;
    QuotientBelow(j, sb, shape.Strips());
    PlaceInStrip(shape, q, s, i);
    var c := StripIn(shape, stride, offset, begin, first, count, t);
    RunAt(c, plane, host, s * shape.pages + q, i);
    StripRow(shape.pages, sb, t, s, i, first, count, q);
  }

  /** Row s * pages + q belongs to strip t and the page run exactly if s == t and q is in the run. */
  lemma StripRow(pages: nat, sb: nat, t: nat, s: nat, i: nat, first: nat, count: nat, q: nat)
    requires first + count <= pages && q < pages && i < sb
    ensures t * pages + first <= s * pages + q < t * pages + first + count <==> s == t && first <= q < first + count
    ensures s == t <==> t * sb <= s * sb + i < (t + 1) * sb
  {
    SameRow(pages, t, first, count, s, q);
    SameRow(sb, t, 0, sb, s, i);
    assert (t + 1) * sb == t * sb + sb;
  }

  lemma SameRow(width: nat, t: nat, first: nat, count: nat, s: nat, q: nat)
    requires first + count <= width && q < width
    ensures t * width + first <= s * width + q < t * width + first + count <==> s == t && first <= q < first + count
  {
    if s < t {
      MulMonotone(s + 1, t, width);
    } else if s > t {
      MulMonotone(t + 1, s, width);
    }
  }

  // ----- Pages of a whole pool

  /** Byte for byte, plane p of the device page is plane p of host record k. */
  ghost predicate Moved(layout: HostPageLayout, pages: nat, planes: seq<seq<byte>>, host: seq<byte>, page: nat, k: nat,
                        p: nat)
    requires WellPlanned(layout) && p < |layout.planes|
  {
    ShapeValid(layout, pages, p);
    p < |planes| && SameBytes(Shape(layout, pages, p), planes[p], page, layout.pageStride, layout.planes[p].offset,
                              host, k, layout.planes[p].pagePayloadBytes)
  }

  function Shape(layout: HostPageLayout, pages: nat, p: nat): PlaneShape
    requires p < |layout.geometry.planes|
  {
    ShapeOf(layout.geometry, layout.geometry.planes[p], pages)
  }

  lemma ShapeValid(layout: HostPageLayout, pages: nat, p: nat)
    requires WellPlanned(layout) && p < |layout.planes|
    ensures var shape, plane := Shape(layout, pages, p), layout.planes[p];
            && shape.Valid() && shape.pages == pages && shape.order == layout.geometry.order
            && shape.PageBytes() == plane.pagePayloadBytes
            && shape.headBytes == plane.headPayloadBytes && shape.heads == layout.geometry.planes[p].headExtent
            && plane.offset + plane.pagePayloadBytes <= layout.pageStride
  {
  }

  lemma PlanesApart(layout: HostPageLayout, p: nat, q: nat)
    requires WellPlanned(layout) && p < |layout.planes| && q < |layout.planes| && p != q
    ensures layout.planes[p].End() <= layout.planes[q].offset || layout.planes[q].End() <= layout.planes[p].offset
  {
  }

  /** The number of runs of consecutive pages among the first n. */
  function RunCount(pages: seq<nat>, n: nat): nat
    requires n <= |pages|
  {
    if n == 0 then 0 else RunCount(pages, n - 1) + if n == 1 || pages[n - 1] != pages[n - 2] + 1 then 1 else 0
  }

  datatype TransferWork = TransferWork(payloadBytes: nat, copyOperations: nat)

  function PayloadPerPage(layout: HostPageLayout, n: nat): nat
    requires n <= |layout.planes|
  {
    if n == 0 then 0 else PayloadPerPage(layout, n - 1) + layout.planes[n - 1].pagePayloadBytes
  }

  /** The number of 2D copies a run needs in plane p. */
  function CopiesOf(geometry: PageGeometry, p: nat): nat
    requires p < |geometry.planes|
  {
    if geometry.order == PageMajor then 1 else Max(0, geometry.planes[p].headExtent)
  }

  /** The number of 2D copies a run needs in the first n planes. */
  function CopiesPerRun(geometry: PageGeometry, n: nat): nat
    requires n <= |geometry.planes|
  {
    if n == 0 then 0 else CopiesPerRun(geometry, n - 1) + CopiesOf(geometry, n - 1)
  }

  /** The host side of a copy: page records, one behind the other. */
  class HostPages {
    const layout: HostPageLayout
    const pageCount: nat
    var bytes: seq<byte>

    ghost predicate Valid()
      reads this
    {
      WellPlanned(layout) && |bytes| == pageCount * layout.pageStride
    }

    constructor (layout: HostPageLayout, pageCount: nat, bytes: seq<byte>)
      requires WellPlanned(layout) && |bytes| == pageCount * layout.pageStride
      ensures Valid() && this.layout == layout && this.pageCount == pageCount && this.bytes == bytes
    {
      this.layout, this.pageCount, this.bytes := layout, pageCount, bytes;
    }
  }

  lemma HostSameJoin(a: seq<byte>, b: seq<byte>, c: seq<byte>, stride: nat, from: nat, e: nat, lo: nat, mid: nat,
                     hi: nat)
    requires HostSame(a, b, stride, from, e, lo, mid) && HostSame(b, c, stride, from, e, mid, hi) && lo <= mid <= hi
    ensures HostSame(a, c, stride, from, e, lo, hi)
  {
    hide Cell;
    forall k: nat, i: nat | i < stride && Cell(stride, k, i) < |a| && !(from <= k < e && lo <= i < hi)
      ensures c[Cell(stride, k, i)] == a[Cell(stride, k, i)]
    {
      assert b[Cell(stride, k, i)] == a[Cell(stride, k, i)];
    }
  }

  lemma PlaneSameJoin(shape: PlaneShape, a: seq<byte>, b: seq<byte>, c: seq<byte>, first: nat, count: nat, lo: nat,
                      mid: nat, hi: nat)
    requires shape.Valid() && lo <= mid <= hi
    requires PlaneSame(shape, a, b, first, count, lo, mid) && PlaneSame(shape, b, c, first, count, mid, hi)
    ensures PlaneSame(shape, a, c, first, count, lo, hi)
  {
    hide Cell, PlaneShape.Place;
    forall q: nat, j: nat | q < shape.pages && j < shape.PageBytes() && !(first <= q < first + count && lo <= j < hi)
      ensures shape.Place(q, j) < |a| && c[shape.Place(q, j)] == a[shape.Place(q, j)]
    {
      assert b[shape.Place(q, j)] == a[shape.Place(q, j)];
    }
  }

  /** Moved bytes stay moved when only other bytes of the host change. */
  lemma SameBytesKept(shape: PlaneShape, plane: seq<byte>, page: nat, stride: nat, offset: nat, before: seq<byte>,
                      after: seq<byte>, k: nat, upTo: nat, b: nat, e: nat, lo: nat, hi: nat)
    requires shape.Valid() && SameBytes(shape, plane, page, stride, offset, before, k, upTo) && offset + upTo <= stride
    requires HostSame(before, after, stride, b, e, lo, hi)
    requires k < b || e <= k || offset + upTo <= lo || hi <= offset
    ensures SameBytes(shape, plane, page, stride, offset, after, k, upTo)
  {
    hide Cell, PlaneShape.Place;
    forall j | 0 <= j < upTo ensures SameByte(shape, plane, page, stride, offset, after, k, j) {
      assert SameByte(shape, plane, page, stride, offset, before, k, j);
    }
  }

  /** And when only other pages of the device change. */
  lemma SameBytesOnDevice(shape: PlaneShape, before: seq<byte>, after: seq<byte>, page: nat, stride: nat, offset: nat,
                          host: seq<byte>, k: nat, first: nat, count: nat, hi: nat)
    requires shape.Valid() && SameBytes(shape, before, page, stride, offset, host, k, shape.PageBytes())
    requires PlaneSame(shape, before, after, first, count, 0, hi) && page < shape.pages
    requires !(first <= page < first + count)
    ensures SameBytes(shape, after, page, stride, offset, host, k, shape.PageBytes())
  {
    hide Cell, PlaneShape.Place, PlaneShape.PageBytes;
    forall j | 0 <= j < shape.PageBytes() ensures SameByte(shape, after, page, stride, offset, host, k, j) {
      assert SameByte(shape, before, page, stride, offset, host, k, j);
    }
  }

  /** The addresses, pitches and sizes the program passes are those of the strip copies. */
  lemma SourceForm(layout: HostPageLayout, pages: nat, p: nat, begin: nat, first: nat, count: nat, t: nat)
    requires WellPlanned(layout) && p < |layout.planes| && t < Shape(layout, pages, p).Strips()
    ensures var shape, plane := Shape(layout, pages, p), layout.planes[p];
            var geometry := layout.geometry.planes[p];
            var ne := Extents(layout.geometry, geometry, pages);
            var out := StripOut(shape, layout.pageStride, plane.offset, begin, first, count, t);
            && Cell(out.ds, out.db, out.o) == begin * layout.pageStride + plane.offset + t * out.width
            && out.ss == out.width
               == (if layout.geometry.order == PageMajor then plane.pagePayloadBytes else plane.headPayloadBytes)
            && out.ss == (if layout.geometry.order == PageMajor then Stride(geometry.dtype, ne, 3)
                          else Stride(geometry.dtype, ne, 2))
            && Cell(out.ss, out.sb, out.so)
               == (if layout.geometry.order == PageMajor then first * Stride(geometry.dtype, ne, 3)
                   else t * Stride(geometry.dtype, ne, 3) + first * Stride(geometry.dtype, ne, 2))
  {
    hide Stride, WellPlanned;
    ShapeValid(layout, pages, p);
    PositiveExtents(layout, p);
    StridesOfPlane(layout.geometry, layout.geometry.planes[p], pages);
    HeadMajorBase(t, pages, first, Shape(layout, pages, p).headBytes);
    assert layout.geometry.order == PageMajor ==> t == 0 && t * pages + first == first;
  }

  lemma PositiveExtents(layout: HostPageLayout, p: nat)
    requires WellPlanned(layout) && p < |layout.planes|
    ensures |layout.planes| == |layout.geometry.planes|
    ensures layout.geometry.planes[p].leadingExtent > 0 && layout.geometry.planes[p].headExtent > 0
  {
  }
}
