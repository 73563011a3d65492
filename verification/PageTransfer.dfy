/** copy_to_host, copy_from_host and copy_page: run-coalesced copies over all planes of a pool. */
module PageTransfer {
  import opened Common
  import opened KvLayout
  import opened Payload
  import opened PageCopy

  /** One 2D copy more. */
  function Worked(work: TransferWork, width: nat, height: nat): TransferWork {
    TransferWork(work.payloadBytes + width * height, work.copyOperations + 1)
  }

  /** Everything a copy over one plane and one run is given. */
  ghost predicate RunReady(layout: HostPageLayout, pages: nat, plane: nat, host: nat, p: nat, first: nat, begin: nat,
                           count: nat)
  {
    && WellPlanned(layout) && p < |layout.planes| && count > 0 && first + count <= pages
    && plane == Shape(layout, pages, p).Total() && (begin + count) * layout.pageStride <= host
  }

  lemma RunReadyStrip(layout: HostPageLayout, pages: nat, plane: nat, host: nat, p: nat, first: nat, begin: nat,
                      count: nat, t: nat)
    requires RunReady(layout, pages, plane, host, p, first, begin, count) && t < Shape(layout, pages, p).Strips()
    ensures Shape(layout, pages, p).Valid()
    ensures StripReady(Shape(layout, pages, p), plane, layout.pageStride, layout.planes[p].offset, host, begin, first,
                       count, t)
  {
    hide PlaneShape.Total;
    ShapeValid(layout, pages, p);
  }

  /** Strip t of the run is on the host up to here. */
  ghost predicate StripsDone(layout: HostPageLayout, pages: nat, plane: seq<byte>, host: seq<byte>, p: nat,
                             list: seq<nat>, begin: nat, count: nat, t: nat)
    requires WellPlanned(layout) && p < |layout.planes| && begin + count <= |list|
  {
    ShapeValid(layout, pages, p);
    var shape := Shape(layout, pages, p);
    forall k :: begin <= k < begin + count ==>
      SameBytes(shape, plane, list[k], layout.pageStride, layout.planes[p].offset, host, k, t * shape.StripBytes())
  }

  lemma StripsStart(layout: HostPageLayout, pages: nat, plane: seq<byte>, host: seq<byte>, p: nat, list: seq<nat>,
                    begin: nat, count: nat)
    requires WellPlanned(layout) && p < |layout.planes| && begin + count <= |list|
    ensures StripsDone(layout, pages, plane, host, p, list, begin, count, 0)
    ensures HostSame(host, host, layout.pageStride, begin, begin + count, layout.planes[p].offset,
                     layout.planes[p].offset)
  {
  }

  /** The copy the program issues for strip t, as a record copy. */
  function CopyOut(layout: HostPageLayout, pages: nat, p: nat, first: nat, begin: nat, count: nat, t: nat): RecordCopy
    requires p < |layout.planes| && p < |layout.geometry.planes|
  {
    StripOut(Shape(layout, pages, p), layout.pageStride, layout.planes[p].offset, begin, first, count, t)
  }

  function CopyIn(layout: HostPageLayout, pages: nat, p: nat, first: nat, begin: nat, count: nat, t: nat): RecordCopy
    requires p < |layout.planes| && p < |layout.geometry.planes|
  {
    StripIn(Shape(layout, pages, p), layout.pageStride, layout.planes[p].offset, begin, first, count, t)
  }

  /** Entries [begin, begin + count) of the list are consecutive pages of the pool. */
  ghost predicate Consecutive(list: seq<nat>, begin: nat, count: nat) {
    && begin + count <= |list| && count > 0
    && forall k :: begin <= k < begin + count ==> list[k] == list[begin] + (k - begin)
  }

  /** One strip more on the host: what it adds and what it leaves. */
  lemma OutStep(layout: HostPageLayout, pages: nat, plane: seq<byte>, start: seq<byte>, host: seq<byte>, p: nat,
                list: seq<nat>, begin: nat, count: nat, t: nat)
    requires Consecutive(list, begin, count) && RunReady(layout, pages, |plane|, |host|, p, list[begin], begin, count)
    requires t < Shape(layout, pages, p).Strips() && StripsDone(layout, pages, plane, host, p, list, begin, count, t)
    requires HostSame(start, host, layout.pageStride, begin, begin + count, layout.planes[p].offset,
                      layout.planes[p].offset + t * Shape(layout, pages, p).StripBytes())
    ensures var c := CopyOut(layout, pages, p, list[begin], begin, count, t);
            && c.Fits(|host|, |plane|)
            && StripsDone(layout, pages, plane, Run(c, host, plane), p, list, begin, count, t + 1)
            && HostSame(start, Run(c, host, plane), layout.pageStride, begin, begin + count, layout.planes[p].offset,
                        layout.planes[p].offset + (t + 1) * Shape(layout, pages, p).StripBytes())
  {
    hide Run, SameBytes, HostSame, RunReady, StripReady, RecordCopy.Fits, PlaneShape.Strips, PlaneShape.StripBytes,
      WellPlanned, Shape, StripOut, PlaneShape.Valid;
    PlannedFrom(layout, pages, |plane|, |host|, p, list[begin], begin, count);
    var shape, stride, offset := Shape(layout, pages, p), layout.pageStride, layout.planes[p].offset;
    RunReadyStrip(layout, pages, |plane|, |host|, p, list[begin], begin, count, t);
    StripOutFrame(shape, plane, stride, offset, host, begin, list[begin], count, t);
    var after := Run(CopyOut(layout, pages, p, list[begin], begin, count, t), host, plane);
    StripInside(shape, t);
    HostSameJoin(start, host, after, stride, begin, begin + count, offset, offset + t * shape.StripBytes(),
                 offset + (t + 1) * shape.StripBytes());
    forall k | begin <= k < begin + count
      ensures SameBytes(shape, plane, list[k], stride, offset, after, k, (t + 1) * shape.StripBytes())
    {
      assert list[k] == list[begin] + (k - begin);
      assert SameBytes(shape, plane, list[k], stride, offset, host, k, t * shape.StripBytes());
      StripOutStep(shape, plane, stride, offset, host, begin, list[begin], count, t, k);
    }
  }

  lemma PlannedFrom(layout: HostPageLayout, pages: nat, plane: nat, host: nat, p: nat, first: nat, begin: nat,
                    count: nat)
    requires RunReady(layout, pages, plane, host, p, first, begin, count)
    ensures WellPlanned(layout) && p < |layout.planes| == |layout.geometry.planes|
  {
  }

  /** All strips of the run: the pages have moved. */
  lemma OutDone(layout: HostPageLayout, pages: nat, planes: seq<seq<byte>>, host: seq<byte>, p: nat, list: seq<nat>,
                begin: nat, count: nat, t: nat)
    requires WellPlanned(layout) && p < |layout.planes| && p < |planes| && begin + count <= |list|
    requires t == Shape(layout, pages, p).Strips()
             && StripsDone(layout, pages, planes[p], host, p, list, begin, count, t)
    ensures forall k :: begin <= k < begin + count ==> Moved(layout, pages, planes, host, list[k], k, p)
    ensures t * Shape(layout, pages, p).StripBytes() == layout.planes[p].pagePayloadBytes
  {
    hide SameBytes, PlaneShape.Strips, PlaneShape.StripBytes;
    ShapeValid(layout, pages, p);
    StripFacts(Shape(layout, pages, p));
  }

  // ----- And the other way

  lemma InStart(layout: HostPageLayout, pages: nat, plane: seq<byte>, p: nat, first: nat, count: nat)
    requires WellPlanned(layout) && p < |layout.planes| && |plane| == Shape(layout, pages, p).Total()
    ensures Shape(layout, pages, p).Valid() && PlaneSame(Shape(layout, pages, p), plane, plane, first, count, 0, 0)
  {
    hide PlaneShape.Total, PlaneShape.Place;
    ShapeValid(layout, pages, p);
    var shape := Shape(layout, pages, p);
    forall q: nat, j: nat | q < shape.pages && j < shape.PageBytes() ensures shape.Place(q, j) < |plane| {
      PlaceInside(shape, q, j);
    }
  }

  /** One strip more on the device. */
  lemma InStep(layout: HostPageLayout, pages: nat, start: seq<byte>, plane: seq<byte>, host: seq<byte>, p: nat,
               list: seq<nat>, begin: nat, count: nat, t: nat)
    requires Consecutive(list, begin, count) && RunReady(layout, pages, |plane|, |host|, p, list[begin], begin, count)
    requires t < Shape(layout, pages, p).Strips() && StripsDone(layout, pages, plane, host, p, list, begin, count, t)
    requires Shape(layout, pages, p).Valid()
             && PlaneSame(Shape(layout, pages, p), start, plane, list[begin], count, 0,
                          t * Shape(layout, pages, p).StripBytes())
    ensures var c := CopyIn(layout, pages, p, list[begin], begin, count, t);
            && c.Fits(|plane|, |host|)
            && StripsDone(layout, pages, Run(c, plane, host), host, p, list, begin, count, t + 1)
            && PlaneSame(Shape(layout, pages, p), start, Run(c, plane, host), list[begin], count,
                         0, (t + 1) * Shape(layout, pages, p).StripBytes())
  {
    hide Run, SameBytes, PlaneSame, RunReady, StripReady, RecordCopy.Fits, PlaneShape.Strips, PlaneShape.StripBytes,
      WellPlanned, Shape, StripIn, PlaneShape.Valid;
    PlannedFrom(layout, pages, |plane|, |host|, p, list[begin], begin, count);
    var shape, stride, offset := Shape(layout, pages, p), layout.pageStride, layout.planes[p].offset;
    RunReadyStrip(layout, pages, |plane|, |host|, p, list[begin], begin, count, t);
    StripInFrame(shape, plane, stride, offset, host, begin, list[begin], count, t);
    var after := Run(CopyIn(layout, pages, p, list[begin], begin, count, t), plane, host);
    StripInside(shape, t);
    PlaneSameJoin(shape, start, plane, after, list[begin], count, 0, t * shape.StripBytes(),
                  (t + 1) * shape.StripBytes());
    forall k | begin <= k < begin + count
      ensures SameBytes(shape, after, list[k], stride, offset, host, k, (t + 1) * shape.StripBytes())
    {
      assert list[k] == list[begin] + (k - begin);
      assert SameBytes(shape, plane, list[k], stride, offset, host, k, t * shape.StripBytes());
      StripInStep(shape, plane, stride, offset, host, begin, list[begin], count, t, k);
    }
  }

  // ----- The arguments the program passes

  lemma OutArguments(layout: HostPageLayout, pages: nat, plane: seq<byte>, host: seq<byte>, p: nat, first: nat,
                     begin: nat, count: nat, t: nat, width: nat, hostAt: nat, planeAt: nat)
    requires RunReady(layout, pages, |plane|, |host|, p, first, begin, count) && t < Shape(layout, pages, p).Strips()
    requires var c := CopyOut(layout, pages, p, first, begin, count, t);
             width == c.width && hostAt == Cell(c.ds, c.db, c.o) && planeAt == Cell(c.ss, c.sb, c.so)
    ensures 0 < width <= layout.pageStride
    ensures hostAt + (count - 1) * layout.pageStride + width <= |host|
            && planeAt + (count - 1) * width + width <= |plane|
    ensures CopyOut(layout, pages, p, first, begin, count, t).Fits(|host|, |plane|)
    ensures CopyIn(layout, pages, p, first, begin, count, t).Fits(|plane|, |host|)
    ensures Memcpy2D(host, hostAt, layout.pageStride, plane, planeAt, width, width, count)
         == Run(CopyOut(layout, pages, p, first, begin, count, t), host, plane)
    ensures Memcpy2D(plane, planeAt, width, host, hostAt, layout.pageStride, width, count)
         == Run(CopyIn(layout, pages, p, first, begin, count, t), plane, host)
  {
    hide Memcpy2D, Cell, WellPlanned, PlaneShape.Total, PlaneShape.Strips, PlaneShape.StripBytes, Shape,
      PlaneShape.PageBytes;
    PlannedFrom(layout, pages, |plane|, |host|, p, first, begin, count);
    RunReadyStrip(layout, pages, |plane|, |host|, p, first, begin, count, t);
    StripsFit(Shape(layout, pages, p), |plane|, layout.pageStride, layout.planes[p].offset, |host|, begin, first, count,
              t);
    var c := CopyOut(layout, pages, p, first, begin, count, t);
    LastRow(c.db, c.count, c.ds, c.o, c.width, |host|);
    LastRow(c.sb, c.count, c.ss, c.so, c.width, |plane|);
  }

  /** The run is on the host in its first t strips, and nothing else of the host changed. */
  ghost predicate OutUpTo(layout: HostPageLayout, pages: nat, plane: seq<byte>, start: seq<byte>, host: seq<byte>,
                          p: nat, list: seq<nat>, begin: nat, count: nat, t: nat)
  {
    && Consecutive(list, begin, count) && RunReady(layout, pages, |plane|, |host|, p, list[begin], begin, count)
    && t <= Shape(layout, pages, p).Strips() && |host| == |start|
    && StripsDone(layout, pages, plane, host, p, list, begin, count, t)
    && HostSame(start, host, layout.pageStride, begin, begin + count, layout.planes[p].offset,
                layout.planes[p].offset + t * Shape(layout, pages, p).StripBytes())
  }

  /** The run is on the device in its first t strips, and nothing else of the plane changed. */
  ghost predicate InUpTo(layout: HostPageLayout, pages: nat, start: seq<byte>, plane: seq<byte>, host: seq<byte>,
                         p: nat, list: seq<nat>, begin: nat, count: nat, t: nat)
  {
    && Consecutive(list, begin, count) && RunReady(layout, pages, |plane|, |host|, p, list[begin], begin, count)
    && t <= Shape(layout, pages, p).Strips() && |plane| == |start|
    && StripsDone(layout, pages, plane, host, p, list, begin, count, t)
    && Shape(layout, pages, p).Valid()
    && PlaneSame(Shape(layout, pages, p), start, plane, list[begin], count, 0, t * Shape(layout, pages, p).StripBytes())
  }

  /** host_base: the first byte of plane p in record begin. */
  function HostBase(layout: HostPageLayout, p: nat, begin: nat): nat
    requires p < |layout.planes|
  {
    begin * layout.pageStride + layout.planes[p].offset
  }

  function HostHead(layout: HostPageLayout, p: nat, begin: nat, head: nat): nat
    requires p < |layout.planes|
  {
    HostBase(layout, p, begin) + head * layout.planes[p].headPayloadBytes
  }

  function DevicePage(nb3: nat, first: nat): nat { first * nb3 }

  function DeviceHead(nb2: nat, nb3: nat, first: nat, head: nat): nat { head * nb3 + first * nb2 }

  /** The work after n copies of count rows of the same width. */
  function WorkAfter(work: TransferWork, width: nat, count: nat, n: nat): TransferWork {
    TransferWork(work.payloadBytes + n * width * count, work.copyOperations + n)
  }

  lemma WorkStep(work: TransferWork, width: nat, count: nat, n: nat)
    ensures WorkAfter(work, width, count, 0) == work
    ensures Worked(WorkAfter(work, width, count, n), width, count) == WorkAfter(work, width, count, n + 1)
  {
    OneHeadMore(n, width, count);
  }

  /** The work after plane p of a run of count pages. */
  function PlaneWork(work: TransferWork, layout: HostPageLayout, p: nat, count: nat): TransferWork
    requires p < |layout.planes| && p < |layout.geometry.planes|
  {
    TransferWork(work.payloadBytes + layout.planes[p].pagePayloadBytes * count,
                 work.copyOperations + CopiesOf(layout.geometry, p))
  }

  lemma WorkDone(work: TransferWork, layout: HostPageLayout, p: nat, count: nat)
    requires WellPlanned(layout) && p < |layout.planes|
    ensures (if layout.geometry.order == PageMajor then WorkAfter(work, layout.planes[p].pagePayloadBytes, count, 1)
             else WorkAfter(work, layout.planes[p].headPayloadBytes, count, layout.geometry.planes[p].headExtent))
         == PlaneWork(work, layout, p, count)
  {
    hide WellPlanned;
    ShapeValid(layout, 0, p);
    PositiveExtents(layout, p);
    Swap(layout.geometry.planes[p].headExtent, layout.planes[p].headPayloadBytes);
  }

  /** The addresses and the width the program passes for strip t. */
  ghost predicate Passed(layout: HostPageLayout, pages: nat, p: nat, begin: nat, first: nat, t: nat,
                         width: nat, hostAt: nat, planeAt: nat)
  {
    && p < |layout.planes| && p < |layout.geometry.planes|
    && layout.geometry.planes[p].leadingExtent > 0 && layout.geometry.planes[p].headExtent > 0
    && var plane := layout.geometry.planes[p];
       var ne := Extents(layout.geometry, plane, pages);
       var nb2, nb3 := Stride(plane.dtype, ne, 2), Stride(plane.dtype, ne, 3);
       if layout.geometry.order == PageMajor then
         t == 0 && width == nb3 && hostAt == HostBase(layout, p, begin) && planeAt == DevicePage(nb3, first)
       else
         width == nb2 && hostAt == HostHead(layout, p, begin, t) && planeAt == DeviceHead(nb2, nb3, first, t)
  }

  lemma PassedIs(layout: HostPageLayout, pages: nat, p: nat, begin: nat, first: nat, count: nat, t: nat,
                 width: nat, hostAt: nat, planeAt: nat)
    requires WellPlanned(layout) && p < |layout.planes| && t < Shape(layout, pages, p).Strips()
    requires Passed(layout, pages, p, begin, first, t, width, hostAt, planeAt)
    ensures var c := CopyOut(layout, pages, p, first, begin, count, t);
            width == c.width && hostAt == Cell(c.ds, c.db, c.o) && planeAt == Cell(c.ss, c.sb, c.so)
    ensures width == if layout.geometry.order == PageMajor then layout.planes[p].pagePayloadBytes
            else layout.planes[p].headPayloadBytes
  {
    hide Stride, WellPlanned;
    PositiveExtents(layout, p);
    SourceForm(layout, pages, p, begin, first, count, t);
  }

  /** One copy of the program to the host. */
  lemma OutCopy(layout: HostPageLayout, pages: nat, plane: seq<byte>, start: seq<byte>, host: seq<byte>, p: nat,
                list: seq<nat>, begin: nat, count: nat, t: nat, width: nat, hostAt: nat, planeAt: nat)
    requires OutUpTo(layout, pages, plane, start, host, p, list, begin, count, t)
    requires p < |layout.geometry.planes| && t < Shape(layout, pages, p).Strips()
    requires Passed(layout, pages, p, begin, list[begin], t, width, hostAt, planeAt)
    ensures 0 < width <= layout.pageStride && count > 0
    ensures hostAt + (count - 1) * layout.pageStride + width <= |host|
            && planeAt + (count - 1) * width + width <= |plane|
    ensures OutUpTo(layout, pages, plane, start,
                    Memcpy2D(host, hostAt, layout.pageStride, plane, planeAt, width, width, count), p, list, begin,
                      count, t + 1)
  {
    hide Memcpy2D, Cell, WellPlanned, StripsDone, HostSame, RunReady, Passed, Run, CopyOut, CopyIn, PlaneShape.Strips,
         PlaneShape.StripBytes, Shape;
    PlannedFrom(layout, pages, |plane|, |host|, p, list[begin], begin, count);
    PassedIs(layout, pages, p, begin, list[begin], count, t, width, hostAt, planeAt);
    OutArguments(layout, pages, plane, host, p, list[begin], begin, count, t, width, hostAt, planeAt);
    OutStep(layout, pages, plane, start, host, p, list, begin, count, t);
  }

  /** One copy of the program from the host. */
  lemma InCopy(layout: HostPageLayout, pages: nat, start: seq<byte>, plane: seq<byte>, host: seq<byte>, p: nat,
               list: seq<nat>, begin: nat, count: nat, t: nat, width: nat, hostAt: nat, planeAt: nat)
    requires InUpTo(layout, pages, start, plane, host, p, list, begin, count, t)
    requires p < |layout.geometry.planes| && t < Shape(layout, pages, p).Strips()
    requires Passed(layout, pages, p, begin, list[begin], t, width, hostAt, planeAt)
    ensures 0 < width <= layout.pageStride && count > 0
    ensures hostAt + (count - 1) * layout.pageStride + width <= |host|
            && planeAt + (count - 1) * width + width <= |plane|
    ensures InUpTo(layout, pages, start, Memcpy2D(plane, planeAt, width, host, hostAt, layout.pageStride, width, count),
                   host, p, list, begin, count, t + 1)
  {
    hide Memcpy2D, Cell, WellPlanned, StripsDone, PlaneSame, RunReady, Passed, Run, CopyOut, CopyIn, PlaneShape.Strips,
         PlaneShape.StripBytes, Shape;
    PlannedFrom(layout, pages, |plane|, |host|, p, list[begin], begin, count);
    PassedIs(layout, pages, p, begin, list[begin], count, t, width, hostAt, planeAt);
    OutArguments(layout, pages, plane, host, p, list[begin], begin, count, t, width, hostAt, planeAt);
    InStep(layout, pages, start, plane, host, p, list, begin, count, t);
  }

  /** Plane p of a run of pages is in the host's records, and only there did the host change. */
  ghost predicate RunOut(layout: HostPageLayout, pages: nat, planes: seq<seq<byte>>, before: seq<byte>,
                         after: seq<byte>, list: seq<nat>, p: nat, begin: nat, end: nat)
  {
    && WellPlanned(layout) && p < |layout.planes| && end <= |list|
    && (forall k :: begin <= k < end ==> Moved(layout, pages, planes, after, list[k], k, p))
    && HostSame(before, after, layout.pageStride, begin, end, layout.planes[p].offset,
                layout.planes[p].offset + layout.planes[p].pagePayloadBytes)
  }

  /** Plane p of a run of records is in the listed pages, and only there did the planes change. */
  ghost predicate RunIn(layout: HostPageLayout, pages: nat, before: seq<seq<byte>>, after: seq<seq<byte>>,
                        host: seq<byte>, list: seq<nat>, p: nat, begin: nat, end: nat)
  {
    && WellPlanned(layout) && p < |layout.planes| && begin < end <= |list|
    && p < |before| == |after| && after == before[p := after[p]]
    && (forall k :: begin <= k < end ==> Moved(layout, pages, after, host, list[k], k, p))
    && Shape(layout, pages, p).Valid()
    && PlaneSame(Shape(layout, pages, p), before[p], after[p], list[begin], end - begin, 0,
                 layout.planes[p].pagePayloadBytes)
  }

  lemma OutBegins(layout: HostPageLayout, pages: nat, plane: seq<byte>, host: seq<byte>, p: nat, list: seq<nat>,
                  begin: nat, count: nat)
    requires Consecutive(list, begin, count) && RunReady(layout, pages, |plane|, |host|, p, list[begin], begin, count)
    ensures OutUpTo(layout, pages, plane, host, host, p, list, begin, count, 0)
  {
    hide SameBytes, HostSame;
    StripsStart(layout, pages, plane, host, p, list, begin, count);
  }

  lemma InBegins(layout: HostPageLayout, pages: nat, plane: seq<byte>, host: seq<byte>, p: nat, list: seq<nat>,
                 begin: nat, count: nat)
    requires Consecutive(list, begin, count) && RunReady(layout, pages, |plane|, |host|, p, list[begin], begin, count)
    ensures InUpTo(layout, pages, plane, plane, host, p, list, begin, count, 0)
  {
    hide SameBytes, PlaneSame, PlaneShape.Total;
    StripsStart(layout, pages, plane, host, p, list, begin, count);
    InStart(layout, pages, plane, p, list[begin], count);
  }

  lemma OutEnds(layout: HostPageLayout, pages: nat, planes: seq<seq<byte>>, start: seq<byte>, host: seq<byte>, p: nat,
                list: seq<nat>, begin: nat, count: nat, t: nat)
    requires p < |planes| && OutUpTo(layout, pages, planes[p], start, host, p, list, begin, count, t)
    requires p < |layout.geometry.planes| && t == Shape(layout, pages, p).Strips()
    ensures RunOut(layout, pages, planes, start, host, list, p, begin, begin + count)
  {
    hide SameBytes, HostSame, Moved, StripsDone, WellPlanned;
    PlannedFrom(layout, pages, |planes[p]|, |host|, p, list[begin], begin, count);
    OutDone(layout, pages, planes, host, p, list, begin, count, t);
  }

  lemma InEnds(layout: HostPageLayout, pages: nat, before: seq<seq<byte>>, after: seq<seq<byte>>, host: seq<byte>,
               p: nat, list: seq<nat>, begin: nat, count: nat, t: nat)
    requires p < |before| == |after| && after == before[p := after[p]]
    requires InUpTo(layout, pages, before[p], after[p], host, p, list, begin, count, t)
    requires p < |layout.geometry.planes| && t == Shape(layout, pages, p).Strips()
    ensures RunIn(layout, pages, before, after, host, list, p, begin, begin + count)
  {
    hide SameBytes, PlaneSame, Moved, StripsDone, WellPlanned;
    PlannedFrom(layout, pages, |after[p]|, |host|, p, list[begin], begin, count);
    OutDone(layout, pages, after, host, p, list, begin, count, t);
  }

  // ----- The pool's planes

  const PAGE_TOKENS: nat := 64

  /** A plane as the layout builder bound it: the geometry it was planned for, its type, extents and bytes. */
  datatype PlaneTensor = PlaneTensor(planned: PlaneGeometry, dtype: DType, ne: seq<nat>, data: seq<byte>) {
    /** Four extents, and as many bytes as they span. */
    ghost predicate Bound() { |ne| == 4 && |data| == Stride(dtype, ne, 4) }
  }

  function PlaneData(tensors: seq<PlaneTensor>): (planes: seq<seq<byte>>)
    ensures |planes| == |tensors| && forall p :: 0 <= p < |tensors| ==> planes[p] == tensors[p].data
  {
    seq(|tensors|, p requires 0 <= p < |tensors| => tensors[p].data)
  }

  /** The tensor is planned for the plane and has its type and the extents of the pool's order. */
  ghost predicate PlaneAccepted(geometry: PageGeometry, plane: PlaneGeometry, pages: nat, tensor: PlaneTensor) {
    && plane.leadingExtent > 0 && plane.headExtent > 0
    && tensor.planned == plane && tensor.dtype == plane.dtype && tensor.ne == Extents(geometry, plane, pages)
  }

  lemma TensorSized(geometry: PageGeometry, plane: PlaneGeometry, pages: nat, tensor: PlaneTensor)
    requires PlaneAccepted(geometry, plane, pages, tensor) && tensor.Bound()
    ensures |tensor.data| == ShapeOf(geometry, plane, pages).Total()
  {
    var ne, shape := Extents(geometry, plane, pages), ShapeOf(geometry, plane, pages);
    StridesOfPlane(geometry, plane, pages);
    assert Stride(plane.dtype, ne, 4) == Stride(plane.dtype, ne, 3) * ne[3];
    WholeTensor(shape.headBytes, shape.heads, pages);
  }

  lemma WholeTensor(hb: nat, heads: nat, pages: nat)
    ensures hb * heads * pages == pages * (hb * heads) == hb * pages * heads
  {
  }

  class DeviceKVPlanes {
    const geometry: PageGeometry
    const pages: nat
    var planes: seq<seq<byte>>
    var validationStamp: nat
    var validationMarks: seq<nat>
    /** What the copies issued so far amount to. */
    ghost var work: TransferWork

    ghost predicate Valid()
      reads this
    {
      && PlanesSized(geometry, pages, planes)
      && |validationMarks| == pages && validationStamp <= UINT32_MAX
      && forall i :: 0 <= i < pages ==> validationMarks[i] <= validationStamp
    }

    /** A pool without copies so far, its stamps cleared. */
    constructor (geometry: PageGeometry, pages: nat, planes: seq<seq<byte>>)
      requires PlanesSized(geometry, pages, planes)
      ensures Valid() && this.geometry == geometry && this.pages == pages && this.planes == planes
      ensures work == TransferWork(0, 0) && validationStamp == 0
    {
      this.geometry, this.pages, this.planes := geometry, pages, planes;
      validationStamp, validationMarks := 0, seq(pages, _ => 0);
      work := TransferWork(0, 0);
    }

    /** The checks on the way to a pool: 64-token pages, at least one plane, positive extents, a page count that
        fits an int32, and a tensor of the planned type and extents for every plane. */
    static method Create(geometry: PageGeometry, pages: nat, tensors: seq<PlaneTensor>)
      returns (r: Result<DeviceKVPlanes>)
      requires forall p :: 0 <= p < |tensors| ==> tensors[p].Bound()
      ensures r.Ok? <==>
                && geometry.pageTokens == PAGE_TOKENS && geometry.planes != [] && |tensors| == |geometry.planes|
                && 0 < pages <= INT32_MAX
                && forall p :: 0 <= p < |tensors| ==> PlaneAccepted(geometry, geometry.planes[p], pages, tensors[p])
      ensures r.Ok? ==>
                && fresh(r.value) && r.value.Valid() && r.value.geometry == geometry && r.value.pages == pages
                && r.value.planes == PlaneData(tensors) && r.value.work == TransferWork(0, 0)
    {
      hide Extents, Stride, PlaneShape.Total, PlaneTensor.Bound;
      if geometry.pageTokens != PAGE_TOKENS { return Err(InvalidArgument); }
      if geometry.planes == [] { return Err(InvalidArgument); }
      for p := 0 to |geometry.planes|
        invariant forall k :: 0 <= k < p ==> geometry.planes[k].leadingExtent > 0 && geometry.planes[k].headExtent > 0
      {
        if geometry.planes[p].leadingExtent <= 0 || geometry.planes[p].headExtent <= 0 { return Err(InvalidArgument); }
      }
      if |tensors| != |geometry.planes| { return Err(InvalidArgument); }
      if pages == 0 || pages > INT32_MAX { return Err(InvalidArgument); }
      for p := 0 to |tensors|
        invariant forall k :: 0 <= k < p ==> PlaneAccepted(geometry, geometry.planes[k], pages, tensors[k])
      {
        var accepted := CheckTensor(geometry, geometry.planes[p], pages, tensors[p]);
        if !accepted { return Err(LogicError); }
      }
      forall p | 0 <= p < |tensors|
        ensures |tensors[p].data| == ShapeOf(geometry, geometry.planes[p], pages).Total()
      {
        TensorSized(geometry, geometry.planes[p], pages, tensors[p]);
      }
      var pool := new DeviceKVPlanes(geometry, pages, PlaneData(tensors));
      r := Ok(pool);
    }

    /** The tensor checks of one plane, extent by extent. */
    static method CheckTensor(geometry: PageGeometry, plane: PlaneGeometry, pages: nat, tensor: PlaneTensor)
      returns (ok: bool)
      requires geometry.pageTokens == PAGE_TOKENS && plane.leadingExtent > 0 && plane.headExtent > 0 && tensor.Bound()
      ensures ok <==> PlaneAccepted(geometry, plane, pages, tensor)
    {
      if tensor.planned != plane || tensor.dtype != plane.dtype { return false; }
      if tensor.ne[0] != plane.leadingExtent || tensor.ne[1] != PAGE_TOKENS { return false; }
      if geometry.order == PageMajor {
        ok := tensor.ne[2] == plane.headExtent && tensor.ne[3] == pages;
      } else {
        ok := tensor.ne[2] == pages && tensor.ne[3] == plane.headExtent;
      }
    }

    /** One plane of one run to the host: one copy, or one a head. */
    method PlaneOut(destination: HostPages, source: seq<nat>, p: nat, begin: nat, end: nat)
      requires Valid() && destination.Valid() && destination.layout.geometry == geometry && p < |planes|
      requires begin < end <= |source| == destination.pageCount && Consecutive(source, begin, end - begin)
      requires source[begin] + (end - begin) <= pages
      modifies destination`bytes, this`work
      ensures destination.Valid() && p < |destination.layout.planes| && p < |geometry.planes|
      ensures RunOut(destination.layout, pages, planes, old(destination.bytes), destination.bytes, source, p, begin,
                     end)
      ensures work == PlaneWork(old(work), destination.layout, p, end - begin)
    {
      hide Memcpy2D, WellPlanned, PlanesSized, RunReady, Stride, OutUpTo, RunOut, HostBase, HostHead, DevicePage,
        DeviceHead, WorkAfter, Worked, Consecutive;
      var layout := destination.layout;
      RunReadyFrom(layout, pages, planes, |destination.bytes|, destination.pageCount, p, source, begin, end);
      PlannedFrom(layout, pages, |planes[p]|, |destination.bytes|, p, source[begin], begin, end - begin);
      PositiveExtents(layout, p);
      ShapeValid(layout, pages, p);
      var first, count := source[begin], end - begin;
      var plane := layout.planes[p];
      var ne := Extents(geometry, geometry.planes[p], pages);
      var nb2, nb3 := Stride(geometry.planes[p].dtype, ne, 2), Stride(geometry.planes[p].dtype, ne, 3);
      var hostBase := HostBase(layout, p, begin);
      ghost var start := destination.bytes;
      WorkStep(work, plane.headPayloadBytes, count, 0);
      WorkDone(work, layout, p, count);
      OutBegins(layout, pages, planes[p], start, p, source, begin, count);
      if geometry.order == PageMajor {
        PassedIs(layout, pages, p, begin, first, count, 0, nb3, hostBase, DevicePage(nb3, first));
        OutCopy(layout, pages, planes[p], start, destination.bytes, p, source, begin, count, 0, nb3, hostBase,
                DevicePage(nb3, first));
        destination.bytes := Memcpy2D(destination.bytes, hostBase, layout.pageStride, planes[p], DevicePage(nb3, first),
                                      nb3, plane.pagePayloadBytes, count);
        work := Worked(work, plane.pagePayloadBytes, count);
        WorkStep(old(work), plane.pagePayloadBytes, count, 0);
        OutEnds(layout, pages, planes, start, destination.bytes, p, source, begin, count, 1);
      } else {
        for head := 0 to geometry.planes[p].headExtent
          invariant |destination.bytes| == |start|
          invariant OutUpTo(layout, pages, planes[p], start, destination.bytes, p, source, begin, count, head)
          invariant work == WorkAfter(old(work), plane.headPayloadBytes, count, head)
        {
          var hostAt, planeAt := HostHead(layout, p, begin, head), DeviceHead(nb2, nb3, first, head);
          PassedIs(layout, pages, p, begin, first, count, head, nb2, hostAt, planeAt);
          OutCopy(layout, pages, planes[p], start, destination.bytes, p, source, begin, count, head, nb2, hostAt,
                  planeAt);
          destination.bytes := Memcpy2D(destination.bytes, hostAt, layout.pageStride, planes[p], planeAt, nb2,
                                        plane.headPayloadBytes, count);
          work := Worked(work, plane.headPayloadBytes, count);
          WorkStep(old(work), plane.headPayloadBytes, count, head);
        }
        OutEnds(layout, pages, planes, start, destination.bytes, p, source, begin, count,
                geometry.planes[p].headExtent);
      }
    }

    /** One plane of one run from the host. */
    method PlaneIn(source: HostPages, destination: seq<nat>, p: nat, begin: nat, end: nat)
      requires Valid() && source.Valid() && source.layout.geometry == geometry && p < |planes|
      requires begin < end <= |destination| == source.pageCount && Consecutive(destination, begin, end - begin)
      requires destination[begin] + (end - begin) <= pages
      modifies this`planes, this`work
      ensures Valid() && p < |source.layout.planes| && p < |geometry.planes| && |planes| == |old(planes)|
      ensures RunIn(source.layout, pages, old(planes), planes, source.bytes, destination, p, begin, end)
      ensures work == PlaneWork(old(work), source.layout, p, end - begin)
    {
      hide Memcpy2D, WellPlanned, PlanesSized, RunReady, Stride, InUpTo, RunIn, HostBase, HostHead, DevicePage,
        DeviceHead, WorkAfter, Worked, Consecutive;
      var layout := source.layout;
      RunReadyFrom(layout, pages, planes, |source.bytes|, source.pageCount, p, destination, begin, end);
      PlannedFrom(layout, pages, |planes[p]|, |source.bytes|, p, destination[begin], begin, end - begin);
      PositiveExtents(layout, p);
      ShapeValid(layout, pages, p);
      var first, count := destination[begin], end - begin;
      var plane := layout.planes[p];
      var ne := Extents(geometry, geometry.planes[p], pages);
      var nb2, nb3 := Stride(geometry.planes[p].dtype, ne, 2), Stride(geometry.planes[p].dtype, ne, 3);
      var hostBase := HostBase(layout, p, begin);
      ghost var start := planes;
      WorkStep(work, plane.headPayloadBytes, count, 0);
      WorkDone(work, layout, p, count);
      InBegins(layout, pages, planes[p], source.bytes, p, destination, begin, count);
      if geometry.order == PageMajor {
        PassedIs(layout, pages, p, begin, first, count, 0, nb3, hostBase, DevicePage(nb3, first));
        InCopy(layout, pages, start[p], planes[p], source.bytes, p, destination, begin, count, 0, nb3, hostBase,
               DevicePage(nb3, first));
        planes := planes[p := Memcpy2D(planes[p], DevicePage(nb3, first), nb3, source.bytes, hostBase,
                                       layout.pageStride, plane.pagePayloadBytes, count)];
        work := Worked(work, plane.pagePayloadBytes, count);
        WorkStep(old(work), plane.pagePayloadBytes, count, 0);
        InEnds(layout, pages, start, planes, source.bytes, p, destination, begin, count, 1);
      } else {
        for head := 0 to geometry.planes[p].headExtent
          invariant |planes| == |start| && |planes[p]| == |start[p]| && planes == start[p := planes[p]]
          invariant InUpTo(layout, pages, start[p], planes[p], source.bytes, p, destination, begin, count, head)
          invariant work == WorkAfter(old(work), plane.headPayloadBytes, count, head)
        {
          var hostAt, planeAt := HostHead(layout, p, begin, head), DeviceHead(nb2, nb3, first, head);
          PassedIs(layout, pages, p, begin, first, count, head, nb2, hostAt, planeAt);
          InCopy(layout, pages, start[p], planes[p], source.bytes, p, destination, begin, count, head, nb2, hostAt,
                 planeAt);
          planes := planes[p := Memcpy2D(planes[p], planeAt, nb2, source.bytes, hostAt, layout.pageStride,
                                         plane.headPayloadBytes, count)];
          work := Worked(work, plane.headPayloadBytes, count);
          WorkStep(old(work), plane.headPayloadBytes, count, head);
        }
        InEnds(layout, pages, start, planes, source.bytes, p, destination, begin, count, geometry.planes[p].headExtent);
      }
      SizesKept(geometry, pages, start, planes, p);
    }

    /** validate_distinct_pages: marks every page with a fresh stamp; the stamp wraps at 32 bits. */
    method ValidateDistinct(list: seq<nat>) returns (r: Result<()>)
      requires Valid()
      modifies this`validationStamp, this`validationMarks
      ensures Valid()
      ensures r.Ok? <==> InPool(list, pages) && Distinct(list)
    {
      hide PlanesSized;
      validationStamp := (validationStamp + 1) % (UINT32_MAX + 1);
      if validationStamp == 0 {
        validationMarks := seq(pages, _ => 0);
        validationStamp := 1;
      }
      for k := 0 to |list|
        invariant |validationMarks| == pages && 0 < validationStamp <= UINT32_MAX
        invariant forall i :: 0 <= i < pages ==> validationMarks[i] <= validationStamp
        invariant forall i :: 0 <= i < pages ==> (validationMarks[i] == validationStamp <==> i in list[..k])
        invariant forall i :: 0 <= i < k ==> list[i] < pages
        invariant forall i, j :: 0 <= i < j < k ==> list[i] != list[j]
      {
        var index := list[k];
        if index >= pages { return Err(InvalidArgument); }
        if validationMarks[index] == validationStamp {
          Repeated(list, k);
          return Err(InvalidArgument);
        }
        assert list[..k + 1] == list[..k] + [index];
        validationMarks := validationMarks[index := validationStamp];
      }
      r := Ok(());
    }

    /** Gathers the listed pages into the host's records, run by run. */
    method CopyToHost(source: seq<nat>, destination: HostPages) returns (r: Result<()>)
      requires Valid() && destination.Valid()
      modifies destination`bytes, this`work
      ensures Valid() && destination.Valid()
      ensures r.Ok? <==>
                |source| == destination.pageCount && destination.layout.geometry == geometry && InPool(source, pages)
      ensures r.Err? ==> destination.bytes == old(destination.bytes) && work == old(work)
      ensures r.Ok? ==> AllMoved(destination.layout, pages, planes, destination.bytes, source, 0, |source|, |planes|)
      ensures r.Ok? ==> PaddingSame(destination.layout, old(destination.bytes), destination.bytes)
      ensures r.Ok? ==>
                work == TransferWork(old(work).payloadBytes + PayloadPerPage(destination.layout, |planes|) * |source|,
                                     old(work).copyOperations
                                     + CopiesPerRun(geometry, |planes|) * RunCount(source, |source|))
    {
      hide WellPlanned, PlanesSized, RunOut, Moved, PaddingSame, PayloadPerPage, CopiesPerRun, CopiesOf, RunCount;
      if destination.pageCount != |source| || destination.layout.geometry != geometry { return Err(InvalidArgument); }
      if exists k :: 0 <= k < |source| && source[k] >= pages { return Err(InvalidArgument); }
      var layout := destination.layout;
      PlaneCount(layout, geometry, pages, planes);
      ghost var start := destination.bytes;
      PaddingStart(layout, start);
      NoRuns(source);
      var begin := 0;
      while begin < |source|
        invariant destination.Valid() && begin <= |source|
        invariant begin == 0 || begin == |source| || source[begin] != source[begin - 1] + 1
        invariant AllMoved(layout, pages, planes, destination.bytes, source, 0, begin, |planes|)
        invariant PaddingSame(layout, start, destination.bytes)
        invariant work.payloadBytes == old(work).payloadBytes + PayloadPerPage(layout, |planes|) * begin
        invariant work.copyOperations == old(work).copyOperations
                  + CopiesPerRun(geometry, |planes|) * RunCount(source, begin)
      {
        var end := RunEnd(source, begin);
        ghost var before := work;
        NoPlanes(layout, geometry);
        for p := 0 to |planes|
          invariant destination.Valid()
          invariant AllMoved(layout, pages, planes, destination.bytes, source, 0, begin, |planes|)
          invariant AllMoved(layout, pages, planes, destination.bytes, source, begin, end, p)
          invariant PaddingSame(layout, start, destination.bytes)
          invariant work.payloadBytes == before.payloadBytes + PayloadPerPage(layout, p) * (end - begin)
          invariant work.copyOperations == before.copyOperations + CopiesPerRun(geometry, p)
        {
          ghost var was := destination.bytes;
          PlaneOut(destination, source, p, begin, end);
          AllMovedKept(layout, pages, planes, was, destination.bytes, source, begin, end, p);
          PaddingKept(layout, pages, planes, start, was, destination.bytes, source, begin, end, p);
          OnePlaneMore(layout, geometry, p, end - begin);
        }
        OneRunMore(PayloadPerPage(layout, |planes|), begin, end, CopiesPerRun(geometry, |planes|),
                   RunCount(source, begin));
        begin := end;
      }
      r := Ok(());
    }

    /** Scatters the host's records into the listed pages, which must be distinct. */
    method CopyFromHost(source: HostPages, destination: seq<nat>) returns (r: Result<()>)
      requires Valid() && source.Valid()
      modifies this`planes, this`work, this`validationStamp, this`validationMarks
      ensures Valid()
      ensures r.Ok? <==> && |destination| == source.pageCount && source.layout.geometry == geometry
                         && InPool(destination, pages) && Distinct(destination)
      ensures r.Err? ==> planes == old(planes) && work == old(work)
      ensures r.Ok? ==> AllMoved(source.layout, pages, planes, source.bytes, destination, 0, |destination|, |planes|)
      ensures r.Ok? ==> OthersSame(source.layout, pages, old(planes), planes, destination)
      ensures r.Ok? ==>
                work == TransferWork(old(work).payloadBytes + PayloadPerPage(source.layout, |planes|) * |destination|,
                                     old(work).copyOperations
                                     + CopiesPerRun(geometry, |planes|) * RunCount(destination, |destination|))
    {
      hide WellPlanned, PlanesSized, RunIn, Moved, OthersSame, PayloadPerPage, CopiesPerRun, CopiesOf, RunCount;
      if source.pageCount != |destination| || source.layout.geometry != geometry { return Err(InvalidArgument); }
      var distinct := ValidateDistinct(destination);
      if distinct.Err? { return Err(distinct.error); }
      var layout := source.layout;
      PlaneCount(layout, geometry, pages, planes);
      ghost var start := planes;
      OthersStart(layout, pages, start, destination);
      NoRuns(destination);
      var begin := 0;
      while begin < |destination|
        invariant Valid() && begin <= |destination| && |planes| == |start|
        invariant begin == 0 || begin == |destination| || destination[begin] != destination[begin - 1] + 1
        invariant AllMoved(layout, pages, planes, source.bytes, destination, 0, begin, |planes|)
        invariant OthersSame(layout, pages, start, planes, destination)
        invariant work.payloadBytes == old(work).payloadBytes + PayloadPerPage(layout, |planes|) * begin
        invariant work.copyOperations == old(work).copyOperations
                  + CopiesPerRun(geometry, |planes|) * RunCount(destination, begin)
      {
        var end := RunEnd(destination, begin);
        ghost var before := work;
        NoPlanes(layout, geometry);
        for p := 0 to |planes|
          invariant Valid() && |planes| == |start|
          invariant AllMoved(layout, pages, planes, source.bytes, destination, 0, begin, |planes|)
          invariant AllMoved(layout, pages, planes, source.bytes, destination, begin, end, p)
          invariant OthersSame(layout, pages, start, planes, destination)
          invariant work.payloadBytes == before.payloadBytes + PayloadPerPage(layout, p) * (end - begin)
          invariant work.copyOperations == before.copyOperations + CopiesPerRun(geometry, p)
        {
          ghost var was := planes;
          PlaneIn(source, destination, p, begin, end);
          AllLandedKept(layout, pages, was, planes, source.bytes, destination, begin, end, p);
          OthersKept(layout, pages, start, was, planes, source.bytes, destination, begin, end, p);
          OnePlaneMore(layout, geometry, p, end - begin);
        }
        OneRunMore(PayloadPerPage(layout, |planes|), begin, end, CopiesPerRun(geometry, |planes|),
                   RunCount(destination, begin));
        begin := end;
      }
      r := Ok(());
    }

    /** copy_page: one page onto another, plane by plane. */
    method CopyPage(source: nat, destination: nat) returns (r: Result<()>)
      requires Valid()
      modifies this`planes, this`work
      ensures Valid()
      ensures r.Ok? <==> source < pages && destination < pages
      ensures r.Err? ==> planes == old(planes) && work == old(work)
      ensures r.Ok? ==> forall p :: 0 <= p < |planes| ==>
                PageCopied(PoolShape(p), old(planes)[p], planes[p], source, destination)
      ensures r.Ok? && source != destination ==>
                work == TransferWork(old(work).payloadBytes + PoolPayload(geometry, |planes|),
                                     old(work).copyOperations + |planes|)
      ensures source == destination ==> work == old(work)
    {
      hide PlanesSized, PlaneShape.Total, PlaneShape.PageBytes, PlaneShape.Place, Memcpy2D, Stride, HeadBytes,
        PageCopied;
      SizesFrom(geometry, pages, planes);
      if source >= pages || destination >= pages { return Err(InvalidArgument); }
      if source == destination {
        forall p | 0 <= p < |planes| ensures PageCopied(PoolShape(p), planes[p], planes[p], source, destination) {
          CopiedOntoItself(PoolShape(p), planes[p], source);
        }
        return Ok(());
      }
      ghost var start := planes;
      for p := 0 to |planes|
        invariant PlanesSized(geometry, pages, planes) && |planes| == |start| && planes[p..] == start[p..]
        invariant forall m :: 0 <= m < p ==> PageCopied(PoolShape(m), start[m], planes[m], source, destination)
        invariant work == TransferWork(old(work).payloadBytes + PoolPayload(geometry, p), old(work).copyOperations + p)
      {
        ghost var was := planes;
        assert planes[p] == start[p..][0];
        CopyPlane(source, destination, p);
        SizesKept(geometry, pages, was, planes, p);
        PoolPayloadStep(geometry, 0, p);
        assert planes[p + 1..] == was[p + 1..] == start[p + 1..];
      }
      r := Ok(());
    }

    /** One plane of a page copy. */
    method CopyPlane(source: nat, destination: nat, p: nat)
      requires Valid() && p < |planes| && source < pages && destination < pages
      modifies this`planes, this`work
      ensures p < |planes| && planes == old(planes)[p := planes[p]] && |planes[p]| == |old(planes)[p]|
      ensures p < |geometry.planes| && ShapeOf(geometry, geometry.planes[p], pages).Valid()
      ensures PageCopied(ShapeOf(geometry, geometry.planes[p], pages), old(planes)[p], planes[p], source, destination)
      ensures work == PageWork(old(work), geometry, p)
    {
      hide PlanesSized, Memcpy2D, Stride, PageCopied, DevicePage, Worked, PageWork, PlaneShape.Total, HeadBytes;
      SizesFrom(geometry, pages, planes);
      var plane := geometry.planes[p];
      var ne := Extents(geometry, plane, pages);
      var nb2, nb3 := Stride(plane.dtype, ne, 2), Stride(plane.dtype, ne, 3);
      CopyPlaneStep(geometry, pages, planes[p], p, source, destination, work);
      if geometry.order == PageMajor {
        planes := planes[p := Memcpy2D(planes[p], DevicePage(nb3, destination), nb3,
                                       planes[p], DevicePage(nb3, source), nb3, nb3, 1)];
        work := Worked(work, nb3, 1);
      } else {
        planes := planes[p := Memcpy2D(planes[p], DevicePage(nb2, destination), nb3,
                                       planes[p], DevicePage(nb2, source), nb3, nb2, plane.headExtent)];
        work := Worked(work, nb2, plane.headExtent);
      }
    }

    ghost function PoolShape(p: nat): (shape: PlaneShape)
      reads this
      requires Valid() && p < |planes|
      ensures shape.Valid()
    {
      SizesFrom(geometry, pages, planes);
      ShapeOf(geometry, geometry.planes[p], pages)
    }
  }

  ghost predicate PlanesSized(geometry: PageGeometry, pages: nat, planes: seq<seq<byte>>) {
    && geometry.pageTokens > 0 && geometry.planes != [] && |planes| == |geometry.planes|
    && forall p :: 0 <= p < |planes| ==>
         && geometry.planes[p].leadingExtent > 0 && geometry.planes[p].headExtent > 0
         && |planes[p]| == ShapeOf(geometry, geometry.planes[p], pages).Total()
  }

  lemma RunReadyFrom(layout: HostPageLayout, pages: nat, planes: seq<seq<byte>>, host: nat, records: nat, p: nat,
                     list: seq<nat>, begin: nat, end: nat)
    requires WellPlanned(layout) && PlanesSized(layout.geometry, pages, planes) && p < |planes|
    requires host == records * layout.pageStride && begin < end <= |list| == records
             && list[begin] + (end - begin) <= pages
    ensures RunReady(layout, pages, |planes[p]|, host, p, list[begin], begin, end - begin)
  {
    MulMonotone(end, records, layout.pageStride);
  }

  lemma OneHeadMore(head: nat, bytes: nat, count: nat)
    ensures (head + 1) * bytes * count == head * bytes * count + bytes * count
  {
    assert (head + 1) * bytes == head * bytes + bytes;
  }

  lemma Swap(a: nat, b: nat)
    ensures a * b == b * a
  {
  }

  lemma SizesKept(geometry: PageGeometry, pages: nat, before: seq<seq<byte>>, after: seq<seq<byte>>, p: nat)
    requires PlanesSized(geometry, pages, before) && p < |before| == |after|
    requires after == before[p := after[p]] && |after[p]| == |before[p]|
    ensures PlanesSized(geometry, pages, after)
  {
  }

  ghost predicate InPool(list: seq<nat>, pages: nat) {
    forall k :: 0 <= k < |list| ==> list[k] < pages
  }

  ghost predicate Distinct(list: seq<nat>) {
    forall i, j :: 0 <= i < j < |list| ==> list[i] != list[j]
  }

  lemma Repeated(list: seq<nat>, k: nat)
    requires k < |list| && list[k] in list[..k]
    ensures !Distinct(list)
  {
    var i :| 0 <= i < k && list[..k][i] == list[k];
    assert list[i] == list[k];
  }

  /** Records [b, e) hold the listed pages, in the first m planes. */
  ghost predicate AllMoved(layout: HostPageLayout, pages: nat, planes: seq<seq<byte>>, host: seq<byte>, list: seq<nat>,
                           b: nat, e: nat, m: nat)
    requires WellPlanned(layout) && m <= |layout.planes| && e <= |list|
  {
    forall k, q :: b <= k < e && 0 <= q < m ==> Moved(layout, pages, planes, host, list[k], k, q)
  }

  /** The bytes between the planes of a record stay as they were. */
  ghost predicate PaddingSame(layout: HostPageLayout, before: seq<byte>, after: seq<byte>) {
    && |before| == |after|
    && forall k: nat, i: nat ::
         i < layout.pageStride && Cell(layout.pageStride, k, i) < |before| && InPadding(layout, i) ==>
           after[Cell(layout.pageStride, k, i)] == before[Cell(layout.pageStride, k, i)]
  }

  ghost predicate InPadding(layout: HostPageLayout, i: nat) {
    forall p :: 0 <= p < |layout.planes| ==> !(layout.planes[p].offset <= i < layout.planes[p].End())
  }

  lemma PaddingStart(layout: HostPageLayout, host: seq<byte>)
    ensures PaddingSame(layout, host, host)
  {
  }

  lemma PaddingKept(layout: HostPageLayout, pages: nat, planes: seq<seq<byte>>, start: seq<byte>, before: seq<byte>,
                    after: seq<byte>, list: seq<nat>, b: nat, e: nat, p: nat)
    requires PaddingSame(layout, start, before) && RunOut(layout, pages, planes, before, after, list, p, b, e)
    ensures PaddingSame(layout, start, after)
  {
    hide Cell, Moved, WellPlanned;
    var stride := layout.pageStride;
    forall k: nat, i: nat | i < stride && Cell(stride, k, i) < |start| && InPadding(layout, i)
      ensures after[Cell(stride, k, i)] == start[Cell(stride, k, i)]
    {
      assert before[Cell(stride, k, i)] == start[Cell(stride, k, i)];
    }
  }

  /** Copying plane p of a run keeps what has moved: earlier records, and earlier planes of the run. */
  lemma MovedKept(layout: HostPageLayout, pages: nat, planes: seq<seq<byte>>, before: seq<byte>, after: seq<byte>,
                  page: nat, k: nat, q: nat, b: nat, e: nat, p: nat)
    requires WellPlanned(layout) && p < |layout.planes| && q < |layout.planes|
    requires Moved(layout, pages, planes, before, page, k, q) && (k < b || p != q)
    requires HostSame(before, after, layout.pageStride, b, e, layout.planes[p].offset,
                      layout.planes[p].offset + layout.planes[p].pagePayloadBytes)
    ensures Moved(layout, pages, planes, after, page, k, q)
  {
    hide SameBytes, HostSame, WellPlanned, Shape;
    ShapeValid(layout, pages, q);
    PositiveExtents(layout, q);
    if p != q { PlanesApart(layout, p, q); }
    var plane := layout.planes[p];
    SameBytesKept(Shape(layout, pages, q), planes[q], page, layout.pageStride, layout.planes[q].offset, before, after,
                  k, layout.planes[q].pagePayloadBytes, b, e, plane.offset, plane.offset + plane.pagePayloadBytes);
  }

  lemma AllMovedKept(layout: HostPageLayout, pages: nat, planes: seq<seq<byte>>, before: seq<byte>, after: seq<byte>,
                     list: seq<nat>, b: nat, e: nat, p: nat)
    requires WellPlanned(layout) && p < |layout.planes| && |planes| <= |layout.planes| && b <= e <= |list|
    requires AllMoved(layout, pages, planes, before, list, 0, b, |planes|)
             && AllMoved(layout, pages, planes, before, list, b, e, p)
    requires RunOut(layout, pages, planes, before, after, list, p, b, e)
    ensures AllMoved(layout, pages, planes, after, list, 0, b, |planes|)
            && AllMoved(layout, pages, planes, after, list, b, e, p + 1)
  {
    hide Moved, HostSame, WellPlanned;
    forall k, q | 0 <= k < b && 0 <= q < |planes| ensures Moved(layout, pages, planes, after, list[k], k, q) {
      MovedKept(layout, pages, planes, before, after, list[k], k, q, b, e, p);
    }
    forall k, q | b <= k < e && 0 <= q < p ensures Moved(layout, pages, planes, after, list[k], k, q) {
      MovedKept(layout, pages, planes, before, after, list[k], k, q, b, e, p);
    }
  }

  lemma PlaneCount(layout: HostPageLayout, geometry: PageGeometry, pages: nat, planes: seq<seq<byte>>)
    requires WellPlanned(layout) && layout.geometry == geometry && PlanesSized(geometry, pages, planes)
    ensures |planes| == |layout.planes| == |geometry.planes|
  {
  }

  lemma NoRuns(list: seq<nat>)
    ensures RunCount(list, 0) == 0
  {
  }

  lemma NoPlanes(layout: HostPageLayout, geometry: PageGeometry)
    ensures PayloadPerPage(layout, 0) == 0 && CopiesPerRun(geometry, 0) == 0
  {
  }

  lemma OnePlaneMore(layout: HostPageLayout, geometry: PageGeometry, p: nat, count: nat)
    requires p < |layout.planes| && p < |geometry.planes|
    ensures PayloadPerPage(layout, p + 1) * count == PayloadPerPage(layout, p) * count
            + layout.planes[p].pagePayloadBytes * count
    ensures CopiesPerRun(geometry, p + 1) == CopiesPerRun(geometry, p) + CopiesOf(geometry, p)
  {
  }

  lemma OneRunMore(payload: nat, begin: nat, end: nat, copies: nat, runs: nat)
    requires begin <= end
    ensures payload * begin + payload * (end - begin) == payload * end
    ensures copies * runs + copies == copies * (runs + 1)
  {
  }

  /** The end of the run of consecutive pages that starts here. */
  method RunEnd(list: seq<nat>, begin: nat) returns (end: nat)
    requires begin < |list| && (begin == 0 || list[begin] != list[begin - 1] + 1)
    ensures begin < end <= |list| && Consecutive(list, begin, end - begin)
    ensures end == |list| || list[end] != list[end - 1] + 1
    ensures RunCount(list, end) == RunCount(list, begin) + 1
    ensures list[begin] + (end - begin) == list[end - 1] + 1
  {
    end := begin + 1;
    while end < |list| && list[end] == list[end - 1] + 1
      invariant begin < end <= |list| && Consecutive(list, begin, end - begin)
      invariant RunCount(list, end) == RunCount(list, begin) + 1
    {
      end := end + 1;
    }
  }

  /** contiguous_run_count: the runs the copies will find. */
  method ContiguousRunCount(list: seq<nat>) returns (runs: nat)
    ensures runs == RunCount(list, |list|)
  {
    runs := 0;
    var previous: int := -2;
    for k := 0 to |list|
      invariant runs == RunCount(list, k)
      invariant k > 0 ==> runs > 0 && previous == list[k - 1]
    {
      var current := list[k];
      if runs == 0 || current != previous + 1 { runs := runs + 1; }
      previous := current;
    }
  }

  // ----- Copying back

  /** A page has the same bytes in both. */
  ghost predicate PageSame(shape: PlaneShape, before: seq<byte>, after: seq<byte>, q: nat)
    requires shape.Valid()
  {
    forall j: nat :: j < shape.PageBytes() ==>
      shape.Place(q, j) < |before| && shape.Place(q, j) < |after|
        && after[shape.Place(q, j)] == before[shape.Place(q, j)]
  }

  /** Pages that are not listed are as they were, in every plane. */
  ghost predicate OthersSame(layout: HostPageLayout, pages: nat, before: seq<seq<byte>>, after: seq<seq<byte>>,
                             list: seq<nat>)
    requires WellPlanned(layout)
  {
    && |before| == |after| == |layout.planes|
    && forall p, q: nat :: 0 <= p < |layout.planes| && q < pages && q !in list ==>
         PageSameIn(layout, pages, before[p], after[p], p, q)
  }

  ghost predicate PageSameIn(layout: HostPageLayout, pages: nat, before: seq<byte>, after: seq<byte>, p: nat, q: nat)
    requires WellPlanned(layout) && p < |layout.planes|
  {
    ShapeValid(layout, pages, p);
    PageSame(Shape(layout, pages, p), before, after, q)
  }

  lemma OthersStart(layout: HostPageLayout, pages: nat, planes: seq<seq<byte>>, list: seq<nat>)
    requires WellPlanned(layout) && PlanesSized(layout.geometry, pages, planes)
    ensures OthersSame(layout, pages, planes, planes, list)
  {
    hide PlaneShape.Place, PlaneShape.Total;
    forall p, q: nat | 0 <= p < |planes| && q < pages ensures PageSameIn(layout, pages, planes[p], planes[p], p, q) {
      ShapeValid(layout, pages, p);
      var shape := Shape(layout, pages, p);
      forall j: nat | j < shape.PageBytes() ensures shape.Place(q, j) < |planes[p]| { PlaceInside(shape, q, j); }
    }
  }

  lemma PageSameJoin(layout: HostPageLayout, pages: nat, a: seq<byte>, b: seq<byte>, c: seq<byte>, p: nat, q: nat,
                     first: nat, count: nat)
    requires WellPlanned(layout) && p < |layout.planes| && q < pages && !(first <= q < first + count)
    requires PageSameIn(layout, pages, a, b, p, q) && Shape(layout, pages, p).Valid()
    requires PlaneSame(Shape(layout, pages, p), b, c, first, count, 0, layout.planes[p].pagePayloadBytes)
    ensures PageSameIn(layout, pages, a, c, p, q)
  {
    hide PlaneShape.Place, PlaneShape.PageBytes;
    ShapeValid(layout, pages, p);
    var shape := Shape(layout, pages, p);
    forall j: nat | j < shape.PageBytes()
      ensures shape.Place(q, j) < |a| && shape.Place(q, j) < |c| && c[shape.Place(q, j)] == a[shape.Place(q, j)]
    {
      assert b[shape.Place(q, j)] == a[shape.Place(q, j)];
    }
  }

  lemma OthersKept(layout: HostPageLayout, pages: nat, start: seq<seq<byte>>, before: seq<seq<byte>>,
                   after: seq<seq<byte>>, host: seq<byte>, list: seq<nat>, b: nat, e: nat, p: nat)
    requires WellPlanned(layout) && OthersSame(layout, pages, start, before, list)
    requires b < e && Consecutive(list, b, e - b) && RunIn(layout, pages, before, after, host, list, p, b, e)
    ensures OthersSame(layout, pages, start, after, list)
  {
    hide WellPlanned, PageSameIn, PlaneSame, Shape, Moved;
    forall m, q: nat | 0 <= m < |layout.planes| && q < pages && q !in list
      ensures PageSameIn(layout, pages, start[m], after[m], m, q)
    {
      assert PageSameIn(layout, pages, start[m], before[m], m, q);
      if m == p {
        OutsideRun(list, b, e, q);
        PageSameJoin(layout, pages, start[p], before[p], after[p], p, q, list[b], e - b);
      }
    }
  }

  lemma InRun(list: seq<nat>, b: nat, e: nat, q: nat)
    requires b < e && Consecutive(list, b, e - b) && list[b] <= q < list[b] + (e - b)
    ensures list[b + (q - list[b])] == q
  {
  }

  /** A page that is not listed is not in the run. */
  lemma OutsideRun(list: seq<nat>, b: nat, e: nat, q: nat)
    requires b < e && Consecutive(list, b, e - b) && forall k :: b <= k < e ==> list[k] != q
    ensures !(list[b] <= q < list[b] + (e - b))
  {
    if list[b] <= q < list[b] + (e - b) {
      InRun(list, b, e, q);
      assert false;
    }
  }

  /** Writing plane p of a run keeps what has landed: other pages, and other planes. */
  lemma LandedKept(layout: HostPageLayout, pages: nat, before: seq<seq<byte>>, after: seq<seq<byte>>, host: seq<byte>,
                   page: nat, k: nat, q: nat, first: nat, count: nat, p: nat)
    requires WellPlanned(layout) && p < |layout.planes| && q < |layout.planes| && p < |before| == |after|
             && page < pages
    requires Moved(layout, pages, before, host, page, k, q) && (p != q || !(first <= page < first + count))
    requires after == before[p := after[p]] && Shape(layout, pages, p).Valid()
    requires PlaneSame(Shape(layout, pages, p), before[p], after[p], first, count, 0, layout.planes[p].pagePayloadBytes)
    ensures Moved(layout, pages, after, host, page, k, q)
  {
    hide SameBytes, PlaneSame, WellPlanned, Shape, PlaneShape.PageBytes;
    ShapeValid(layout, pages, q);
    PositiveExtents(layout, q);
    if p == q {
      SameBytesOnDevice(Shape(layout, pages, p), before[p], after[p], page, layout.pageStride, layout.planes[p].offset,
                        host, k, first, count, layout.planes[p].pagePayloadBytes);
    }
  }

  lemma AllLandedKept(layout: HostPageLayout, pages: nat, before: seq<seq<byte>>, after: seq<seq<byte>>,
                      host: seq<byte>, list: seq<nat>, b: nat, e: nat, p: nat)
    requires WellPlanned(layout) && p < |before| == |after| == |layout.planes| && b < e <= |list|
    requires InPool(list, pages) && Distinct(list) && Consecutive(list, b, e - b)
    requires AllMoved(layout, pages, before, host, list, 0, b, |before|)
             && AllMoved(layout, pages, before, host, list, b, e, p)
    requires RunIn(layout, pages, before, after, host, list, p, b, e)
    ensures AllMoved(layout, pages, after, host, list, 0, b, |after|)
            && AllMoved(layout, pages, after, host, list, b, e, p + 1)
  {
    hide Moved, PlaneSame, WellPlanned, Shape;
    forall k, q | 0 <= k < b && 0 <= q < |before| ensures Moved(layout, pages, after, host, list[k], k, q) {
      assert Moved(layout, pages, before, host, list[k], k, q);
      OutsideRun(list, b, e, list[k]);
      LandedKept(layout, pages, before, after, host, list[k], k, q, list[b], e - b, p);
    }
    forall k, q | b <= k < e && 0 <= q < p ensures Moved(layout, pages, after, host, list[k], k, q) {
      assert Moved(layout, pages, before, host, list[k], k, q);
      LandedKept(layout, pages, before, after, host, list[k], k, q, list[b], e - b, p);
    }
  }

  // ----- Copying one page onto another

  /** The destination page is the source page, and no other page changed. */
  ghost predicate PageCopied(shape: PlaneShape, before: seq<byte>, after: seq<byte>, source: nat, destination: nat)
    requires shape.Valid()
  {
    && |after| == |before|
    && forall q: nat, j: nat :: q < shape.pages && j < shape.PageBytes() ==>
         var from := if q == destination then source else q;
         && shape.Place(q, j) < |after| && shape.Place(from, j) < |before|
         && after[shape.Place(q, j)] == before[shape.Place(from, j)]
  }

  lemma CopiedOntoItself(shape: PlaneShape, plane: seq<byte>, page: nat)
    requires shape.Valid() && |plane| == shape.Total() && page < shape.pages
    ensures PageCopied(shape, plane, plane, page, page)
  {
    hide PlaneShape.Place, PlaneShape.Total, PlaneShape.PageBytes;
    forall q: nat, j: nat | q < shape.pages && j < shape.PageBytes() ensures shape.Place(q, j) < |plane| {
      PlaceInside(shape, q, j);
    }
  }

  /** The copy of one page inside a plane: the page whole, or one row a head. */
  function PageCopyOf(shape: PlaneShape, source: nat, destination: nat): RecordCopy {
    if shape.order == PageMajor then
      RecordCopy(shape.PageBytes(), destination, 0, shape.PageBytes(), source, 0, shape.PageBytes(), 1)
    else
      RecordCopy(shape.headBytes * shape.pages, 0, destination * shape.headBytes,
                 shape.headBytes * shape.pages, 0, source * shape.headBytes, shape.headBytes, shape.heads)
  }

  lemma PageCopyReady(shape: PlaneShape, plane: nat, source: nat, destination: nat)
    requires shape.Valid() && plane == shape.Total() && source < shape.pages && destination < shape.pages
    ensures PageCopyOf(shape, source, destination).Fits(plane, plane)
  {
    hide PlaneShape.PageBytes;
    StripFacts(shape);
    if shape.order == PageMajor {
      MulMonotone(destination + 1, shape.pages, shape.PageBytes());
      MulMonotone(source + 1, shape.pages, shape.PageBytes());
    } else {
      TotalOf(shape);
      HeadRowsFit(shape.headBytes, shape.pages, shape.heads, source);
      HeadRowsFit(shape.headBytes, shape.pages, shape.heads, destination);
    }
  }

  lemma HeadRowsFit(hb: nat, pages: nat, heads: nat, page: nat)
    requires page < pages
    ensures page * hb + hb <= hb * pages
    ensures (0 + heads) * (hb * pages) == heads * pages * hb
  {
    MulMonotone(page + 1, pages, hb);
    assert heads * pages * hb == heads * (pages * hb);
  }

  lemma PageCopyDone(shape: PlaneShape, plane: seq<byte>, source: nat, destination: nat)
    requires shape.Valid() && |plane| == shape.Total() && source < shape.pages && destination < shape.pages
    requires PageCopyOf(shape, source, destination).Fits(|plane|, |plane|)
    ensures PageCopied(shape, plane, Run(PageCopyOf(shape, source, destination), plane, plane), source, destination)
  {
    hide PlaneShape.Place, PlaneShape.Total, PlaneShape.PageBytes, PageCopyOf, Run;
    var after := Run(PageCopyOf(shape, source, destination), plane, plane);
    forall q: nat, j: nat | q < shape.pages && j < shape.PageBytes()
      ensures var from := if q == destination then source else q;
              && shape.Place(q, j) < |after| && shape.Place(from, j) < |plane|
              && after[shape.Place(q, j)] == plane[shape.Place(from, j)]
    {
      PlaceInside(shape, q, j);
      PlaceInside(shape, source, j);
      PageCopyAt(shape, plane, source, destination, q, j);
    }
  }

  lemma PageCopyAt(shape: PlaneShape, plane: seq<byte>, source: nat, destination: nat, q: nat, j: nat)
    requires shape.Valid() && |plane| == shape.Total() && source < shape.pages && destination < shape.pages
    requires PageCopyOf(shape, source, destination).Fits(|plane|, |plane|)
    requires q < shape.pages && j < shape.PageBytes()
    ensures shape.Place(q, j) < |plane| && shape.Place(source, j) < |plane|
    ensures Run(PageCopyOf(shape, source, destination), plane, plane)[shape.Place(q, j)]
         == plane[shape.Place(if q == destination then source else q, j)]
  {
    hide PlaneShape.Total, PlaneShape.Place, PlaneShape.PageBytes, PageCopyOf, Run, Cell, RecordCopy.Fits;
    PlaceInside(shape, q, j);
    PlaceInside(shape, source, j);
    if shape.order == PageMajor {
      PageAt(shape, plane, source, destination, q, j);
    } else {
      HeadsAt(shape, plane, source, destination, q, j);
    }
  }

  lemma PageAt(shape: PlaneShape, plane: seq<byte>, source: nat, destination: nat, q: nat, j: nat)
    requires shape.Valid() && shape.order == PageMajor && j < shape.PageBytes()
    requires PageCopyOf(shape, source, destination).Fits(|plane|, |plane|)
    requires shape.Place(q, j) < |plane| && shape.Place(source, j) < |plane|
    ensures Run(PageCopyOf(shape, source, destination), plane, plane)[shape.Place(q, j)]
         == plane[shape.Place(if q == destination then source else q, j)]
  {
    hide PlaneShape.Total, PlaneShape.PageBytes, Run, Cell, RecordCopy.Fits;
    RunAt(PageCopyOf(shape, source, destination), plane, plane, q, j);
  }

  lemma HeadsAt(shape: PlaneShape, plane: seq<byte>, source: nat, destination: nat, q: nat, j: nat)
    requires shape.Valid() && shape.order == HeadMajor && j < shape.PageBytes()
    requires q < shape.pages && source < shape.pages
    requires PageCopyOf(shape, source, destination).Fits(|plane|, |plane|)
    requires shape.Place(q, j) < |plane| && shape.Place(source, j) < |plane|
    ensures Run(PageCopyOf(shape, source, destination), plane, plane)[shape.Place(q, j)]
         == plane[shape.Place(if q == destination then source else q, j)]
  {
    hide PlaneShape.Total, PlaneShape.PageBytes, Run, Cell, RecordCopy.Fits, RecordCopy.Hits;
    var hb, c := shape.headBytes, PageCopyOf(shape, source, destination);
    var h, i := j / hb, j % hb;
    HeadBelow(shape, j);
    HeadRow(hb, shape.pages, h, q, i);
    HeadRow(hb, shape.pages, h, source, i);
    HeadHit(shape, source, destination, h, q, i);
    RunAt(c, plane, plane, h, q * hb + i);
  }

  /** The copy of a page hits the row of a head exactly in the destination page. */
  lemma HeadHit(shape: PlaneShape, source: nat, destination: nat, h: nat, q: nat, i: nat)
    requires shape.Valid() && shape.order == HeadMajor && h < shape.heads && i < shape.headBytes
    ensures var c, at := PageCopyOf(shape, source, destination), q * shape.headBytes + i;
            && (c.Hits(h, at) <==> q == destination)
            && (q == destination ==>
                  c.sb + (h - c.db) == h && c.so + (at - c.o) == source * shape.headBytes + i && c.ss == c.ds)
  {
    RowOfPage(shape.headBytes, shape.pages, q, destination, i);
  }

  lemma HeadRow(hb: nat, pages: nat, h: nat, page: nat, i: nat)
    requires page < pages && i < hb
    ensures Cell(hb, h * pages + page, i) == Cell(hb * pages, h, page * hb + i)
    ensures page * hb + i < hb * pages
  {
    HeadMajorBase(h, pages, page, hb);
    MulMonotone(page + 1, pages, hb);
  }

  lemma RowOfPage(hb: nat, pages: nat, q: nat, destination: nat, i: nat)
    requires i < hb
    ensures destination * hb <= q * hb + i < destination * hb + hb <==> q == destination
  {
    if q < destination {
      MulMonotone(q + 1, destination, hb);
    } else if q > destination {
      MulMonotone(destination + 1, q, hb);
    }
  }

  lemma SizesFrom(geometry: PageGeometry, pages: nat, planes: seq<seq<byte>>)
    requires PlanesSized(geometry, pages, planes)
    ensures |planes| == |geometry.planes|
    ensures forall p :: 0 <= p < |planes| ==>
              && geometry.planes[p].leadingExtent > 0 && geometry.planes[p].headExtent > 0
              && ShapeOf(geometry, geometry.planes[p], pages).Valid()
              && |planes[p]| == ShapeOf(geometry, geometry.planes[p], pages).Total()
  {
    forall p | 0 <= p < |planes| ensures HeadBytes(geometry, geometry.planes[p]) > 0 {
      var plane := geometry.planes[p];
      Positive(plane.leadingExtent, geometry.pageTokens);
      Positive(plane.leadingExtent * geometry.pageTokens, DTypeSize(plane.dtype));
    }
  }

  /** The payload of one page in the first n planes of a pool. */
  function PoolPayload(geometry: PageGeometry, n: nat): nat
    requires n <= |geometry.planes|
  {
    if n == 0 then 0 else PoolPayload(geometry, n - 1) + ShapeOf(geometry, geometry.planes[n - 1], 0).PageBytes()
  }

  /** The work after the copy of one page in plane p. */
  function PageWork(work: TransferWork, geometry: PageGeometry, p: nat): TransferWork
    requires p < |geometry.planes|
  {
    TransferWork(work.payloadBytes + ShapeOf(geometry, geometry.planes[p], 0).PageBytes(), work.copyOperations + 1)
  }

  /** The copy the program issues for plane p of a page, for either order. */
  lemma CopyPlaneStep(geometry: PageGeometry, pages: nat, bytes: seq<byte>, p: nat, source: nat, destination: nat,
                      work: TransferWork)
    requires p < |geometry.planes| && source < pages && destination < pages
    requires geometry.planes[p].leadingExtent > 0 && geometry.planes[p].headExtent > 0
    requires ShapeOf(geometry, geometry.planes[p], pages).Valid()
    requires |bytes| == ShapeOf(geometry, geometry.planes[p], pages).Total()
    ensures var shape, ne := ShapeOf(geometry, geometry.planes[p], pages), Extents(geometry, geometry.planes[p], pages);
            var nb2, nb3 := Stride(geometry.planes[p].dtype, ne, 2), Stride(geometry.planes[p].dtype, ne, 3);
            if geometry.order == PageMajor then
              CopiesPage(shape, bytes, DevicePage(nb3, destination), DevicePage(nb3, source), nb3, nb3, 1, source,
                         destination)
              && Worked(work, nb3, 1) == PageWork(work, geometry, p)
            else
              CopiesPage(shape, bytes, DevicePage(nb2, destination), DevicePage(nb2, source), nb3, nb2,
                         geometry.planes[p].headExtent, source, destination)
              && Worked(work, nb2, geometry.planes[p].headExtent) == PageWork(work, geometry, p)
  {
    hide PlaneShape.Total, PlaneShape.PageBytes, PlaneShape.Place, Memcpy2D, Stride, HeadBytes, PageCopied;
    var plane := geometry.planes[p];
    var shape := ShapeOf(geometry, plane, pages);
    StridesOfPlane(geometry, plane, pages);
    PageCopyReady(shape, |bytes|, source, destination);
    PageCopyDone(shape, bytes, source, destination);
    PageBytesOf(shape);
    PageBytesOf(ShapeOf(geometry, plane, 0));
    var c := PageCopyOf(shape, source, destination);
    LastRow(c.db, c.count, c.ds, c.o, c.width, |bytes|);
    LastRow(c.sb, c.count, c.ss, c.so, c.width, |bytes|);
  }

  /** A copy inside one plane with these arguments is in bounds and copies the page. */
  ghost predicate CopiesPage(shape: PlaneShape, bytes: seq<byte>, to: nat, from: nat, pitch: nat, width: nat, rows: nat,
                             source: nat, destination: nat)
  {
    && shape.Valid() && 0 < width <= pitch && rows > 0
    && to + (rows - 1) * pitch + width <= |bytes| && from + (rows - 1) * pitch + width <= |bytes|
    && PageCopied(shape, bytes, Memcpy2D(bytes, to, pitch, bytes, from, pitch, width, rows), source, destination)
  }

  lemma PageBytesOf(shape: PlaneShape)
    ensures shape.headBytes * shape.heads == shape.PageBytes()
  {
  }

  lemma PoolPayloadStep(geometry: PageGeometry, pages: nat, p: nat)
    requires p < |geometry.planes|
    ensures PoolPayload(geometry, p + 1)
         == PoolPayload(geometry, p) + ShapeOf(geometry, geometry.planes[p], pages).PageBytes()
  {
  }
}
