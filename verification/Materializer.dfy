/** From directory objects to device memory: placing objects, cutting them into file segments, uploading. */
module Materializer {
  import opened Common
  import opened Sorting
  import opened Payload
  import opened Upload

  datatype TensorObject = TensorObject(offset: nat, bytes: nat) {
    function End(): nat { offset + bytes }
  }

  datatype Placement = Placement(tensor: nat, offset: nat, bytes: nat, alignment: nat) {
    function End(): nat { offset + bytes }
  }

  // ----- The directory's objects

  /** Nonempty objects inside the payload, in order, none overlapping. */
  ghost predicate Ordered(objects: seq<TensorObject>, payloadBytes: nat) {
    && (forall i :: 0 <= i < |objects| ==> objects[i].bytes > 0 && objects[i].End() <= payloadBytes)
    && (forall i, j :: 0 <= i < j < |objects| ==> objects[i].End() <= objects[j].offset)
  }

  lemma OrderedStep(objects: seq<TensorObject>, n: nat, payloadBytes: nat)
    requires n < |objects| && Ordered(objects[..n], payloadBytes)
    requires n > 0 ==> objects[n - 1].End() <= objects[n].offset
    requires objects[n].bytes > 0 && objects[n].End() <= payloadBytes
    ensures Ordered(objects[..n + 1], payloadBytes)
  {
    var some := objects[..n + 1];
    assert some == objects[..n] + [objects[n]];
    forall i | 0 <= i < n ensures objects[i].End() <= objects[n].offset {
      if i < n - 1 { assert objects[..n][i] == objects[i] && objects[..n][n - 1] == objects[n - 1]; }
    }
  }

  /** An object as the directory lists it. */
  datatype ObjectEntry = ObjectEntry(id: string, kind: string, offset: nat, bytes: nat)

  function ExtentsOf(listed: seq<ObjectEntry>): (objects: seq<TensorObject>)
    ensures |objects| == |listed|
    ensures forall i :: 0 <= i < |listed| ==> objects[i] == TensorObject(listed[i].offset, listed[i].bytes)
  {
    seq(|listed|, i requires 0 <= i < |listed| => TensorObject(listed[i].offset, listed[i].bytes))
  }

  predicate KnownKind(kind: string) { kind == "tensor" || kind == "resource" }

  /** Every object has a known kind and a legal identifier of its own. */
  ghost predicate Identified(listed: seq<ObjectEntry>) {
    && (forall i :: 0 <= i < |listed| ==>
          && (listed[i].kind == "tensor" || listed[i].kind == "resource")
          && listed[i].id != "" && '\0' !in listed[i].id)
    && (forall i, j :: 0 <= i < j < |listed| ==> listed[i].id != listed[j].id)
  }

  /** The index finds exactly the listed objects, each at its place. */
  ghost predicate Indexes(index: map<string, nat>, listed: seq<ObjectEntry>) {
    && (forall id :: id in index ==> index[id] < |listed| && listed[index[id]].id == id)
    && (forall i :: 0 <= i < |listed| ==> listed[i].id in index && index[listed[i].id] == i)
  }

  lemma IdentifiedStep(listed: seq<ObjectEntry>, n: nat, index: map<string, nat>)
    requires n < |listed| && Identified(listed[..n]) && Indexes(index, listed[..n])
    ensures Identified(listed[..n + 1]) <==>
              KnownKind(listed[n].kind) && LegalId(listed[n].id) && listed[n].id !in index
    ensures Identified(listed) ==> Identified(listed[..n + 1])
    ensures listed[n].id !in index ==> Indexes(index[listed[n].id := n], listed[..n + 1])
  {
    var front, some := listed[..n], listed[..n + 1];
    assert some == front + [listed[n]];
    forall i | 0 <= i < n ensures some[i] == front[i] && (Identified(some) ==> front[i].id != listed[n].id) {
      assert Identified(some) ==> some[i].id != some[n].id;
    }
    assert Identified(some) ==> KnownKind(some[n].kind) && LegalId(some[n].id);
  }

  /** parse_objects: one pass over the list with the previous end and the index so far. */
  method ParseObjects(listed: seq<ObjectEntry>, payloadBytes: nat)
    returns (r: Result<(seq<TensorObject>, map<string, nat>)>)
    requires payloadBytes <= SIZE_MAX
    ensures r.Ok? <==> listed != [] && Identified(listed) && Ordered(ExtentsOf(listed), payloadBytes)
    ensures r.Ok? ==> r.value.0 == ExtentsOf(listed) && Indexes(r.value.1, listed)
  {
    hide Identified, Indexes, KnownKind, LegalId;
    if listed == [] { return Err(ArtifactError); }
    var previousEnd: nat := 0;
    var objects: seq<TensorObject> := [];
    var index: map<string, nat> := map[];
    ghost var extents := ExtentsOf(listed);
    NothingListed(listed);
    for i := 0 to |listed|
      invariant objects == extents[..i] && Ordered(extents[..i], payloadBytes)
      invariant previousEnd == if i == 0 then 0 else extents[i - 1].End()
      invariant Identified(listed[..i]) && Indexes(index, listed[..i])
    {
      var entry := listed[i];
      IdentifiedStep(listed, i, index);
      if !KnownKind(entry.kind) || !LegalId(entry.id) { return Err(ArtifactError); }
      if entry.bytes == 0 { return Err(ArtifactError); }
      var end := CheckedAdd(entry.offset, entry.bytes);
      if end.Err? { return Err(ArtifactError); }
      if entry.offset < previousEnd || end.value > payloadBytes { return Err(ArtifactError); }
      if entry.id in index { return Err(ArtifactError); }
      OrderedStep(extents, i, payloadBytes);
      index := index[entry.id := i];
      objects := objects + [TensorObject(entry.offset, entry.bytes)];
      previousEnd := end.value;
    }
    assert extents[..|listed|] == extents && listed[..|listed|] == listed;
    r := Ok((objects, index));
  }

  lemma NothingListed(listed: seq<ObjectEntry>)
    ensures Identified(listed[..0]) && Indexes(map[], listed[..0])
  {
  }

  // ----- The device plan

  /** Where the first n placements end. */
  function EndOf(plan: seq<Placement>, n: nat): nat
    requires n <= |plan|
  {
    if n == 0 then 0 else plan[n - 1].End()
  }

  ghost predicate PlacedNext(objects: seq<TensorObject>, plan: seq<Placement>, k: nat)
    requires k < |plan|
  {
    && plan[k].tensor < |objects| && plan[k].bytes == objects[plan[k].tensor].bytes
    && plan[k].alignment > 0 && plan[k].offset == AlignUp(EndOf(plan, k), plan[k].alignment)
    && (k > 0 ==> plan[k - 1].tensor < plan[k].tensor)
  }

  /** Objects in directory order, each at the next offset its alignment allows. */
  ghost predicate PlanFor(objects: seq<TensorObject>, plan: seq<Placement>, capacity: nat) {
    && (forall k :: 0 <= k < |plan| ==> PlacedNext(objects, plan, k))
    && capacity == EndOf(plan, |plan|) <= SIZE_MAX
  }

  /** More than the plan of the first n objects can take. */
  function Room(objects: seq<TensorObject>, wanted: seq<Option<nat>>, n: nat): nat
    requires n <= |objects| == |wanted|
  {
    if n == 0 then 0 else
    Room(objects, wanted, n - 1) + if wanted[n - 1].Some? then wanted[n - 1].value + objects[n - 1].bytes else 0
  }

  lemma {:induction false} RoomGrows(objects: seq<TensorObject>, wanted: seq<Option<nat>>, i: nat, j: nat)
    requires i <= j <= |objects| == |wanted|
    ensures Room(objects, wanted, i) <= Room(objects, wanted, j)
  {
    if i < j { RoomGrows(objects, wanted, i, j - 1); }
  }

  /** One more placement at the next aligned offset. */
  lemma PlanSnoc(objects: seq<TensorObject>, plan: seq<Placement>, capacity: nat, p: Placement)
    requires PlanFor(objects, plan, capacity) && p.tensor < |objects| && p.bytes == objects[p.tensor].bytes
    requires p.alignment > 0 && p.offset == AlignUp(capacity, p.alignment) && p.End() <= SIZE_MAX
    requires plan != [] ==> plan[|plan| - 1].tensor < p.tensor
    ensures PlanFor(objects, plan + [p], p.End())
  {
    hide AlignUp;
    var more := plan + [p];
    forall k | 0 <= k < |more| ensures PlacedNext(objects, more, k) {
      assert EndOf(more, k) == EndOf(plan, k);
      if k < |plan| { assert PlacedNext(objects, plan, k); }
    }
  }

  lemma EmptyPlan(objects: seq<TensorObject>)
    ensures PlanFor(objects, [], 0)
  {
  }

  /** Where the first n objects end when each wanted one lies on the next boundary of its alignment. */
  function PackedTo(objects: seq<TensorObject>, wanted: seq<Option<nat>>, n: nat): nat
    requires n <= |objects| == |wanted|
  {
    if n == 0 then 0 else
    var before, want := PackedTo(objects, wanted, n - 1), wanted[n - 1];
    if want.None? || want.value == 0 then before else AlignUp(before, want.value) + objects[n - 1].bytes
  }

  /** The object has an alignment, and neither aligning nor adding it leaves 64 bits. */
  predicate Placeable(objects: seq<TensorObject>, wanted: seq<Option<nat>>, i: nat)
    requires i < |objects| == |wanted| && wanted[i].Some?
  {
    && wanted[i].value > 0 && PackedTo(objects, wanted, i) + wanted[i].value - 1 <= SIZE_MAX
    && PackedTo(objects, wanted, i + 1) <= SIZE_MAX
  }

  lemma NothingPacked(objects: seq<TensorObject>, wanted: seq<Option<nat>>)
    requires |objects| == |wanted|
    ensures PackedTo(objects, wanted, 0) == 0
  {
  }

  lemma PackedNext(objects: seq<TensorObject>, wanted: seq<Option<nat>>, i: nat)
    requires i < |objects| == |wanted|
    ensures PackedTo(objects, wanted, i + 1)
         == if wanted[i].None? || wanted[i].value == 0 then PackedTo(objects, wanted, i)
            else AlignUp(PackedTo(objects, wanted, i), wanted[i].value) + objects[i].bytes
  {
  }

  /** Binder::finish: places every wanted object, with checked offsets. */
  method PlanDevice(objects: seq<TensorObject>, wanted: seq<Option<nat>>) returns (r: Result<(seq<Placement>, nat)>)
    requires |wanted| == |objects|
    ensures r.Ok? ==>
              && PlanFor(objects, r.value.0, r.value.1)
              && (forall i :: 0 <= i < |objects| ==> (wanted[i].Some? <==> exists p :: p in r.value.0 && p.tensor == i))
              && (forall p :: p in r.value.0 ==> p.tensor < |wanted| && wanted[p.tensor] == Some(p.alignment))
    ensures r.Ok? <==> forall i :: 0 <= i < |objects| && wanted[i].Some? ==> Placeable(objects, wanted, i)
    ensures Room(objects, wanted, |objects|) <= SIZE_MAX ==>
              (forall i :: 0 <= i < |wanted| && wanted[i].Some? ==> wanted[i].value > 0) ==> r.Ok?
  {
    hide PlanFor, AlignUp, PackedTo;
    NothingPacked(objects, wanted);
    EmptyPlan(objects);
    var plan: seq<Placement> := [];
    var capacity: nat := 0;
    for i := 0 to |wanted|
      invariant PlanFor(objects, plan, capacity) && capacity <= Room(objects, wanted, i)
      invariant capacity == PackedTo(objects, wanted, i)
      invariant forall k :: 0 <= k < i && wanted[k].Some? ==> Placeable(objects, wanted, k)
      invariant plan != [] ==> plan[|plan| - 1].tensor < i
      invariant forall p :: p in plan ==> p.tensor < i && wanted[p.tensor] == Some(p.alignment)
      invariant forall k :: 0 <= k < i && wanted[k].Some? ==> exists p :: p in plan && p.tensor == k
    {
      PackedNext(objects, wanted, i);
      if wanted[i].Some? {
        var alignment := wanted[i].value;
        RoomGrows(objects, wanted, i + 1, |objects|);
        if alignment > 0 { AlignUpIsLeast(capacity, alignment); }
        if alignment == 0 || capacity + alignment - 1 > SIZE_MAX { return Err(ArtifactError); }
        var offset := AlignUp(capacity, alignment);
        var end := CheckedAdd(offset, objects[i].bytes);
        if end.Err? { return Err(ArtifactError); }
        ghost var before := plan;
        var p := Placement(i, offset, objects[i].bytes, alignment);
        PlanSnoc(objects, plan, capacity, p);
        plan := plan + [p];
        capacity := end.value;
        assert plan[|plan| - 1] == p;
        assert forall q :: q in before ==> q in plan;
      }
    }
    r := Ok((plan, capacity));
  }

  /** Placements lie one behind the other and name different objects. */
  lemma {:induction false} PlanOrdered(objects: seq<TensorObject>, plan: seq<Placement>, capacity: nat, i: nat, j: nat)
    requires PlanFor(objects, plan, capacity) && i < j < |plan|
    ensures plan[i].tensor < plan[j].tensor && plan[i].End() <= plan[j].offset
    decreases j - i
  {
    assert PlacedNext(objects, plan, j);
    AlignUpIsLeast(EndOf(plan, j), plan[j].alignment);
    if i < j - 1 { PlanOrdered(objects, plan, capacity, i, j - 1); }
  }

  /** is_power_of_two: halved until odd, one is left. */
  predicate PowerOfTwo(n: nat) {
    n == 1 || (n > 1 && n % 2 == 0 && PowerOfTwo(n / 2))
  }

  /** DeviceArena::alloc_bytes: the next aligned address in the backing allocation. */
  function ArenaAlloc(base: nat, used: nat, capacity: nat, bytes: nat, alignment: nat): Result<nat> {
    if !PowerOfTwo(alignment) || bytes == 0 then Err(InvalidArgument) else
    if base + used + alignment - 1 > SIZE_MAX then Err(OverflowError) else
    var offset := AlignUp(base + used, alignment) - base;
    if offset + bytes > SIZE_MAX then Err(OverflowError)
    else if offset < 0 || offset + bytes > capacity then Err(BadAlloc) else Ok(offset)
  }

  function PowerOf2(k: nat): nat {
    if k == 0 then 1 else 2 * PowerOf2(k - 1)
  }

  lemma {:induction false} PowersAre(k: nat)
    ensures PowerOf2(k) > 0 && PowerOfTwo(PowerOf2(k))
  {
    hide PowerOfTwo;
    OneIsPower();
    if k > 0 {
      PowersAre(k - 1);
      TwiceIsPower(PowerOf2(k - 1));
    }
  }

  lemma OneIsPower()
    ensures PowerOfTwo(1)
  {
  }

  lemma TwiceIsPower(n: nat)
    requires n > 0 && PowerOfTwo(n)
    ensures PowerOfTwo(2 * n)
  {
    assert 2 * n / 2 == n;
  }

  lemma {:induction false} PowerExists(n: nat) returns (k: nat)
    requires PowerOfTwo(n)
    ensures n == PowerOf2(k)
  {
    if n == 1 {
      k := 0;
    } else {
      k := PowerExists(n / 2);
      k := k + 1;
    }
  }

  lemma PowerOfTwoIff(n: nat)
    ensures PowerOfTwo(n) <==> exists k: nat :: n == PowerOf2(k)
  {
    hide PowerOfTwo, PowerOf2;
    if PowerOfTwo(n) { var k := PowerExists(n); }
    forall k: nat ensures PowerOfTwo(PowerOf2(k)) { PowersAre(k); }
  }

  /** A place for the bytes: behind what is used, at an aligned address, inside the arena. */
  predicate SuitsArena(base: nat, used: nat, capacity: nat, bytes: nat, alignment: nat, offset: int)
    requires alignment > 0
  {
    used <= offset && (base + offset) % alignment == 0 && offset + bytes <= capacity
  }

  /** The arena allocates exactly when the alignment is a power of two, something is asked for, the addresses are 64-bit
      numbers and a suitable place exists; then it gives the lowest one. */
  lemma ArenaAllocMeans(base: nat, used: nat, capacity: nat, bytes: nat, alignment: nat)
    requires used <= capacity && base + capacity <= SIZE_MAX
    ensures var r := ArenaAlloc(base, used, capacity, bytes, alignment);
            && (r.Ok? <==>
                  && (exists k: nat :: alignment == PowerOf2(k)) && bytes > 0 && alignment > 0
                  && base + used + alignment - 1 <= SIZE_MAX
                  && exists o :: SuitsArena(base, used, capacity, bytes, alignment, o))
            && (r.Ok? ==>
                  && alignment > 0 && SuitsArena(base, used, capacity, bytes, alignment, r.value)
                  && forall o :: SuitsArena(base, used, capacity, bytes, alignment, o) ==> r.value <= o)
  {
    hide PowerOf2, PowerOfTwo, AlignUp;
    PowerOfTwoIff(alignment);
    if alignment > 0 {
      var at := AlignUp(base + used, alignment);
      AlignUpIsLeast(base + used, alignment);
      forall o | SuitsArena(base, used, capacity, bytes, alignment, o) ensures at - base <= o {
        LeastMultiple(base + used, alignment, base + o);
      }
      assert at - base + bytes <= capacity ==> SuitsArena(base, used, capacity, bytes, alignment, at - base);
    } else {
      ZeroIsNoPower();
    }
  }

  lemma ZeroIsNoPower()
    ensures !PowerOfTwo(0)
  {
  }

  /** No multiple of the alignment lies between a value and its aligned value. */
  lemma LeastMultiple(value: nat, alignment: nat, x: nat)
    requires alignment > 0 && x % alignment == 0 && value <= x
    ensures AlignUp(value, alignment) <= x
  {
    hide AlignUp;
    AlignUpIsLeast(value, alignment);
    var a, b := AlignUp(value, alignment) / alignment, x / alignment;
    assert AlignUp(value, alignment) == a * alignment && x == b * alignment;
    if b < a { MulMonotone(b + 1, a, alignment); MulSum(b, 1, alignment); }
  }

  lemma AlignUpShift(base: nat, used: nat, alignment: nat)
    requires alignment > 0 && base % alignment == 0
    ensures AlignUp(base + used, alignment) == base + AlignUp(used, alignment)
  {
    var q := base / alignment;
    var n := used + alignment - 1;
    var m, rest := n / alignment, n % alignment;
    assert base == q * alignment && n == m * alignment + rest;
    assert base + n == (q + m) * alignment + rest by { MulSum(q, m, alignment); }
    MultipleDiv(q + m, alignment, rest);
    MulSum(q, m, alignment);
  }

  lemma ArenaOffset(base: nat, used: nat, capacity: nat, bytes: nat, alignment: nat)
    requires ArenaAlloc(base, used, capacity, bytes, alignment).Ok?
    ensures used <= ArenaAlloc(base, used, capacity, bytes, alignment).value
  {
    AlignUpIsLeast(base + used, alignment);
  }

  /** The backing allocation suits the plan: aligned for it and addressable. */
  ghost predicate BaseSuits(base: nat, capacity: nat, plan: seq<Placement>) {
    forall k :: 0 <= k < |plan| ==>
      PowerOfTwo(plan[k].alignment) && base % plan[k].alignment == 0 && base + capacity + plan[k].alignment <= SIZE_MAX
  }

  /** A suitable arena gives every placement the offset the plan says. */
  lemma ArenaFollowsPlan(objects: seq<TensorObject>, plan: seq<Placement>, capacity: nat, base: nat, k: nat,
                         payloadBytes: nat)
    requires PlanFor(objects, plan, capacity) && BaseSuits(base, capacity, plan) && Ordered(objects, payloadBytes)
    requires k < |plan|
    ensures ArenaAlloc(base, EndOf(plan, k), capacity, plan[k].bytes, plan[k].alignment) == Ok(plan[k].offset)
  {
    hide PowerOfTwo, AlignUp;
    assert PlacedNext(objects, plan, k);
    AlignUpShift(base, EndOf(plan, k), plan[k].alignment);
    AlignUpIsLeast(EndOf(plan, k), plan[k].alignment);
    if k < |plan| - 1 { PlanEndsInside(objects, plan, capacity, k); }
  }

  lemma PlanEndsInside(objects: seq<TensorObject>, plan: seq<Placement>, capacity: nat, k: nat)
    requires PlanFor(objects, plan, capacity) && k < |plan|
    ensures plan[k].End() <= capacity
  {
    if k < |plan| - 1 { PlanOrdered(objects, plan, capacity, k, |plan| - 1); }
  }

  // ----- Pieces: segments of placed objects

  datatype Piece = Piece(owner: nat, segment: ReadSegment)

  function RangeOf(plan: seq<Placement>, p: Piece): CopyRange
    requires p.owner < |plan|
  {
    var s := p.segment;
    CopyRange(s.fileIndex, s.fileOffset, s.fileOffset + s.bytes, plan[p.owner].offset + s.destinationOffset)
  }

  /** A segment of a placed object, inside that object. */
  ghost predicate PieceFits(d: Directory, objects: seq<TensorObject>, plan: seq<Placement>, p: Piece) {
    && p.owner < |plan| && plan[p.owner].tensor < |objects|
    && SegmentFits(d, objects[plan[p.owner].tensor].offset, p.segment)
    && p.segment.destinationOffset + p.segment.bytes <= plan[p.owner].bytes == objects[plan[p.owner].tensor].bytes
  }

  /** Two pieces of one object do not overlap. */
  predicate PiecesApart(a: Piece, b: Piece) {
    a.owner == b.owner ==>
      || a.segment.destinationOffset + a.segment.bytes <= b.segment.destinationOffset
      || b.segment.destinationOffset + b.segment.bytes <= a.segment.destinationOffset
  }

  predicate SourcesApart(a: CopyRange, b: CopyRange) {
    a.file == b.file ==> a.end <= b.begin || b.end <= a.begin
  }

  /** Placements name different objects and lie apart on the device. */
  ghost predicate PlacedApart(plan: seq<Placement>, n: nat) {
    && n <= |plan|
    && forall i, j :: 0 <= i < j < n ==> plan[i].tensor != plan[j].tensor && plan[i].End() <= plan[j].offset
  }

  /** Apart as pieces, apart in the files and on the device. */
  lemma RangesApart(d: Directory, objects: seq<TensorObject>, plan: seq<Placement>, n: nat, a: Piece, b: Piece)
    requires PieceFits(d, objects, plan, a) && PieceFits(d, objects, plan, b) && PiecesApart(a, b)
    requires PlacedApart(plan, n) && a.owner < n && b.owner < n
    ensures DestinationsApart(RangeOf(plan, a), RangeOf(plan, b))
    ensures Ordered(objects, d.payloadBytes) ==> SourcesApart(RangeOf(plan, a), RangeOf(plan, b))
  {
    var i, j := a.owner, b.owner;
    assert i < j ==> plan[i].End() <= plan[j].offset;
    assert j < i ==> plan[j].End() <= plan[i].offset;
    if Ordered(objects, d.payloadBytes) { DifferentObjects(objects, d.payloadBytes, plan[i].tensor, plan[j].tensor); }
  }

  lemma DifferentObjects(objects: seq<TensorObject>, payloadBytes: nat, i: nat, j: nat)
    requires Ordered(objects, payloadBytes) && i < |objects| && j < |objects|
    ensures i == j || objects[i].End() <= objects[j].offset || objects[j].End() <= objects[i].offset
  {
  }

  /** The ranges of a list of pieces. */
  function RangesOf(plan: seq<Placement>, pieces: seq<Piece>): (ranges: seq<CopyRange>)
    requires forall i :: 0 <= i < |pieces| ==> pieces[i].owner < |plan|
    ensures |ranges| == |pieces| && forall i :: 0 <= i < |pieces| ==> ranges[i] == RangeOf(plan, pieces[i])
  {
    seq(|pieces|, i requires 0 <= i < |pieces| => RangeOf(plan, pieces[i]))
  }

  ghost predicate AllPieces(d: Directory, objects: seq<TensorObject>, plan: seq<Placement>, n: nat,
                            pieces: seq<Piece>)
  {
    && n <= |plan|
    && (forall i :: 0 <= i < |pieces| ==> pieces[i].owner < n && PieceFits(d, objects, plan, pieces[i]))
    && Pairwise(PiecesApart, pieces)
  }

  lemma AllApart(d: Directory, objects: seq<TensorObject>, plan: seq<Placement>, n: nat, pieces: seq<Piece>)
    requires AllPieces(d, objects, plan, n, pieces) && PlacedApart(plan, n)
    ensures Pairwise(DestinationsApart, RangesOf(plan, pieces))
    ensures Ordered(objects, d.payloadBytes) ==> Pairwise(SourcesApart, RangesOf(plan, pieces))
  {
    hide PieceFits, PiecesApart, DestinationsApart, SourcesApart, Ordered, PlacedApart;
    var ranges := RangesOf(plan, pieces);
    forall i, j | 0 <= i < |pieces| && 0 <= j < |pieces| && i != j
      ensures DestinationsApart(ranges[i], ranges[j])
      ensures Ordered(objects, d.payloadBytes) ==> SourcesApart(ranges[i], ranges[j])
    {
      assert PiecesApart(pieces[i], pieces[j]);
      RangesApart(d, objects, plan, n, pieces[i], pieces[j]);
    }
  }

  /** Sorted ranges that lie apart are in order. */
  lemma SortedApartInOrder(given: seq<CopyRange>)
    requires Pairwise(SourcesApart, given)
    requires forall i :: 0 <= i < |given| ==> given[i].begin < given[i].end
    ensures InOrder(Sort(RangeKey, given))
  {
    hide Sort, Pairwise;
    var ranges := Sort(RangeKey, given);
    SortCorrect(RangeKey, given);
    SortPairwise(RangeKey, SourcesApart, given);
    forall i | 0 <= i < |ranges| ensures ranges[i].begin < ranges[i].end {
      SortElements(RangeKey, given, ranges[i]);
    }
    forall i, j | 0 <= i < j < |ranges|
      ensures ranges[i].file < ranges[j].file || (ranges[i].file == ranges[j].file && ranges[i].end <= ranges[j].begin)
    {
      ApartAt(ranges, i, j);
    }
  }

  lemma ApartAt(ranges: seq<CopyRange>, i: nat, j: nat)
    requires Pairwise(SourcesApart, ranges) && Sorted(RangeKey, ranges) && i < j < |ranges|
    requires ranges[i].begin < ranges[i].end && ranges[j].begin < ranges[j].end
    ensures ranges[i].file < ranges[j].file || (ranges[i].file == ranges[j].file && ranges[i].end <= ranges[j].begin)
  {
    assert SourcesApart(ranges[i], ranges[j]) && Before(RangeKey(ranges[i]), RangeKey(ranges[j]));
  }

  // ----- Collecting the ranges of all placements

  function OwnedBy(owner: nat, ss: seq<ReadSegment>): (ps: seq<Piece>)
    ensures |ps| == |ss| && forall i :: 0 <= i < |ss| ==> ps[i] == Piece(owner, ss[i])
  {
    seq(|ss|, i requires 0 <= i < |ss| => Piece(owner, ss[i]))
  }

  lemma {:induction false} SegmentsApart(d: Directory, offset: nat, ss: seq<ReadSegment>, bytes: nat, i: nat, j: nat)
    requires Tiles(d, offset, ss, bytes) && i < j < |ss|
    ensures ss[i].destinationOffset + ss[i].bytes <= ss[j].destinationOffset
    decreases j - i
  {
    if i < j - 1 { SegmentsApart(d, offset, ss, bytes, i, j - 1); }
  }

  /** The object of the placement is there, with the bytes the plan says. */
  predicate Named(objects: seq<TensorObject>, p: Placement) {
    p.tensor < |objects| && p.bytes == objects[p.tensor].bytes
  }

  /** The segments of the next placement join the pieces of the ones before. */
  lemma PiecesJoin(d: Directory, objects: seq<TensorObject>, plan: seq<Placement>, k: nat, pieces: seq<Piece>,
                   ss: seq<ReadSegment>)
    requires k < |plan| && AllPieces(d, objects, plan, k, pieces) && Named(objects, plan[k])
    requires Tiles(d, objects[plan[k].tensor].offset, ss, plan[k].bytes)
    ensures AllPieces(d, objects, plan, k + 1, pieces + OwnedBy(k, ss))
  {
    hide PieceFits, Tiles, SegmentFits;
    var more := OwnedBy(k, ss);
    var all := pieces + more;
    var offset := objects[plan[k].tensor].offset;
    forall i | 0 <= i < |ss| ensures PieceFits(d, objects, plan, more[i]) {
      TileAt(d, offset, ss, plan[k].bytes, i);
      PieceOf(d, objects, plan, more[i]);
    }
    forall i, j | 0 <= i < |ss| && 0 <= j < |ss| && i != j ensures PiecesApart(more[i], more[j]) {
      if i < j {
        SegmentsApart(d, offset, ss, plan[k].bytes, i, j);
      } else {
        SegmentsApart(d, offset, ss, plan[k].bytes, j, i);
      }
    }
    forall i, j | 0 <= i < |all| && 0 <= j < |all| && i != j ensures PiecesApart(all[i], all[j]) {
      if i < |pieces| && j < |pieces| {
        assert PiecesApart(pieces[i], pieces[j]);
      } else if i >= |pieces| && j >= |pieces| {
        assert PiecesApart(more[i - |pieces|], more[j - |pieces|]);
      }
    }
  }

  lemma PieceOf(d: Directory, objects: seq<TensorObject>, plan: seq<Placement>, p: Piece)
    requires p.owner < |plan| && Named(objects, plan[p.owner])
    requires SegmentFits(d, objects[plan[p.owner].tensor].offset, p.segment)
    requires p.segment.destinationOffset + p.segment.bytes <= plan[p.owner].bytes
    ensures PieceFits(d, objects, plan, p)
  {
  }

  /** The ranges of the segments of one placement, appended. */
  method AppendRanges(d: Directory, objects: seq<TensorObject>, plan: seq<Placement>, k: nat, ss: seq<ReadSegment>,
                      ranges: seq<CopyRange>)
    returns (r: Result<seq<CopyRange>>)
    requires WellFormed(d) && LengthsChecked(d)
    requires k < |plan| && Named(objects, plan[k]) && Tiles(d, objects[plan[k].tensor].offset, ss, plan[k].bytes)
    ensures r == Ok(ranges + RangesOf(plan, OwnedBy(k, ss)))
  {
    hide Tiles, WellFormed, StartOf;
    var out := ranges;
    ghost var more := RangesOf(plan, OwnedBy(k, ss));
    for i := 0 to |ss|
      invariant out == ranges + more[..i]
    {
      var s := ss[i];
      TileAt(d, objects[plan[k].tensor].offset, ss, plan[k].bytes, i);
      assert FileEndsRight(d, s.fileIndex) by { FileEnd(d, s.fileIndex); }
      StartSmall(d, s.fileIndex);
      var end := CheckedAdd(s.fileOffset, s.bytes);
      if end.Err? {
        // The copy range overflow error of the program.
        assert false;
        return Err(ArtifactError);
      }
      out := out + [CopyRange(s.fileIndex, s.fileOffset, end.value, plan[k].offset + s.destinationOffset)];
    }
    assert more[..|ss|] == more;
    r := Ok(out);
  }

  /** The copy ranges of the first k placements, in plan order. */
  function PlanRanges(d: Directory, objects: seq<TensorObject>, plan: seq<Placement>, k: nat): seq<CopyRange>
    requires k <= |plan| && forall i :: 0 <= i < k ==> plan[i].tensor < |objects|
  {
    if k == 0 then [] else
    var p := plan[k - 1];
    PlanRanges(d, objects, plan, k - 1)
      + RangesOf(plan, OwnedBy(k - 1, SegmentsOf(d, objects[p.tensor].offset, p.bytes)))
  }

  /** Every segment of the placement is among the ranges. */
  ghost predicate Covered(d: Directory, objects: seq<TensorObject>, plan: seq<Placement>, ranges: seq<CopyRange>,
                          m: nat, ss: seq<ReadSegment>)
  {
    && m < |plan| && Named(objects, plan[m])
    && Tiles(d, objects[plan[m].tensor].offset, ss, plan[m].bytes)
    && forall i :: 0 <= i < |ss| ==> RangeOf(plan, Piece(m, ss[i])) in ranges
  }

  lemma CoveredMore(d: Directory, objects: seq<TensorObject>, plan: seq<Placement>, a: seq<CopyRange>,
                    b: seq<CopyRange>, m: nat, ss: seq<ReadSegment>)
    requires Covered(d, objects, plan, a, m, ss) && forall x :: x in a ==> x in b
    ensures Covered(d, objects, plan, b, m, ss)
  {
  }

  // ----- What the upload does to a placement

  /** The placement holds its object's payload bytes. */
  ghost predicate Holds(device: seq<byte>, whole: seq<byte>, objects: seq<TensorObject>, p: Placement) {
    && p.tensor < |objects| && objects[p.tensor].offset + p.bytes <= |whole| && p.offset + p.bytes <= |device|
    && device[p.offset..p.offset + p.bytes] == whole[objects[p.tensor].offset..objects[p.tensor].offset + p.bytes]
  }

  /** One landed segment is a slice of the payload. */
  lemma SegmentLanded(d: Directory, contents: seq<seq<byte>>, offset: nat, s: ReadSegment, at: nat, device: seq<byte>)
    requires Sound(d, contents) && SegmentFits(d, offset, s)
    requires Landed(device, contents, CopyRange(s.fileIndex, s.fileOffset, s.fileOffset + s.bytes, at))
    ensures at + s.bytes <= |device| && offset + s.destinationOffset + s.bytes <= |Whole(d, contents)|
    ensures device[at..at + s.bytes]
         == Whole(d, contents)[offset + s.destinationOffset..offset + s.destinationOffset + s.bytes]
  {
    hide Sound, Whole, SegmentFits;
    SliceOfSegment(d, contents, offset, s);
  }

  /** The first n landed segments of a placement are a prefix of the object. */
  lemma {:induction false} SegmentsLanded(d: Directory, contents: seq<seq<byte>>, offset: nat, ss: seq<ReadSegment>,
                                          bytes: nat, at: nat, device: seq<byte>, n: nat)
    requires Sound(d, contents) && Tiles(d, offset, ss, bytes) && n <= |ss|
    requires at + bytes <= |device| && offset + bytes <= |Whole(d, contents)|
    requires forall i :: 0 <= i < |ss| ==>
               Landed(device, contents, CopyRange(ss[i].fileIndex, ss[i].fileOffset, ss[i].fileOffset + ss[i].bytes,
                                                  at + ss[i].destinationOffset))
    ensures var filled := if n < |ss| then ss[n].destinationOffset else bytes;
            filled <= bytes && device[at..at + bytes][..filled] == Whole(d, contents)[offset..offset + filled]
  {
    hide Tiles, Sound, Whole, Landed, SegmentFits;
    TileEnds(d, offset, ss, bytes);
    if n > 0 {
      var s := ss[n - 1];
      SegmentsLanded(d, contents, offset, ss, bytes, at, device, n - 1);
      TileAt(d, offset, ss, bytes, n - 1);
      SegmentLanded(d, contents, offset, s, at + s.destinationOffset, device);
      var copy, whole := device[at..at + bytes], Whole(d, contents);
      SliceOfSlice(device, at, bytes, s.destinationOffset, s.bytes);
      JoinSlices(copy, whole, offset, s.destinationOffset, s.bytes);
    }
  }

  lemma ObjectLanded(d: Directory, contents: seq<seq<byte>>, objects: seq<TensorObject>, plan: seq<Placement>,
                     ranges: seq<CopyRange>, m: nat, ss: seq<ReadSegment>, memory: seq<byte>, device: seq<byte>)
    requires Sound(d, contents) && Covered(d, objects, plan, ranges, m, ss)
    requires objects[plan[m].tensor].End() <= d.payloadBytes && plan[m].End() <= |memory|
    requires Uploaded(memory, device, contents, ranges)
    ensures Holds(device, Whole(d, contents), objects, plan[m])
  {
    hide Tiles, Sound, Whole, Landed;
    WholeLength(d, contents);
    forall i | 0 <= i < |ss|
      ensures Landed(device, contents, CopyRange(ss[i].fileIndex, ss[i].fileOffset, ss[i].fileOffset + ss[i].bytes,
                                                 plan[m].offset + ss[i].destinationOffset))
    {
      var r := RangeOf(plan, Piece(m, ss[i]));
      var k :| 0 <= k < |ranges| && ranges[k] == r;
      assert Landed(device, contents, ranges[k]);
    }
    SegmentsLanded(d, contents, objects[plan[m].tensor].offset, ss, plan[m].bytes, plan[m].offset, device, |ss|);
    var copy := device[plan[m].offset..plan[m].End()];
    assert copy[..plan[m].bytes] == copy;
  }

  // ----- The whole of materialize

  /** off_t: no file is longer. */
  const FILE_MAX: nat := 0x7FFF_FFFF_FFFF_FFFF

  function PlacedBytes(plan: seq<Placement>, n: nat): nat
    requires n <= |plan|
  {
    if n == 0 then 0 else PlacedBytes(plan, n - 1) + plan[n - 1].bytes
  }

  /** The inputs the loader's other parts hand over: then only a short read can fail the upload. */
  ghost predicate Expected(d: Directory, objects: seq<TensorObject>, plan: seq<Placement>, base: nat, capacity: nat,
                           contents: seq<seq<byte>>)
  {
    && Ordered(objects, d.payloadBytes) && PlanFor(objects, plan, capacity) && BaseSuits(base, capacity, plan)
    && (forall i :: 0 <= i < |contents| ==> |contents[i]| <= FILE_MAX)
    && capacity + MERGE_COST * capacity <= SIZE_MAX
  }

  /** The placements taken so far, against their own checks. */
  ghost predicate Taken(objects: seq<TensorObject>, plan: seq<Placement>, k: nat, used: nat, capacity: nat,
                        done: set<nat>)
  {
    && k <= |plan| && PlacedApart(plan, k)
    && (forall i :: 0 <= i < k ==> Named(objects, plan[i]) && plan[i].tensor in done && plan[i].End() <= used)
    && (forall n :: n in done ==> exists i :: 0 <= i < k && plan[i].tensor == n)
    && used <= capacity && used == EndOf(plan, k)
  }

  lemma TakenStep(objects: seq<TensorObject>, plan: seq<Placement>, k: nat, used: nat, capacity: nat, done: set<nat>)
    requires Taken(objects, plan, k, used, capacity, done) && k < |plan|
    requires Named(objects, plan[k]) && plan[k].tensor !in done && used <= plan[k].offset && plan[k].End() <= capacity
    ensures Taken(objects, plan, k + 1, plan[k].End(), capacity, done + {plan[k].tensor})
  {
    hide PlacedApart, Named;
    PlacedStep(plan, k);
    forall n | n in done + {plan[k].tensor} ensures exists i :: 0 <= i < k + 1 && plan[i].tensor == n {
      if n in done {
        var i :| 0 <= i < k && plan[i].tensor == n;
      } else {
        assert plan[k].tensor == n;
      }
    }
  }

  lemma PlacedStep(plan: seq<Placement>, k: nat)
    requires PlacedApart(plan, k) && k < |plan|
    requires forall i :: 0 <= i < k ==> plan[i].tensor != plan[k].tensor && plan[i].End() <= plan[k].offset
    ensures PlacedApart(plan, k + 1)
  {
  }

  /** On expected inputs the checks of the placement loop pass. */
  lemma ExpectedPlacement(d: Directory, objects: seq<TensorObject>, plan: seq<Placement>, base: nat, capacity: nat,
                          contents: seq<seq<byte>>, k: nat, used: nat, done: set<nat>)
    requires Expected(d, objects, plan, base, capacity, contents) && Taken(objects, plan, k, used, capacity, done)
    requires k < |plan|
    ensures Named(objects, plan[k]) && plan[k].tensor !in done && capacity > 0
    ensures ArenaAlloc(base, used, capacity, plan[k].bytes, plan[k].alignment) == Ok(plan[k].offset)
    ensures objects[plan[k].tensor].End() <= d.payloadBytes
  {
    assert PlacedNext(objects, plan, k);
    forall i | 0 <= i < k ensures plan[i].tensor < plan[k].tensor { PlanOrdered(objects, plan, capacity, i, k); }
    ArenaFollowsPlan(objects, plan, capacity, base, k, d.payloadBytes);
    PlanEndsInside(objects, plan, capacity, k);
  }

  /** PlacedBytes as checked sums. */
  method SumPlaced(plan: seq<Placement>) returns (r: Result<nat>)
    ensures r == if PlacedBytes(plan, |plan|) <= SIZE_MAX then Ok(PlacedBytes(plan, |plan|)) else Err(ArtifactError)
  {
    var total: nat := 0;
    for i := 0 to |plan|
      invariant total == PlacedBytes(plan, i) <= SIZE_MAX
    {
      PlacedBytesGrow(plan, i + 1, |plan|);
      if CheckedAdd(total, plan[i].bytes).Err? { return Err(ArtifactError); }
      total := total + plan[i].bytes;
    }
    r := Ok(total);
  }

  lemma {:induction false} PlacedBytesGrow(plan: seq<Placement>, i: nat, j: nat)
    requires i <= j <= |plan|
    ensures PlacedBytes(plan, i) <= PlacedBytes(plan, j)
  {
    if i < j { PlacedBytesGrow(plan, i, j - 1); }
  }

  lemma {:induction false} PlacedWithin(plan: seq<Placement>, k: nat)
    requires k <= |plan| && forall i :: 0 <= i < k ==> EndOf(plan, i) <= plan[i].offset
    ensures PlacedBytes(plan, k) <= EndOf(plan, k)
  {
    if k > 0 { PlacedWithin(plan, k - 1); }
  }

  lemma {:induction false} TotalPrefix(a: seq<CopyRange>, b: seq<CopyRange>, n: nat)
    requires n <= |a|
    ensures TotalBytes(a + b, n) == TotalBytes(a, n)
  {
    if n > 0 { TotalPrefix(a, b, n - 1); }
  }

  /** The segments of a placement weigh what the placement does. */
  lemma {:induction false} TotalOfSegments(d: Directory, plan: seq<Placement>, k: nat, offset: nat,
                                           ss: seq<ReadSegment>, ranges: seq<CopyRange>, n: nat)
    requires k < |plan| && Tiles(d, offset, ss, plan[k].bytes) && n <= |ss|
    ensures TotalBytes(ranges + RangesOf(plan, OwnedBy(k, ss)), |ranges| + n)
         == TotalBytes(ranges, |ranges|) + if n < |ss| then ss[n].destinationOffset else plan[k].bytes
  {
    hide Tiles, SegmentFits;
    TileEnds(d, offset, ss, plan[k].bytes);
    if n == 0 {
      TotalPrefix(ranges, RangesOf(plan, OwnedBy(k, ss)), |ranges|);
    } else {
      TotalOfSegments(d, plan, k, offset, ss, ranges, n - 1);
      TileAt(d, offset, ss, plan[k].bytes, n - 1);
    }
  }

  lemma {:induction false} CountWithinTotal(ranges: seq<CopyRange>, n: nat)
    requires n <= |ranges| && forall i :: 0 <= i < |ranges| ==> ranges[i].begin < ranges[i].end
    ensures n <= TotalBytes(ranges, n)
  {
    if n > 0 { CountWithinTotal(ranges, n - 1); }
  }

  /** The ranges of pieces are what the upload takes. */
  lemma PiecesFit(d: Directory, contents: seq<seq<byte>>, objects: seq<TensorObject>, plan: seq<Placement>, n: nat,
                  pieces: seq<Piece>, memory: nat)
    requires Sound(d, contents) && AllPieces(d, objects, plan, n, pieces)
    requires forall i :: 0 <= i < n ==> plan[i].End() <= memory
    ensures var ranges := RangesOf(plan, pieces);
            forall i :: 0 <= i < |ranges| ==>
              Fit(ranges[i], |contents|, memory) && Present(contents, ranges[i], ranges[i].end)
  {
    hide Sound, SegmentFits, Whole;
    var ranges := RangesOf(plan, pieces);
    forall i | 0 <= i < |ranges|
      ensures Fit(ranges[i], |contents|, memory) && Present(contents, ranges[i], ranges[i].end)
    {
      PieceInFile(d, contents, objects, plan, pieces[i]);
    }
  }

  lemma PieceInFile(d: Directory, contents: seq<seq<byte>>, objects: seq<TensorObject>, plan: seq<Placement>, p: Piece)
    requires Sound(d, contents) && PieceFits(d, objects, plan, p)
    ensures var r := RangeOf(plan, p); r.begin < r.end && Present(contents, r, r.end)
    ensures RangeOf(plan, p).destination + RangeOf(plan, p).Bytes() <= plan[p.owner].End()
  {
  }

  /** On expected inputs the only error left is a read cut short. */
  lemma OnlyShortReads(d: Directory, contents: seq<seq<byte>>, objects: seq<TensorObject>, plan: seq<Placement>,
                       base: nat, capacity: nat, pieces: seq<Piece>, total: nat)
    requires Sound(d, contents) && Expected(d, objects, plan, base, capacity, contents)
    requires AllPieces(d, objects, plan, |plan|, pieces) && PlacedApart(plan, |plan|)
    requires total == PlacedBytes(plan, |plan|) == TotalBytes(RangesOf(plan, pieces), |pieces|)
    ensures var ranges := RangesOf(plan, pieces);
            && InOrder(Sort(RangeKey, ranges))
            && (forall i :: 0 <= i < |ranges| ==> CheckedAlign(ranges[i].end).Ok?)
            && total + MERGE_COST * |ranges| <= SIZE_MAX
  {
    hide Sound, Sort, InOrder, Pairwise, PieceFits, PlacedApart, TotalBytes, PlacedBytes, BaseSuits;
    var ranges := RangesOf(plan, pieces);
    forall i | 0 <= i < |plan| ensures plan[i].End() <= capacity && EndOf(plan, i) <= plan[i].offset {
      assert PlacedNext(objects, plan, i);
      AlignUpIsLeast(EndOf(plan, i), plan[i].alignment);
      PlanEndsInside(objects, plan, capacity, i);
    }
    PiecesFit(d, contents, objects, plan, |plan|, pieces, capacity);
    AllApart(d, objects, plan, |plan|, pieces);
    SortedApartInOrder(ranges);
    CountWithinTotal(ranges, |ranges|);
    PlacedWithin(plan, |plan|);
    MulMonotone(|ranges|, capacity, MERGE_COST);
  }

  lemma ExpectedTotal(d: Directory, objects: seq<TensorObject>, plan: seq<Placement>, base: nat, capacity: nat,
                      contents: seq<seq<byte>>)
    ensures Expected(d, objects, plan, base, capacity, contents) ==> PlacedBytes(plan, |plan|) <= SIZE_MAX
  {
    if Expected(d, objects, plan, base, capacity, contents) {
      forall i | 0 <= i < |plan| ensures EndOf(plan, i) <= plan[i].offset {
        assert PlacedNext(objects, plan, i);
        AlignUpIsLeast(EndOf(plan, i), plan[i].alignment);
      }
      PlacedWithin(plan, |plan|);
    }
  }

  lemma StartPlacing(d: Directory, objects: seq<TensorObject>, plan: seq<Placement>, capacity: nat)
    ensures Taken(objects, plan, 0, 0, capacity, {}) && AllPieces(d, objects, plan, 0, [])
    ensures RangesOf(plan, []) == [] && TotalBytes([], 0) == 0 == PlacedBytes(plan, 0)
    ensures PlanRanges(d, objects, plan, 0) == []
  {
  }

  lemma ArenaInside(base: nat, used: nat, capacity: nat, bytes: nat, alignment: nat)
    requires ArenaAlloc(base, used, capacity, bytes, alignment).Ok?
    ensures var offset := ArenaAlloc(base, used, capacity, bytes, alignment).value;
            used <= offset && offset + bytes <= capacity
  {
    ArenaOffset(base, used, capacity, bytes, alignment);
  }

  lemma AllTaken(objects: seq<TensorObject>, plan: seq<Placement>, used: nat, capacity: nat, done: set<nat>)
    requires Taken(objects, plan, |plan|, used, capacity, done)
    ensures PlacedApart(plan, |plan|) && forall i :: 0 <= i < |plan| ==> plan[i].End() <= capacity
  {
  }

  /** The ranges of one more placement, and what they weigh. */
  lemma RangesJoin(d: Directory, plan: seq<Placement>, k: nat, offset: nat, ss: seq<ReadSegment>,
                   ranges: seq<CopyRange>, pieces: seq<Piece>)
    requires k < |plan| && Tiles(d, offset, ss, plan[k].bytes)
    requires (forall i :: 0 <= i < |pieces| ==> pieces[i].owner < |plan|) && ranges == RangesOf(plan, pieces)
    ensures RangesOf(plan, pieces + OwnedBy(k, ss)) == ranges + RangesOf(plan, OwnedBy(k, ss))
    ensures TotalBytes(ranges + RangesOf(plan, OwnedBy(k, ss)), |ranges| + |ss|) == TotalBytes(ranges, |ranges|)
            + plan[k].bytes
    ensures PlacedBytes(plan, k + 1) == PlacedBytes(plan, k) + plan[k].bytes
  {
    hide Tiles, TotalBytes;
    TotalOfSegments(d, plan, k, offset, ss, ranges, |ss|);
  }

  lemma CoveredJoin(d: Directory, objects: seq<TensorObject>, plan: seq<Placement>, k: nat, ss: seq<ReadSegment>,
                    ranges: seq<CopyRange>, lists: seq<seq<ReadSegment>>)
    requires k == |lists| < |plan| && Named(objects, plan[k])
    requires Tiles(d, objects[plan[k].tensor].offset, ss, plan[k].bytes)
    requires forall m :: 0 <= m < k ==> Covered(d, objects, plan, ranges, m, lists[m])
    ensures var more := ranges + RangesOf(plan, OwnedBy(k, ss));
            forall m :: 0 <= m < k + 1 ==> Covered(d, objects, plan, more, m, (lists + [ss])[m])
  {
    var more := ranges + RangesOf(plan, OwnedBy(k, ss));
    forall m | 0 <= m < k + 1 ensures Covered(d, objects, plan, more, m, (lists + [ss])[m]) {
      if m < k {
        CoveredMore(d, objects, plan, ranges, more, m, lists[m]);
      } else {
        forall i | 0 <= i < |ss| ensures RangeOf(plan, Piece(k, ss[i])) in more {
          assert more[|ranges| + i] == RangeOf(plan, Piece(k, ss[i]));
        }
      }
    }
  }

  lemma OutsideUntouched(d: Directory, contents: seq<seq<byte>>, objects: seq<TensorObject>, plan: seq<Placement>,
                         pieces: seq<Piece>, memory: seq<byte>, device: seq<byte>)
    requires Sound(d, contents) && AllPieces(d, objects, plan, |plan|, pieces)
    requires Uploaded(memory, device, contents, RangesOf(plan, pieces))
    ensures |device| == |memory|
    ensures forall y :: 0 <= y < |memory| && (forall k :: 0 <= k < |plan| ==> !(plan[k].offset <= y < plan[k].End()))
              ==> device[y] == memory[y]
  {
    hide Sound, PieceFits, Pairwise, Landed;
    var ranges := RangesOf(plan, pieces);
    forall y | 0 <= y < |memory| && (forall k :: 0 <= k < |plan| ==> !(plan[k].offset <= y < plan[k].End()))
      ensures device[y] == memory[y]
    {
      forall i | 0 <= i < |ranges| ensures !Inside(ranges[i], y) {
        PieceInFile(d, contents, objects, plan, pieces[i]);
        assert !(plan[pieces[i].owner].offset <= y < plan[pieces[i].owner].End());
      }
    }
  }

  lemma PlanRangesStep(d: Directory, objects: seq<TensorObject>, plan: seq<Placement>, k: nat)
    requires k < |plan| && forall i :: 0 <= i < k + 1 ==> plan[i].tensor < |objects|
    ensures PlanRanges(d, objects, plan, k + 1)
         == PlanRanges(d, objects, plan, k)
            + RangesOf(plan, OwnedBy(k, SegmentsOf(d, objects[plan[k].tensor].offset, plan[k].bytes)))
  {
  }

  lemma FilesPresent(contents: seq<seq<byte>>, ranges: seq<CopyRange>)
    requires forall i :: 0 <= i < |ranges| ==> Present(contents, ranges[i], ranges[i].end)
    ensures AllPresent(contents, ranges)
  {
  }

  /** Places every object of the plan in the arena, uploads them all, and leaves every other byte of the
      arena alone. */
  method Materialize(d: Directory, contents: seq<seq<byte>>, objects: seq<TensorObject>, plan: seq<Placement>,
                     base: nat, memory: seq<byte>, schedule: nat -> nat, limits: nat -> nat, noise: nat -> byte)
    returns (r: Result<seq<byte>>)
    requires Sound(d, contents) && LengthsChecked(d)
    ensures r.Ok? ==> |r.value| == |memory| && PlacedApart(plan, |plan|)
    ensures r.Ok? ==> forall k :: 0 <= k < |plan| ==> Holds(r.value, Whole(d, contents), objects, plan[k])
    ensures r.Ok? ==>
              forall y :: 0 <= y < |memory| && (forall k :: 0 <= k < |plan| ==> !(plan[k].offset <= y < plan[k].End()))
                ==> r.value[y] == memory[y]
    ensures r.Ok? ==> (forall k :: 0 <= k < |plan| ==> plan[k].tensor < |objects|)
                      && AllSuffice(contents, ReadPlan(PlanRanges(d, objects, plan, |plan|)), limits, 0)
    ensures Expected(d, objects, plan, base, |memory|, contents) && r.Err? ==>
              && (forall k :: 0 <= k < |plan| ==> plan[k].tensor < |objects|)
              && SomeShort(contents, ReadPlan(PlanRanges(d, objects, plan, |plan|)), limits, 0, true)
  {
    hide PlanRanges, ReadPlan, AllSuffice, SomeShort, SegmentsOf, Sound, WellFormed, Tiles, Whole, Expected, Taken,
      AllPieces, TotalBytes, PlacedBytes, Uploaded, Pairwise, Sort, InOrder, ArenaAlloc, RangesOf;
    SoundWellFormed(d, contents);
    ghost var capacity := |memory|;
    ExpectedTotal(d, objects, plan, base, capacity, contents);
    var total := SumPlaced(plan);
    if total.Err? { return Err(ArtifactError); }
    var ranges: seq<CopyRange> := [];
    ghost var pieces: seq<Piece> := [];
    ghost var lists: seq<seq<ReadSegment>> := [];
    var used: nat := 0;
    var done: set<nat> := {};
    StartPlacing(d, objects, plan, capacity);
    for k := 0 to |plan|
      invariant Taken(objects, plan, k, used, capacity, done) && AllPieces(d, objects, plan, k, pieces)
      invariant (forall i :: 0 <= i < |pieces| ==> pieces[i].owner < |plan|) && ranges == RangesOf(plan, pieces)
      invariant TotalBytes(ranges, |ranges|) == PlacedBytes(plan, k)
      invariant |lists| == k && forall m :: 0 <= m < k ==> Covered(d, objects, plan, ranges, m, lists[m])
      invariant forall m :: 0 <= m < k ==> Named(objects, plan[m]) && objects[plan[m].tensor].End() <= d.payloadBytes
      invariant ranges == PlanRanges(d, objects, plan, k)
    {
      if Expected(d, objects, plan, base, capacity, contents) {
        ExpectedPlacement(d, objects, plan, base, capacity, contents, k, used, done);
      }
      var p := plan[k];
      if p.tensor >= |objects| { return Err(OutOfRange); }
      if p.tensor in done || |memory| == 0 || objects[p.tensor].bytes != p.bytes { return Err(ArtifactError); }
      var storage := ArenaAlloc(base, used, |memory|, p.bytes, p.alignment);
      if storage.Err? { return Err(storage.error); }
      if storage.value != p.offset { return Err(ArtifactError); }
      ArenaInside(base, used, |memory|, p.bytes, p.alignment);
      TakenStep(objects, plan, k, used, capacity, done);
      used, done := p.End(), done + {p.tensor};
      var segments := Segments(d, objects[p.tensor].offset, objects[p.tensor].bytes);
      if segments.Err? { return Err(segments.error); }
      var ss := segments.value;
      var appended := AppendRanges(d, objects, plan, k, ss, ranges);
      ghost var more := OwnedBy(k, ss);
      PiecesJoin(d, objects, plan, k, pieces, ss);
      RangesJoin(d, plan, k, objects[p.tensor].offset, ss, ranges, pieces);
      CoveredJoin(d, objects, plan, k, ss, ranges, lists);
      PlanRangesStep(d, objects, plan, k);
      ranges, pieces, lists := appended.value, pieces + more, lists + [ss];
    }
    AllTaken(objects, plan, used, capacity, done);
    PiecesFit(d, contents, objects, plan, |plan|, pieces, capacity);
    FilesPresent(contents, ranges);
    AllApart(d, objects, plan, |plan|, pieces);
    if Expected(d, objects, plan, base, capacity, contents) {
      OnlyShortReads(d, contents, objects, plan, base, capacity, pieces, total.value);
    }
    r := UploadRanges(ranges, contents, memory, total.value, schedule, limits, noise);
    if r.Ok? {
      forall k | 0 <= k < |plan| ensures Holds(r.value, Whole(d, contents), objects, plan[k]) {
        ObjectLanded(d, contents, objects, plan, ranges, k, lists[k], memory, r.value);
      }
      OutsideUntouched(d, contents, objects, plan, pieces, memory, r.value);
    }
  }
}
