/** Encoded weights: where the planes of a parent lie, and where each scale word lies in its plane. */
module WeightGeometry {
  import opened Common

  datatype QType =
    | Q4_G64_FP16 | Q5_G64_FP16 | Q6_G64_FP16 | Q8_G32_FP16
    | BF16 | FP32 | INT32 | NVFP4 | FP8_E4M3FN_ROW_BF16

  datatype QuantLayout = RowSplit | Contiguous | BlockScaleK16M128x4 | RowScale

  datatype Geometry = Geometry(
    format: QType, layout: QuantLayout, shape: seq<nat>, elements: nat, bytes: nat, paddedColumns: nat, groupSize: nat,
    codeBytesPerRow: nat, highBytesPerRow: nat, scaleBytesPerRow: nat, codeBytes: nat, highOffset: nat, highBytes: nat,
    scaleOffset: nat, scaleBytes: nat, divisorOffset: nat)

  const WEIGHT_ALIGNMENT: nat := 256
  const COLUMN_ALIGNMENT: nat := 128

  function Aligned(n: nat, alignment: nat): Result<nat>
    requires alignment > 0
  {
    if n + alignment - 1 > SIZE_MAX then Err(OverflowError) else Ok(AlignUp(n, alignment))
  }

  // ----- Element counts

  function Product(shape: seq<nat>, n: nat): nat
    requires n <= |shape|
  {
    if n == 0 then 1 else Product(shape, n - 1) * shape[n - 1]
  }

  /** The first n dimensions, with the checks in their order. */
  function CountTo(shape: seq<nat>, n: nat): Result<nat>
    requires n <= |shape|
  {
    if n == 0 then Ok(1) else
    var before :- CountTo(shape, n - 1);
    if shape[n - 1] == 0 then Err(InvalidArgument) else CheckedMul(before, shape[n - 1])
  }

  function ElementCount(shape: seq<nat>): Result<nat> {
    if |shape| > 16 then Err(InvalidArgument) else CountTo(shape, |shape|)
  }

  lemma {:induction false} CountToCorrect(shape: seq<nat>, n: nat)
    requires n <= |shape|
    ensures CountTo(shape, n).Ok? <==> (forall i :: 0 <= i < n ==> shape[i] > 0) && Product(shape, n) <= SIZE_MAX
    ensures CountTo(shape, n).Ok? ==> CountTo(shape, n).value == Product(shape, n) > 0
  {
    if n > 0 {
      CountToCorrect(shape, n - 1);
      if forall i :: 0 <= i < n ==> shape[i] > 0 {
        MulMonotone(1, shape[n - 1], Product(shape, n - 1));
        assert Product(shape, n) == shape[n - 1] * Product(shape, n - 1);
        if CountTo(shape, n - 1).Ok? { MulAtLeast(Product(shape, n - 1), shape[n - 1]); }
      }
    }
  }

  lemma {:induction false} CountFailureSticks(shape: seq<nat>, n: nat, m: nat)
    requires n <= m <= |shape| && CountTo(shape, n).Err?
    ensures CountTo(shape, m) == CountTo(shape, n)
  {
    if n < m { CountFailureSticks(shape, n, m - 1); }
  }

  /** weight_element_count: the product, when every dimension is positive and it fits. */
  method WeightElementCount(shape: seq<nat>) returns (r: Result<nat>)
    ensures r == ElementCount(shape)
    ensures r.Ok? <==>
              |shape| <= 16 && (forall i :: 0 <= i < |shape| ==> shape[i] > 0) && Product(shape, |shape|) <= SIZE_MAX
    ensures r.Ok? ==> r.value == Product(shape, |shape|) > 0
  {
    CountToCorrect(shape, |shape|);
    if |shape| > 16 { return Err(InvalidArgument); }
    var count: nat := 1;
    for i := 0 to |shape|
      invariant CountTo(shape, i) == Ok(count)
    {
      var next := if shape[i] == 0 then Err(InvalidArgument) else CheckedMul(count, shape[i]);
      if next.Err? {
        CountFailureSticks(shape, i + 1, |shape|);
        return Err(next.error);
      }
      count := next.value;
    }
    r := Ok(count);
  }

  // ----- Geometry

  function WordBytes(format: QType): Result<nat> {
    match format
    case BF16 => Ok(2)
    case FP32 => Ok(4)
    case INT32 => Ok(4)
    case _ => Err(InvalidArgument)
  }

  /** Group size and high-plane bytes of a group, for the grouped integer formats. */
  function GroupOf(format: QType): Result<(nat, nat)> {
    match format
    case Q4_G64_FP16 => Ok((64, 0))
    case Q5_G64_FP16 => Ok((64, 8))
    case Q6_G64_FP16 => Ok((64, 16))
    case Q8_G32_FP16 => Ok((32, 0))
    case _ => Err(InvalidArgument)
  }

  function Empty(format: QType, layout: QuantLayout, shape: seq<nat>, elements: nat): Geometry {
    Geometry(format, layout, shape, elements, 0, 0, 0, 0, 0, 0, 0, 0, 0, 0, 0, 0)
  }

  function ContiguousGeometry(out: Geometry): Result<Geometry> {
    var word :- WordBytes(out.format);
    var bytes :- CheckedMul(out.elements, word);
    if |out.shape| == 2 then
      var row :- CheckedMul(out.shape[1], word);
      Ok(out.(bytes := bytes, codeBytes := bytes, paddedColumns := out.shape[1], codeBytesPerRow := row))
    else
      Ok(out.(bytes := bytes, codeBytes := bytes))
  }

  function RowSplitGeometry(out: Geometry): Result<Geometry>
    requires |out.shape| == 2
  {
    var group :- GroupOf(out.format);
    var padded :- Aligned(out.shape[1], COLUMN_ALIGNMENT);
    var groups := padded / group.0;
    var codeRow :- CheckedMul(groups, 32);
    var highRow :- CheckedMul(groups, group.1);
    var scaleRow :- CheckedMul(groups, 2);
    var code :- CheckedMul(out.shape[0], codeRow);
    var highOffset :- Aligned(code, WEIGHT_ALIGNMENT);
    var high :- CheckedMul(out.shape[0], highRow);
    var highEnd :- Aligned(high, WEIGHT_ALIGNMENT);
    var scaleOffset :- CheckedAdd(highOffset, highEnd);
    Ok(out.(groupSize := group.0, paddedColumns := padded, codeBytesPerRow := codeRow, highBytesPerRow := highRow,
            scaleBytesPerRow := scaleRow, codeBytes := code, highOffset := highOffset, highBytes := high,
            scaleOffset := scaleOffset))
  }

  function RowScaleGeometry(out: Geometry): Result<Geometry>
    requires |out.shape| == 2
  {
    if out.format != FP8_E4M3FN_ROW_BF16 then Err(InvalidArgument) else
    var scaleOffset :- Aligned(out.elements, WEIGHT_ALIGNMENT);
    Ok(out.(groupSize := out.shape[1], codeBytesPerRow := out.shape[1], scaleBytesPerRow := 2,
            codeBytes := out.elements, scaleOffset := scaleOffset))
  }

  function BlockScaleGeometry(out: Geometry): Result<Geometry>
    requires |out.shape| == 2
  {
    if out.format != NVFP4 || out.shape[0] % 128 != 0 || out.shape[1] % 64 != 0 then Err(InvalidArgument) else
    var scaleOffset :- Aligned(out.elements / 2, WEIGHT_ALIGNMENT);
    Ok(out.(groupSize := 16, codeBytesPerRow := out.shape[1] / 2, scaleBytesPerRow := out.shape[1] / 16,
            codeBytes := out.elements / 2, scaleOffset := scaleOffset))
  }

  /** weight_geometry. */
  function GeometryOf(format: QType, layout: QuantLayout, shape: seq<nat>): Result<Geometry> {
    var elements :- ElementCount(shape);
    var out := Empty(format, layout, shape, elements);
    if layout == Contiguous then ContiguousGeometry(out)
    else if |shape| != 2 then Err(InvalidArgument)
    else
      var start := out.(paddedColumns := shape[1]);
      var planes :- if layout == RowSplit then RowSplitGeometry(start)
                    else if layout == RowScale then RowScaleGeometry(start)
                    else BlockScaleGeometry(start);
      var scaleBytes :- CheckedMul(shape[0], planes.scaleBytesPerRow);
      var bytes :- CheckedAdd(planes.scaleOffset, scaleBytes);
      var done := planes.(scaleBytes := scaleBytes, bytes := bytes);
      if format == NVFP4 then
        var all :- CheckedAdd(bytes, 4);
        Ok(done.(divisorOffset := bytes, bytes := all))
      else Ok(done)
  }

  /** Code, high, scale and divisor planes lie one behind the other inside the parent's bytes. */
  ghost predicate PlanesInOrder(g: Geometry) {
    && g.bytes <= SIZE_MAX
    && (g.layout == Contiguous ==> g.codeBytes == g.bytes && g.highBytes == g.scaleBytes == 0)
    && (g.layout != Contiguous ==>
          && (g.highBytes > 0 ==> g.codeBytes <= g.highOffset && g.highOffset + g.highBytes <= g.scaleOffset
                                  && g.highOffset % WEIGHT_ALIGNMENT == 0)
          && g.codeBytes <= g.scaleOffset && g.scaleOffset % WEIGHT_ALIGNMENT == 0
          && g.scaleOffset + g.scaleBytes + (if g.format == NVFP4 then 4 else 0) == g.bytes
          && (g.format == NVFP4 ==> g.divisorOffset == g.scaleOffset + g.scaleBytes))
  }

  lemma RowSplitPlanes(out: Geometry)
    requires |out.shape| == 2 && RowSplitGeometry(out).Ok?
    ensures var g := RowSplitGeometry(out).value;
            && g.codeBytes <= g.highOffset && g.highOffset + g.highBytes <= g.scaleOffset
            && g.highOffset % WEIGHT_ALIGNMENT == 0 && g.scaleOffset % WEIGHT_ALIGNMENT == 0
  {
    var g := RowSplitGeometry(out).value;
    AlignUpIsLeast(g.codeBytes, WEIGHT_ALIGNMENT);
    AlignUpIsLeast(g.highBytes, WEIGHT_ALIGNMENT);
    AlignedSum(AlignUp(g.codeBytes, WEIGHT_ALIGNMENT), AlignUp(g.highBytes, WEIGHT_ALIGNMENT), WEIGHT_ALIGNMENT);
  }

  /** Every accepted geometry has its planes in order. */
  lemma GeometryPlanes(format: QType, layout: QuantLayout, shape: seq<nat>)
    requires GeometryOf(format, layout, shape).Ok?
    ensures PlanesInOrder(GeometryOf(format, layout, shape).value)
  {
    var elements := ElementCount(shape).value;
    if layout != Contiguous {
      var start := Empty(format, layout, shape, elements).(paddedColumns := shape[1]);
      if layout == RowSplit { RowSplitPlanes(start); }
      AlignUpIsLeast(elements, WEIGHT_ALIGNMENT);
      AlignUpIsLeast(elements / 2, WEIGHT_ALIGNMENT);
    }
  }

  // ----- Scale words

  function Groups(g: Geometry): nat
    requires g.groupSize > 0
  {
    g.paddedColumns / g.groupSize
  }

  /** Bytes of one scale word. */
  function ScaleWord(g: Geometry): nat { if g.layout == BlockScaleK16M128x4 then 1 else 2 }

  /** The word of a row and a group when 128 rows by 4 groups form one 512-byte tile. */
  function Swizzled(blocks: nat, row: nat, group: nat): nat {
    (row / 128 * blocks + group / 4) * 512 + row % 128 % 32 * 16 + row % 128 / 32 * 4 + group % 4
  }

  /** weight_scale_offset. */
  function ScaleOffset(g: Geometry, row: nat, group: nat): Result<nat> {
    if |g.shape| != 2 || g.groupSize == 0 || row >= g.shape[0] || group >= Groups(g) then Err(InvalidArgument)
    else if g.layout == BlockScaleK16M128x4 then
      Ok(g.scaleOffset + Swizzled(g.shape[1] / 64, row, group))
    else
      Ok(g.scaleOffset + row * g.scaleBytesPerRow + group * 2)
  }

  /** What an accepted geometry with scales says about its scale plane. */
  ghost predicate ScalesSized(g: Geometry) {
    && |g.shape| == 2 && g.groupSize > 0 && g.shape[0] > 0 && g.shape[1] > 0
    && g.scaleBytesPerRow == Groups(g) * ScaleWord(g)
    && g.scaleBytes == g.shape[0] * g.scaleBytesPerRow
    && (g.layout == BlockScaleK16M128x4 ==>
          g.shape[0] % 128 == 0 && g.shape[1] % 64 == 0 && Groups(g) == 4 * (g.shape[1] / 64))
  }

  lemma ScalesOf(format: QType, layout: QuantLayout, shape: seq<nat>)
    requires GeometryOf(format, layout, shape).Ok? && layout != Contiguous
    ensures ScalesSized(GeometryOf(format, layout, shape).value)
  {
    CountToCorrect(shape, 2);
    var g := GeometryOf(format, layout, shape).value;
    assert shape[0] > 0 && shape[1] > 0;
    if layout == RowScale { MultipleDiv(1, shape[1], 0); }
  }

  /** The scale word a (row, group) pair addresses. */
  function WordIndex(g: Geometry, row: nat, group: nat): nat
    requires g.groupSize > 0 && |g.shape| == 2
  {
    if g.layout == BlockScaleK16M128x4 then
      Swizzled(g.shape[1] / 64, row, group)
    else
      row * Groups(g) + group
  }

  lemma OffsetOfWord(g: Geometry, row: nat, group: nat)
    requires ScalesSized(g)
    ensures ScaleOffset(g, row, group).Ok? <==> row < g.shape[0] && group < Groups(g)
    ensures ScaleOffset(g, row, group).Ok? ==>
              ScaleOffset(g, row, group).value == g.scaleOffset + WordIndex(g, row, group) * ScaleWord(g)
  {
    hide Groups;
    if g.layout != BlockScaleK16M128x4 {
      assert row * (Groups(g) * 2) == row * Groups(g) * 2;
    }
  }

  lemma TileWord(tile: nat, b: nat, c: nat, e: nat)
    requires b < 4 && c < 32 && e < 4
    ensures var w := tile * 512 + c * 16 + b * 4 + e;
            w / 512 == tile && w % 512 / 16 == c && w % 16 / 4 == b && w % 4 == e
  {
    var low := b * 4 + e;
    MultipleDiv(tile, 512, c * 16 + low);
    MultipleDiv(c, 16, low);
    MultipleDiv(b, 4, e);
    MultipleDiv(tile * 32 + c, 16, low);
    MultipleDiv((tile * 32 + c) * 4 + b, 4, e);
  }

  /** The 128x4 tile of a row and a group, and the place inside the tile, from the word index. */
  lemma SwizzleParts(blocks: nat, a: nat, b: nat, c: nat, d: nat, e: nat)
    requires b < 4 && c < 32 && d < blocks && e < 4
    ensures var w := (a * blocks + d) * 512 + c * 16 + b * 4 + e;
            && w / 512 == a * blocks + d && w / 512 / blocks == a && w / 512 % blocks == d
            && w % 512 / 16 == c && w % 16 / 4 == b && w % 4 == e
  {
    TileWord(a * blocks + d, b, c, e);
    MultipleDiv(a, blocks, d);
  }

  lemma RowParts(row: nat)
    ensures row == row / 128 * 128 + row % 128 / 32 * 32 + row % 128 % 32
    ensures row % 128 / 32 < 4 && row % 128 % 32 < 32
  {
  }

  /** Swizzled words stay inside the plane. */
  lemma SwizzleInside(blocks: nat, tiles: nat, a: nat, b: nat, c: nat, d: nat, e: nat)
    requires a < tiles && b < 4 && c < 32 && d < blocks && e < 4
    ensures (a * blocks + d) * 512 + c * 16 + b * 4 + e < tiles * 128 * (4 * blocks)
  {
    MulMonotone(a + 1, tiles, blocks);
    assert tiles * 128 * (4 * blocks) == tiles * blocks * 512;
  }

  /** Every (row, group) addresses a word of the plane. */
  lemma WordInside(g: Geometry, row: nat, group: nat)
    requires ScalesSized(g) && row < g.shape[0] && group < Groups(g)
    ensures WordIndex(g, row, group) < g.shape[0] * Groups(g)
  {
    hide Groups;
    if g.layout == BlockScaleK16M128x4 {
      RowParts(row);
      assert g.shape[0] == g.shape[0] / 128 * 128;
      SwizzleInside(g.shape[1] / 64, g.shape[0] / 128, row / 128, row % 128 / 32, row % 128 % 32, group / 4, group % 4);
    } else {
      MulMonotone(row + 1, g.shape[0], Groups(g));
    }
  }

  /** Row and group, read off their word. */
  lemma SwizzledParts(blocks: nat, row: nat, group: nat)
    requires group < 4 * blocks
    ensures var w := Swizzled(blocks, row, group);
            && w / 512 / blocks == row / 128 && w / 512 % blocks == group / 4
            && w % 512 / 16 == row % 128 % 32 && w % 16 / 4 == row % 128 / 32 && w % 4 == group % 4
  {
    SwizzleParts(blocks, row / 128, row % 128 / 32, row % 128 % 32, group / 4, group % 4);
  }

  lemma SwizzleInjective(blocks: nat, row: nat, group: nat, row': nat, group': nat)
    requires group < 4 * blocks && group' < 4 * blocks && Swizzled(blocks, row, group) == Swizzled(blocks, row', group')
    ensures row == row' && group == group'
  {
    hide Swizzled;
    SwizzledParts(blocks, row, group);
    SwizzledParts(blocks, row', group');
    RowParts(row);
    RowParts(row');
    GroupParts(group);
    GroupParts(group');
  }

  lemma GroupParts(group: nat)
    ensures group == group / 4 * 4 + group % 4
  {
  }

  /** No two pairs address the same word. */
  lemma WordInjective(g: Geometry, row: nat, group: nat, row': nat, group': nat)
    requires ScalesSized(g) && row < g.shape[0] && group < Groups(g) && row' < g.shape[0] && group' < Groups(g)
    requires WordIndex(g, row, group) == WordIndex(g, row', group')
    ensures row == row' && group == group'
  {
    hide Groups, Swizzled;
    if g.layout == BlockScaleK16M128x4 {
      SwizzleInjective(g.shape[1] / 64, row, group, row', group');
    } else {
      MultipleDiv(row, Groups(g), group);
      MultipleDiv(row', Groups(g), group');
    }
  }

  /** Every word of the plane is addressed by some pair. */
  lemma WordOnto(g: Geometry, w: nat) returns (row: nat, group: nat)
    requires ScalesSized(g) && w < g.shape[0] * Groups(g)
    ensures row < g.shape[0] && group < Groups(g) && WordIndex(g, row, group) == w
  {
    hide Groups;
    var groups := Groups(g);
    if g.layout == BlockScaleK16M128x4 {
      row, group := Unswizzle(g.shape[1] / 64, g.shape[0] / 128, w);
      assert g.shape[0] == g.shape[0] / 128 * 128;
    } else {
      row, group := RowMajor(g.shape[0], groups, w);
    }
  }

  lemma RowMajor(rows: nat, groups: nat, w: nat) returns (row: nat, group: nat)
    requires w < rows * groups
    ensures row < rows && group < groups && row * groups + group == w
  {
    assert groups == 0 ==> rows * groups == 0;
    row, group := w / groups, w % groups;
    if row >= rows { MulMonotone(rows, row, groups); }
  }

  lemma Unswizzle(blocks: nat, tiles: nat, w: nat) returns (row: nat, group: nat)
    requires w < tiles * 128 * (4 * blocks)
    ensures row < tiles * 128 && group < 4 * blocks
    ensures Swizzled(blocks, row, group) == w
  {
    var t, c, b, e := w / 512, w % 512 / 16, w % 16 / 4, w % 4;
    WordParts(w, tiles * blocks);
    assert tiles * 128 * (4 * blocks) == tiles * blocks * 512;
    var a, d := RowMajor(tiles, blocks, t);
    row, group := a * 128 + b * 32 + c, d * 4 + e;
    PairParts(a, b, c, d, e);
  }

  lemma WordParts(w: nat, words: nat)
    ensures w == w / 512 * 512 + w % 512 / 16 * 16 + w % 16 / 4 * 4 + w % 4
    ensures w % 512 / 16 < 32 && w % 16 / 4 < 4 && w % 4 < 4
    ensures w < words * 512 ==> w / 512 < words
  {
    var t, r, x := w / 512, w % 512, w % 512 % 16;
    MultipleDiv(32 * t + r / 16, 16, x);
    assert w == (32 * t + r / 16) * 16 + x;
    MultipleDiv(w / 16 * 4 + x / 4, 4, x % 4);
    assert w == (w / 16 * 4 + x / 4) * 4 + x % 4;
  }

  lemma PairParts(a: nat, b: nat, c: nat, d: nat, e: nat)
    requires b < 4 && c < 32 && e < 4
    ensures var row, group := a * 128 + b * 32 + c, d * 4 + e;
            row / 128 == a && row % 128 % 32 == c && row % 128 / 32 == b && group / 4 == d && group % 4 == e
  {
  }

  // ----- The scale plane

  /** For every accepted quantized geometry the scale offsets are, one for one, the words of the scale plane. */
  lemma ScalesAreTheWords(format: QType, layout: QuantLayout, shape: seq<nat>, row: nat, group: nat)
    requires GeometryOf(format, layout, shape).Ok? && layout != Contiguous
    ensures var g := GeometryOf(format, layout, shape).value;
            && g.groupSize > 0
            && g.scaleBytes == g.shape[0] * Groups(g) * ScaleWord(g)
            && (ScaleOffset(g, row, group).Ok? <==> row < shape[0] && group < Groups(g))
            && (ScaleOffset(g, row, group).Ok? ==>
                  && g.scaleOffset <= ScaleOffset(g, row, group).value
                  && ScaleOffset(g, row, group).value + ScaleWord(g) <= g.scaleOffset + g.scaleBytes <= g.bytes)
  {
    hide GeometryOf, Groups;
    ShapeKept(format, layout, shape);
    GeometryPlanes(format, layout, shape);
    ScalesOf(format, layout, shape);
    var g := GeometryOf(format, layout, shape).value;
    OffsetOfWord(g, row, group);
    assert g.shape[0] * (Groups(g) * ScaleWord(g)) == g.shape[0] * Groups(g) * ScaleWord(g);
    if row < shape[0] && group < Groups(g) { WordInside(g, row, group); }
  }

  lemma ShapeKept(format: QType, layout: QuantLayout, shape: seq<nat>)
    requires GeometryOf(format, layout, shape).Ok?
    ensures var g := GeometryOf(format, layout, shape).value;
            && g.shape == shape && g.layout == layout && g.format == format
            && g.elements == Product(shape, |shape|)
  {
    CountToCorrect(shape, |shape|);
  }

  lemma ScaleOffsetInjective(g: Geometry, row: nat, group: nat, row': nat, group': nat)
    requires ScalesSized(g) && ScaleOffset(g, row, group).Ok?
    requires ScaleOffset(g, row, group) == ScaleOffset(g, row', group')
    ensures row == row' && group == group'
  {
    hide Groups, WordIndex;
    OffsetOfWord(g, row, group);
    OffsetOfWord(g, row', group');
    WordInjective(g, row, group, row', group');
  }

  /** Every word of the scale plane is the scale of some row and group. */
  lemma ScaleOffsetOnto(g: Geometry, w: nat) returns (row: nat, group: nat)
    requires ScalesSized(g) && (w + 1) * ScaleWord(g) <= g.scaleBytes
    ensures ScaleOffset(g, row, group) == Ok(g.scaleOffset + w * ScaleWord(g))
  {
    hide WordIndex, Groups, ScaleOffset;
    assert g.shape[0] * (Groups(g) * ScaleWord(g)) == g.shape[0] * Groups(g) * ScaleWord(g);
    row, group := WordOnto(g, w);
    OffsetOfWord(g, row, group);
  }

  /** A word of the scale plane begins here. */
  ghost predicate WordAt(g: Geometry, at: nat) {
    exists w: nat :: IsWord(g, at, w)
  }

  predicate IsWord(g: Geometry, at: nat, w: nat) {
    at == g.scaleOffset + w * ScaleWord(g) && (w + 1) * ScaleWord(g) <= g.scaleBytes
  }

  /** Row and group name a scale of the geometry. */
  predicate InGrid(g: Geometry, row: nat, group: nat) {
    |g.shape| == 2 && g.groupSize > 0 && row < g.shape[0] && group < Groups(g)
  }

  predicate OffsetIs(g: Geometry, row: nat, group: nat, at: nat) {
    ScaleOffset(g, row, group) == Ok(at)
  }

  /** Pairs of the grid and words of the plane, one for one. */
  ghost predicate ScaleBijection(g: Geometry) {
    && (forall row: nat, group: nat :: InGrid(g, row, group) <==> ScaleOffset(g, row, group).Ok?)
    && (forall row: nat, group: nat, at: nat :: OffsetIs(g, row, group, at) ==> WordAt(g, at))
    && (forall at: nat :: WordAt(g, at) ==> exists row: nat, group: nat :: OffsetIs(g, row, group, at))
    && (forall row: nat, group: nat, row': nat, group': nat, at: nat ::
          OffsetIs(g, row, group, at) && OffsetIs(g, row', group', at) ==> row == row' && group == group')
  }

  /** The scale offsets of every accepted geometry are in bijection with the words of its scale plane: a pair of row
      and group is accepted exactly inside the grid, its offset is a word of the plane, and every word is the offset
      of one pair and no other.  Contiguous weights have neither pairs nor words. */
  lemma ScalesBijective(format: QType, layout: QuantLayout, shape: seq<nat>)
    requires GeometryOf(format, layout, shape).Ok?
    ensures var g := GeometryOf(format, layout, shape).value;
            && ScaleBijection(g)
            && (layout == Contiguous <==> g.groupSize == 0)
            && g.scaleBytes == if g.groupSize == 0 then 0 else ScaleCells(g) * ScaleWord(g)
  {
    hide GeometryOf, ScaleOffset, Groups, ScalesSized, ScaleBijection, ScaleCells;
    var g := GeometryOf(format, layout, shape).value;
    if layout == Contiguous {
      NoScales(format, shape);
    } else {
      ScalesOf(format, layout, shape);
      SizedPlane(g);
      SizedBijection(g);
    }
  }

  /** The number of scales. */
  function ScaleCells(g: Geometry): nat {
    if |g.shape| == 2 && g.groupSize > 0 then g.shape[0] * Groups(g) else 0
  }

  lemma SizedBijection(g: Geometry)
    requires ScalesSized(g)
    ensures ScaleBijection(g)
  {
    hide ScaleOffset, ScalesSized, WordAt, InGrid;
    forall row: nat, group: nat ensures InGrid(g, row, group) <==> ScaleOffset(g, row, group).Ok? {
      OffsetIsWord(g, row, group);
    }
    forall row: nat, group: nat, at: nat | OffsetIs(g, row, group, at) ensures WordAt(g, at) {
      OffsetIsWord(g, row, group);
    }
    forall at: nat | WordAt(g, at) ensures exists row: nat, group: nat :: OffsetIs(g, row, group, at) {
      var row, group := WordIsOffset(g, at);
      assert OffsetIs(g, row, group, at);
    }
    forall row: nat, group: nat, row': nat, group': nat, at: nat
      | OffsetIs(g, row, group, at) && OffsetIs(g, row', group', at)
      ensures row == row' && group == group'
    {
      ScaleOffsetInjective(g, row, group, row', group');
    }
  }

  lemma NoScales(format: QType, shape: seq<nat>)
    requires GeometryOf(format, Contiguous, shape).Ok?
    ensures var g := GeometryOf(format, Contiguous, shape).value;
            ScaleBijection(g) && g.scaleBytes == 0 && g.groupSize == 0
  {
    hide Groups;
    var g := GeometryOf(format, Contiguous, shape).value;
    forall at: nat ensures !WordAt(g, at) {
      forall w: nat ensures !IsWord(g, at, w) { MulAtLeast(w + 1, ScaleWord(g)); }
    }
  }

  lemma SizedPlane(g: Geometry)
    requires ScalesSized(g)
    ensures g.groupSize > 0 && |g.shape| == 2 && g.scaleBytes == ScaleCells(g) * ScaleWord(g)
  {
    hide Groups;
    assert g.shape[0] * (Groups(g) * ScaleWord(g)) == g.shape[0] * Groups(g) * ScaleWord(g);
  }

  lemma OffsetIsWord(g: Geometry, row: nat, group: nat)
    requires ScalesSized(g)
    ensures InGrid(g, row, group) <==> ScaleOffset(g, row, group).Ok?
    ensures ScaleOffset(g, row, group).Ok? ==> WordAt(g, ScaleOffset(g, row, group).value)
  {
    hide Groups, WordIndex, ScaleOffset, ScaleWord;
    OffsetOfWord(g, row, group);
    if row < g.shape[0] && group < Groups(g) {
      WordInside(g, row, group);
      var w := WordIndex(g, row, group);
      SizedPlane(g);
      MulMonotone(w + 1, ScaleCells(g), ScaleWord(g));
      assert IsWord(g, g.scaleOffset + w * ScaleWord(g), w);
    }
  }

  lemma WordIsOffset(g: Geometry, at: nat) returns (row: nat, group: nat)
    requires ScalesSized(g) && WordAt(g, at)
    ensures ScaleOffset(g, row, group) == Ok(at)
  {
    hide ScalesSized, ScaleOffset;
    var w :| IsWord(g, at, w);
    row, group := ScaleOffsetOnto(g, w);
  }

  function BitsPerElement(format: QType): nat {
    match format
    case Q4_G64_FP16 => 4
    case Q5_G64_FP16 => 5
    case Q6_G64_FP16 => 6
    case _ => 8
  }

  lemma GroupBits(format: QType, padded: nat)
    requires GroupOf(format).Ok? && padded % COLUMN_ALIGNMENT == 0
    ensures var group := GroupOf(format).value;
            padded % group.0 == 0 && 8 * (padded / group.0 * 32 + padded / group.0 * group.1)
              == padded * BitsPerElement(format)
  {
    WholeGroups(padded);
  }

  lemma RowSplitRows(out: Geometry)
    requires |out.shape| == 2 && RowSplitGeometry(out).Ok?
    ensures GroupOf(out.format).Ok?
    ensures var g, group := RowSplitGeometry(out).value, GroupOf(out.format).value;
            && g.paddedColumns == AlignUp(out.shape[1], COLUMN_ALIGNMENT) && g.groupSize == group.0
            && g.codeBytesPerRow == g.paddedColumns / group.0 * 32
               && g.highBytesPerRow == g.paddedColumns / group.0 * group.1
  {
  }

  /** Codes and high planes hold exactly the padded elements at the format's width. */
  lemma RowSplitBits(format: QType, shape: seq<nat>)
    requires GeometryOf(format, RowSplit, shape).Ok?
    ensures var g := GeometryOf(format, RowSplit, shape).value;
            && g.groupSize > 0 && g.paddedColumns % g.groupSize == 0 && |shape| == 2 && g.paddedColumns >= shape[1]
            && 8 * (g.codeBytesPerRow + g.highBytesPerRow) == g.paddedColumns * BitsPerElement(format)
  {
    hide RowSplitGeometry, GroupOf, BitsPerElement, AlignUp;
    RowSplitRows(Empty(format, RowSplit, shape, ElementCount(shape).value).(paddedColumns := shape[1]));
    AlignUpIsLeast(shape[1], COLUMN_ALIGNMENT);
    GroupBits(format, AlignUp(shape[1], COLUMN_ALIGNMENT));
    GroupNonzero(format);
  }

  // ----- The formats, by their numbers

  /** Which formats a layout takes. */
  predicate Takes(format: QType, layout: QuantLayout) {
    match layout
    case Contiguous => format in {BF16, FP32, INT32}
    case RowSplit => format in {Q4_G64_FP16, Q5_G64_FP16, Q6_G64_FP16, Q8_G32_FP16}
    case RowScale => format == FP8_E4M3FN_ROW_BF16
    case BlockScaleK16M128x4 => format == NVFP4
  }

  /** What every accepted geometry says about its format: the formats each layout takes, the bits of a code, the
      columns of a group, and the shapes that NVFP4 is restricted to. */
  lemma EncodedBits(format: QType, layout: QuantLayout, shape: seq<nat>)
    requires GeometryOf(format, layout, shape).Ok?
    ensures Takes(format, layout) && (layout != Contiguous ==> |shape| == 2)
    ensures var g := GeometryOf(format, layout, shape).value;
            && (layout == Contiguous ==>
                  && g.groupSize == 0
                  && 8 * g.codeBytes == (if format == BF16 then 16 else 32) * g.elements)
            && (layout == RowSplit ==>
                  && g.groupSize == (if format == Q8_G32_FP16 then 32 else 64)
                  && 8 * g.codeBytesPerRow == g.paddedColumns * (if format == Q8_G32_FP16 then 8 else 4)
                  && g.paddedColumns % 128 == 0 && shape[1] <= g.paddedColumns < shape[1] + 128)
            && (layout == RowScale ==> g.groupSize == g.paddedColumns == shape[1] && g.codeBytes == g.elements)
            && (layout == BlockScaleK16M128x4 ==>
                  && g.groupSize == 16 && 8 * g.codeBytes == 4 * g.elements && g.paddedColumns == shape[1]
                  && shape[0] % 128 == 0 && shape[1] % 64 == 0)
  {
    hide RowSplitGeometry, AlignUp;
    if layout == RowSplit {
      SplitBits(Empty(format, layout, shape, ElementCount(shape).value).(paddedColumns := shape[1]));
    } else if layout == BlockScaleK16M128x4 {
      HalfBytes(shape);
    }
  }

  /** Direct weights are accepted exactly when their bytes are a 64-bit number. */
  lemma AcceptsDirect(format: QType, shape: seq<nat>)
    ensures GeometryOf(format, Contiguous, shape).Ok? <==>
              && Takes(format, Contiguous) && |shape| <= 16 && (forall i :: 0 <= i < |shape| ==> shape[i] > 0)
              && Product(shape, |shape|) * (if format == BF16 then 2 else 4) <= SIZE_MAX
  {
    CountToCorrect(shape, |shape|);
    if ElementCount(shape).Ok? && |shape| == 2 {
      RowOfArea(shape);
      MulMonotone(shape[1], Product(shape, 2), if format == BF16 then 2 else 4);
    }
  }

  lemma RowOfArea(shape: seq<nat>)
    requires |shape| == 2 && shape[0] > 0
    ensures shape[1] <= Product(shape, 2) == shape[0] * shape[1]
  {
    assert Product(shape, 1) == Product(shape, 0) * shape[0] == shape[0];
    MulMonotone(1, shape[0], shape[1]);
  }

  /** Every quantized matrix of the right format and shape is accepted, as long as it is not so large that sums could
      leave 64 bits. */
  lemma AcceptsQuantized(format: QType, layout: QuantLayout, shape: seq<nat>)
    requires layout != Contiguous && Takes(format, layout) && |shape| == 2 && shape[0] > 0 && shape[1] > 0
    requires layout == BlockScaleK16M128x4 ==> shape[0] % 128 == 0 && shape[1] % 64 == 0
    requires 4 * (shape[0] * (shape[1] + 128)) + 1024 <= SIZE_MAX
    ensures GeometryOf(format, layout, shape).Ok?
  {
    hide RowSplitGeometry, RowScaleGeometry, BlockScaleGeometry;
    CountToCorrect(shape, 2);
    RowOfArea(shape);
    var n, k := shape[0], shape[1];
    RowsOfSlack(n, k);
    var start := Empty(format, layout, shape, Product(shape, 2)).(paddedColumns := k);
    match layout
    case RowSplit => AcceptsSplit(start);
    case RowScale => AcceptsRowScale(start);
    case BlockScaleK16M128x4 => AcceptsBlockScale(start);
  }

  lemma RowsOfSlack(n: nat, k: nat)
    requires n > 0
    ensures n * k + 128 * n == n * (k + 128) && k + 128 <= n * (k + 128)
  {
    MulMonotone(1, n, k + 128);
  }

  lemma AcceptsRowScale(out: Geometry)
    requires |out.shape| == 2 && out.elements <= out.shape[0] * (out.shape[1] + 128)
    requires out.format == FP8_E4M3FN_ROW_BF16
    requires 4 * (out.shape[0] * (out.shape[1] + 128)) + 1024 <= SIZE_MAX
    ensures RowScaleGeometry(out).Ok?
    ensures var g := RowScaleGeometry(out).value;
            && g.scaleOffset + out.shape[0] * g.scaleBytesPerRow <= 3 * (out.shape[0] * (out.shape[1] + 128)) + 1024
            && g.scaleBytesPerRow == 2
  {
    hide AlignUp;
    AlignUpIsLeast(out.elements, WEIGHT_ALIGNMENT);
    MulOrder(out.shape[0], 2, out.shape[1] + 128);
  }

  lemma AcceptsBlockScale(out: Geometry)
    requires |out.shape| == 2 && out.format == NVFP4 && out.elements <= out.shape[0] * (out.shape[1] + 128)
    requires out.shape[0] % 128 == 0 && out.shape[1] % 64 == 0
    requires 4 * (out.shape[0] * (out.shape[1] + 128)) + 1024 <= SIZE_MAX
    ensures BlockScaleGeometry(out).Ok?
    ensures var g := BlockScaleGeometry(out).value;
            g.scaleOffset + out.shape[0] * g.scaleBytesPerRow <= 3 * (out.shape[0] * (out.shape[1] + 128)) + 1024
  {
    hide AlignUp;
    AlignUpIsLeast(out.elements / 2, WEIGHT_ALIGNMENT);
    MulOrder(out.shape[0], out.shape[1] / 16, out.shape[1] + 128);
  }

  lemma AcceptsSplit(out: Geometry)
    requires |out.shape| == 2 && out.shape[0] > 0 && Takes(out.format, RowSplit)
    requires 4 * (out.shape[0] * (out.shape[1] + 128)) + 1024 <= SIZE_MAX
    ensures RowSplitGeometry(out).Ok?
    ensures var g := RowSplitGeometry(out).value;
            g.scaleOffset + out.shape[0] * g.scaleBytesPerRow <= 3 * (out.shape[0] * (out.shape[1] + 128)) + 1024
  {
    hide AlignUp;
    var n, padded, group := out.shape[0], AlignUp(out.shape[1], COLUMN_ALIGNMENT), GroupOf(out.format).value;
    AlignUpIsLeast(out.shape[1], COLUMN_ALIGNMENT);
    RowsOfSlack(n, out.shape[1]);
    var groups := padded / group.0;
    PlaneFits(n, groups, 32, out.shape[1] + 128);
    PlaneFits(n, groups, group.1, out.shape[1] + 128);
    PlaneFits(n, groups, 2, out.shape[1] + 128);
  }

  /** A plane with so many bytes a group is no larger than the padded matrix has elements. */
  lemma PlaneFits(n: nat, groups: nat, each: nat, columns: nat)
    requires n > 0 && each <= 32 && groups * 32 <= columns
    ensures groups * each <= columns && n * (groups * each) <= n * columns
    ensures n * (groups * each) <= AlignUp(n * (groups * each), WEIGHT_ALIGNMENT) <= n * columns + 256
  {
    hide AlignUp;
    MulOrder(groups, each, 32);
    MulOrder(n, groups * each, columns);
    AlignUpIsLeast(n * (groups * each), WEIGHT_ALIGNMENT);
  }

  lemma MulOrder(n: nat, a: nat, b: nat)
    requires a <= b
    ensures n * a <= n * b
  {
  }

  lemma SplitBits(out: Geometry)
    requires |out.shape| == 2 && RowSplitGeometry(out).Ok?
    ensures Takes(out.format, RowSplit)
    ensures var g, wide := RowSplitGeometry(out).value, out.format == Q8_G32_FP16;
            && g.groupSize == (if wide then 32 else 64)
            && 8 * g.codeBytesPerRow == g.paddedColumns * (if wide then 8 else 4)
            && g.paddedColumns % 128 == 0 && out.shape[1] <= g.paddedColumns < out.shape[1] + 128
  {
    hide RowSplitGeometry, AlignUp;
    RowSplitRows(out);
    AlignUpIsLeast(out.shape[1], COLUMN_ALIGNMENT);
    WholeGroups(AlignUp(out.shape[1], COLUMN_ALIGNMENT));
  }

  lemma WholeGroups(padded: nat)
    requires padded % COLUMN_ALIGNMENT == 0
    ensures padded / 64 * 64 == padded && padded / 32 * 32 == padded
  {
    var q := padded / COLUMN_ALIGNMENT;
    assert padded == q * 2 * 64 + 0 && padded == q * 4 * 32 + 0;
    MultipleDiv(q * 2, 64, 0);
    MultipleDiv(q * 4, 32, 0);
  }

  /** NVFP4 parents have an even number of elements. */
  lemma HalfBytes(shape: seq<nat>)
    requires ElementCount(shape).Ok? && |shape| == 2 && shape[1] % 64 == 0
    ensures ElementCount(shape).value / 2 * 2 == ElementCount(shape).value
  {
    CountToCorrect(shape, 2);
    var q := shape[1] / 64;
    assert Product(shape, 2) == Product(shape, 1) * (q * 64);
    assert Product(shape, 1) * (q * 64) == Product(shape, 1) * q * 32 * 2 + 0;
    MultipleDiv(Product(shape, 1) * q * 32, 2, 0);
  }

  /** Where the scale word of a row and a group lies: two bytes a word in row-major order, except that NVFP4 has one
      byte a word, 128 rows by 4 groups to a tile of 512, tiles in row-major order; in a tile, 16 words for every row
      modulo 32, and of these 4 for every quarter of the rows, one a group. */
  lemma ScalePlace(format: QType, layout: QuantLayout, shape: seq<nat>, row: nat, group: nat)
    requires GeometryOf(format, layout, shape).Ok?
    requires ScaleOffset(GeometryOf(format, layout, shape).value, row, group).Ok?
    ensures var g := GeometryOf(format, layout, shape).value;
            && g.groupSize > 0 && g.scaleOffset <= ScaleOffset(g, row, group).value
            && var w, groups := ScaleOffset(g, row, group).value - g.scaleOffset, g.paddedColumns / g.groupSize;
               if layout == BlockScaleK16M128x4 then
                 && groups == shape[1] / 16 && groups / 4 > 0
                 && w / 512 / (groups / 4) == row / 128 && w / 512 % (groups / 4) == group / 4
                 && w % 512 / 16 == row % 32 && w % 16 / 4 == row % 128 / 32 && w % 4 == group % 4
               else w == (row * groups + group) * 2
  {
    hide GeometryOf, Swizzled;
    ShapeKept(format, layout, shape);
    EncodedBits(format, layout, shape);
    ScalesOf(format, layout, shape);
    var g := GeometryOf(format, layout, shape).value;
    OffsetOfWord(g, row, group);
    if layout == BlockScaleK16M128x4 {
      FourGroups(shape[1]);
      SwizzledParts(shape[1] / 64, row, group);
      RowInTile(row);
    }
  }

  lemma FourGroups(columns: nat)
    requires columns % 64 == 0
    ensures columns / 16 == 4 * (columns / 64) && columns / 16 / 4 == columns / 64
  {
    MultipleDiv(columns / 64 * 4, 16, 0);
  }

  lemma RowInTile(row: nat)
    ensures row % 128 % 32 == row % 32
  {
  }

  lemma GroupNonzero(format: QType)
    ensures GroupOf(format).Ok? ==> GroupOf(format).value.0 > 0
  {
  }
}
