/** Streaming device objects out of their files, chunk by chunk, through a ring of staging slots. */
module Upload {
  import opened Common
  import opened Sorting
  import opened Payload
  import opened Transfer

  const SLOT_BYTES: nat := 64 * 1024 * 1024
  const MAXIMUM_SLOT_COUNT: nat := 4

  datatype CopyRange = CopyRange(file: nat, begin: nat, end: nat, destination: nat) {
    function Bytes(): int { end - begin }
  }

  datatype ReadSpan = ReadSpan(file: nat, begin: nat, end: nat)

  /** std::tie(file, begin). */
  function RangeKey(r: CopyRange): (nat, nat) { (r.file, r.begin) }

  // ----- The bytes that have to move, in order

  function RangeData(files: seq<seq<byte>>, r: CopyRange, n: nat): seq<byte> {
    if r.file < |files| && r.begin + n <= |files[r.file]| then files[r.file][r.begin..r.begin + n] else []
  }

  /** Destination addresses of the first k ranges, byte by byte. */
  function FlatAddresses(ranges: seq<CopyRange>, k: nat): seq<nat>
    requires k <= |ranges|
  {
    if k == 0 then [] else
    FlatAddresses(ranges, k - 1) + Addresses(ranges[k - 1].destination, Max(0, ranges[k - 1].Bytes()))
  }

  /** Source bytes of the first k ranges. */
  function FlatData(files: seq<seq<byte>>, ranges: seq<CopyRange>, k: nat): seq<byte>
    requires k <= |ranges|
  {
    if k == 0 then [] else
    FlatData(files, ranges, k - 1) + RangeData(files, ranges[k - 1], Max(0, ranges[k - 1].Bytes()))
  }

  function TotalBytes(ranges: seq<CopyRange>, k: nat): nat
    requires k <= |ranges|
  {
    if k == 0 then 0 else TotalBytes(ranges, k - 1) + Max(0, ranges[k - 1].Bytes())
  }

  lemma {:induction false} FlatLength(ranges: seq<CopyRange>, k: nat)
    requires k <= |ranges|
    ensures |FlatAddresses(ranges, k)| == TotalBytes(ranges, k)
  {
    if k > 0 { FlatLength(ranges, k - 1); }
  }

  // ----- Ranges and spans

  /** Nonempty ranges in file order, none overlapping the next. */
  ghost predicate InOrder(ranges: seq<CopyRange>) {
    && (forall i :: 0 <= i < |ranges| ==> ranges[i].begin < ranges[i].end)
    && (forall i, j :: 0 <= i < j < |ranges| ==>
          ranges[i].file < ranges[j].file || (ranges[i].file == ranges[j].file && ranges[i].end <= ranges[j].begin))
  }

  function AlignDown(n: nat): nat { n / PAYLOAD_ALIGNMENT * PAYLOAD_ALIGNMENT }

  /** Less than a whole block lies between the blocks of a and the blocks of b. */
  predicate Near(a: CopyRange, b: CopyRange) {
    b.begin < AlignUp(a.end, PAYLOAD_ALIGNMENT) + PAYLOAD_ALIGNMENT
  }

  /** Span s covers the ranges [lo, hi), each near the one before: it begins with the block of the first, ends where the
      last one ends, and what comes next is not near. */
  ghost predicate Spans(ranges: seq<CopyRange>, s: ReadSpan, lo: nat, hi: nat) {
    && OpenSpan(ranges, s, lo, hi)
    && (hi < |ranges| ==>
          ranges[hi].file > s.file || (ranges[hi].file == s.file && !Near(ranges[hi - 1], ranges[hi])))
  }

  /** The spans partition the ranges, in order. */
  ghost predicate Partition(ranges: seq<CopyRange>, spans: seq<ReadSpan>, cuts: seq<nat>) {
    && |cuts| == |spans| + 1 && cuts[0] == 0 && cuts[|spans|] == |ranges|
    && forall j :: 0 <= j < |spans| ==> Spans(ranges, spans[j], cuts[j], cuts[j + 1])
  }

  lemma AlignDownFacts(n: nat)
    ensures AlignDown(n) <= n < AlignDown(n) + PAYLOAD_ALIGNMENT && AlignDown(n) % PAYLOAD_ALIGNMENT == 0
  {
  }

  /** A span that is still open on the right: what Spans says, but for what comes after hi. */
  ghost predicate OpenSpan(ranges: seq<CopyRange>, s: ReadSpan, lo: nat, hi: nat) {
    && lo < hi <= |ranges|
    && s.begin % PAYLOAD_ALIGNMENT == 0 && s.begin <= ranges[lo].begin < s.begin + PAYLOAD_ALIGNMENT
    && s.end == ranges[hi - 1].end
    && (forall i :: lo <= i < hi ==> ranges[i].file == s.file)
    && forall i :: lo < i < hi ==> Near(ranges[i - 1], ranges[i])
  }

  /** The spans of the first n ranges, the last one still open. */
  ghost predicate PartialPartition(ranges: seq<CopyRange>, spans: seq<ReadSpan>, cuts: seq<nat>, n: nat) {
    && n <= |ranges|
    && |cuts| == |spans| + 1 && cuts[0] == 0 && cuts[|spans|] == n
    && (forall j :: 0 <= j < |spans| - 1 ==> Spans(ranges, spans[j], cuts[j], cuts[j + 1]))
    && (spans != [] ==> OpenSpan(ranges, spans[|spans| - 1], cuts[|spans| - 1], n))
  }

  /** A range that starts a new span closes the one before. */
  lemma PushSpan(ranges: seq<CopyRange>, spans: seq<ReadSpan>, cuts: seq<nat>, n: nat)
    requires PartialPartition(ranges, spans, cuts, n) && n < |ranges|
    requires spans != [] ==>
               var back := spans[|spans| - 1];
               ranges[n].file > back.file
               || (ranges[n].file == back.file && !Near(ranges[n - 1], ranges[n]))
    requires ranges[n].begin < ranges[n].end
    ensures PartialPartition(ranges, spans + [ReadSpan(ranges[n].file, AlignDown(ranges[n].begin), ranges[n].end)],
                             cuts + [n + 1], n + 1)
  {
    AlignDownFacts(ranges[n].begin);
  }

  /** A range near the open span extends it. */
  lemma ExtendSpan(ranges: seq<CopyRange>, spans: seq<ReadSpan>, cuts: seq<nat>, n: nat)
    requires PartialPartition(ranges, spans, cuts, n) && n < |ranges| && spans != []
    requires ranges[n].file == spans[|spans| - 1].file && n > 0 && Near(ranges[n - 1], ranges[n])
    ensures PartialPartition(ranges, spans[|spans| - 1 := spans[|spans| - 1].(end := ranges[n].end)],
                             cuts[|spans| := n + 1], n + 1)
  {
    var last := |spans| - 1;
    var spans', cuts' := spans[last := spans[last].(end := ranges[n].end)], cuts[|spans| := n + 1];
    forall j | 0 <= j < last ensures Spans(ranges, spans'[j], cuts'[j], cuts'[j + 1]) {
      assert Spans(ranges, spans[j], cuts[j], cuts[j + 1]);
    }
  }

  /** One more range in order. */
  lemma InOrderStep(ranges: seq<CopyRange>, n: nat)
    requires n < |ranges| && InOrder(ranges[..n]) && Sorted(RangeKey, ranges)
    requires ranges[n].begin < ranges[n].end
    requires n > 0 && ranges[n - 1].file == ranges[n].file ==> ranges[n - 1].end <= ranges[n].begin
    ensures InOrder(ranges[..n + 1])
  {
    var some := ranges[..n + 1];
    assert some == ranges[..n] + [ranges[n]];
    forall i | 0 <= i < n
      ensures ranges[i].file < ranges[n].file || (ranges[i].file == ranges[n].file && ranges[i].end <= ranges[n].begin)
    {
      assert Before(RangeKey(ranges[n - 1]), RangeKey(ranges[n]));
      if i < n - 1 {
        assert ranges[..n][i] == ranges[i] && ranges[..n][n - 1] == ranges[n - 1];
      }
    }
  }

  /** align_up of the schema: refuses what would not fit in 64 bits. */
  function CheckedAlign(value: nat): Result<nat> {
    if value + PAYLOAD_ALIGNMENT - 1 > SIZE_MAX then Err(ArtifactError) else Ok(AlignUp(value, PAYLOAD_ALIGNMENT))
  }

  /** The bytes the direct reads of the first n spans ask for. */
  function AlignedBytes(spans: seq<ReadSpan>, n: nat): nat
    requires n <= |spans|
  {
    if n == 0 then 0 else
    AlignedBytes(spans, n - 1) + AlignUp(Max(0, spans[n - 1].end - spans[n - 1].begin), PAYLOAD_ALIGNMENT)
  }

  lemma {:induction false} AlignedBytesPrefix(a: seq<ReadSpan>, b: seq<ReadSpan>, n: nat)
    requires n <= |a| && n <= |b| && a[..n] == b[..n]
    ensures AlignedBytes(a, n) == AlignedBytes(b, n)
  {
    if n > 0 {
      assert a[..n][n - 1] == b[..n][n - 1] && a[..n][..n - 1] == a[..n - 1] && b[..n][..n - 1] == b[..n - 1];
      AlignedBytesPrefix(a, b, n - 1);
    }
  }

  /** Merging gaps costs at most two alignments a range. */
  const MERGE_COST: nat := 2 * PAYLOAD_ALIGNMENT

  lemma PushCost(ranges: seq<CopyRange>, spans: seq<ReadSpan>, n: nat, cost: nat)
    requires n < |ranges| && ranges[n].begin < ranges[n].end
    requires AlignedBytes(spans, |spans|) <= cost
    ensures var s := ReadSpan(ranges[n].file, AlignDown(ranges[n].begin), ranges[n].end);
            AlignedBytes(spans + [s], |spans| + 1) <= cost + ranges[n].Bytes() + MERGE_COST
  {
    AlignedBytesPrefix(spans, spans + [ReadSpan(ranges[n].file, AlignDown(ranges[n].begin), ranges[n].end)], |spans|);
  }

  lemma ExtendCost(spans: seq<ReadSpan>, begin: nat, end: nat, cost: nat)
    requires spans != [] && begin < end && AlignedBytes(spans, |spans|) <= cost
    requires var s := spans[|spans| - 1];
             s.begin % PAYLOAD_ALIGNMENT == 0 && s.begin <= s.end <= begin
             && AlignDown(begin) <= AlignUp(s.end, PAYLOAD_ALIGNMENT)
    ensures AlignedBytes(spans[|spans| - 1 := spans[|spans| - 1].(end := end)], |spans|) <= cost + (end - begin)
            + MERGE_COST
  {
    var last := |spans| - 1;
    var s := spans[last];
    AlignedBytesPrefix(spans, spans[last := s.(end := end)], last);
    AlignUpFromAligned(s.begin, s.end);
    AlignUpFromAligned(s.begin, end);
    AlignGap(s.end, begin, end);
  }

  lemma AlignGap(from: nat, begin: nat, end: nat)
    requires from <= begin < end && AlignDown(begin) <= AlignUp(from, PAYLOAD_ALIGNMENT)
    ensures AlignUp(end, PAYLOAD_ALIGNMENT) <= AlignUp(from, PAYLOAD_ALIGNMENT) + (end - begin) + MERGE_COST
  {
  }

  /** Merges nearby ranges into aligned spans; overlapping sources are refused. */
  method MergeSpans(ranges: seq<CopyRange>) returns (r: Result<seq<ReadSpan>>, ghost cuts: seq<nat>)
    requires Sorted(RangeKey, ranges)
    requires forall i :: 0 <= i < |ranges| ==> ranges[i].begin < ranges[i].end
    ensures r.Ok? ==> InOrder(ranges) && Partition(ranges, r.value, cuts) && r.value == Merged(ranges, |ranges|)
    ensures r.Ok? ==> AlignedBytes(r.value, |r.value|) <= TotalBytes(ranges, |ranges|) + MERGE_COST * |ranges|
    ensures r.Err? ==> !InOrder(ranges) || exists i :: 0 <= i < |ranges| && CheckedAlign(ranges[i].end).Err?
  {
    hide Sorted, InOrder, PartialPartition, AlignedBytes, AlignDown, AlignUp;
    var spans: seq<ReadSpan> := [];
    cuts := [0];
    StartMerge(ranges);
    for i := 0 to |ranges|
      invariant InOrder(ranges[..i]) && PartialPartition(ranges, spans, cuts, i) && |cuts| == |spans| + 1
      invariant i > 0 ==> spans != [] && spans[|spans| - 1].file == ranges[i - 1].file
                          && spans[|spans| - 1].end == ranges[i - 1].end
      invariant i == 0 ==> spans == []
      invariant spans == Merged(ranges, i)
      invariant AlignedBytes(spans, |spans|) <= TotalBytes(ranges, i) + MERGE_COST * i
    {
      var range := ranges[i];
      if i != 0 && ranges[i - 1].file == range.file && ranges[i - 1].end > range.begin {
        NotInOrder(ranges, i);
        return Err(ArtifactError), [];
      }
      InOrderStep(ranges, i);
      SortedStep(ranges, i);
      var begin := AlignDown(range.begin);
      AlignDownFacts(range.begin);
      var apart := spans == [] || spans[|spans| - 1].file != range.file;
      if !apart {
        var end := CheckedAlign(spans[|spans| - 1].end);
        if end.Err? { return Err(ArtifactError), []; }
        apart := begin > end.value;
        NearBlocks(ranges[i - 1], range);
      }
      if apart {
        PushSpan(ranges, spans, cuts, i);
        PushCost(ranges, spans, i, TotalBytes(ranges, i) + MERGE_COST * i);
        spans, cuts := spans + [ReadSpan(range.file, begin, range.end)], cuts + [i + 1];
      } else {
        ExtendSpan(ranges, spans, cuts, i);
        LastSpan(ranges, spans, cuts, i);
        ExtendCost(spans, range.begin, range.end, TotalBytes(ranges, i) + MERGE_COST * i);
        cuts := cuts[|spans| := i + 1];
        spans := spans[|spans| - 1 := spans[|spans| - 1].(end := Max(spans[|spans| - 1].end, range.end))];
      }
    }
    assert ranges[..|ranges|] == ranges;
    EndMerge(ranges, spans, cuts);
    r := Ok(spans);
  }

  /** The spans of the first n ranges, as the merge loop leaves them. */
  function Merged(ranges: seq<CopyRange>, n: nat): (spans: seq<ReadSpan>)
    requires n <= |ranges|
    ensures n > 0 ==> spans != []
  {
    if n == 0 then [] else
    var spans, range := Merged(ranges, n - 1), ranges[n - 1];
    if spans == [] || spans[|spans| - 1].file != range.file
       || AlignDown(range.begin) > AlignUp(spans[|spans| - 1].end, PAYLOAD_ALIGNMENT) then
      spans + [ReadSpan(range.file, AlignDown(range.begin), range.end)]
    else
      spans[|spans| - 1 := spans[|spans| - 1].(end := Max(spans[|spans| - 1].end, range.end))]
  }

  lemma LastSpan(ranges: seq<CopyRange>, spans: seq<ReadSpan>, cuts: seq<nat>, n: nat)
    requires PartialPartition(ranges, spans, cuts, n) && spans != [] && InOrder(ranges[..n])
    ensures var s := spans[|spans| - 1]; s.begin % PAYLOAD_ALIGNMENT == 0 && s.begin <= s.end
  {
    var some := ranges[..n];
    var lo := cuts[|spans| - 1];
    assert some[lo].begin < some[lo].end && some[n - 1].begin < some[n - 1].end;
    assert lo < n - 1 ==> some[lo].file < some[n - 1].file || some[lo].end <= some[n - 1].begin;
  }

  lemma NearBlocks(a: CopyRange, b: CopyRange)
    ensures Near(a, b) <==> AlignDown(b.begin) <= AlignUp(a.end, PAYLOAD_ALIGNMENT)
  {
  }

  lemma StartMerge(ranges: seq<CopyRange>)
    ensures InOrder(ranges[..0]) && PartialPartition(ranges, [], [0], 0) && AlignedBytes([], 0) == 0
  {
  }

  lemma EndMerge(ranges: seq<CopyRange>, spans: seq<ReadSpan>, cuts: seq<nat>)
    requires PartialPartition(ranges, spans, cuts, |ranges|)
    ensures Partition(ranges, spans, cuts)
  {
  }

  lemma NotInOrder(ranges: seq<CopyRange>, i: nat)
    requires 0 < i < |ranges| && ranges[i - 1].file == ranges[i].file && ranges[i - 1].end > ranges[i].begin
    ensures !InOrder(ranges)
  {
  }

  lemma SortedStep(ranges: seq<CopyRange>, i: nat)
    requires Sorted(RangeKey, ranges) && i < |ranges|
    ensures i > 0 ==> ranges[i - 1].file <= ranges[i].file
  {
    if i > 0 { assert Before(RangeKey(ranges[i - 1]), RangeKey(ranges[i])); }
  }

  // ----- Progress through the ranges

  /** The queue holds exactly the first k ranges and the first off bytes of the next one. */
  ghost predicate Progress(t: TransferStream, files: seq<seq<byte>>, ranges: seq<CopyRange>, k: nat, off: nat)
    reads t`queue, t`intents
  {
    && k <= |ranges|
    && (k < |ranges| ==> off <= ranges[k].end - ranges[k].begin)
    && (k == |ranges| ==> off == 0)
    && (forall i :: 0 <= i < k ==> Present(files, ranges[i], ranges[i].end))
    && (off > 0 ==> Present(files, ranges[k], ranges[k].begin + off))
    && AllAddresses(t.queue) == FlatAddresses(ranges, k) + PartAddresses(ranges, k, off)
    && AllData(t.intents) == FlatData(files, ranges, k) + PartData(files, ranges, k, off)
  }

  function PartAddresses(ranges: seq<CopyRange>, k: nat, off: nat): seq<nat> {
    if k < |ranges| then Addresses(ranges[k].destination, off) else []
  }

  function PartData(files: seq<seq<byte>>, ranges: seq<CopyRange>, k: nat, off: nat): seq<byte> {
    if k < |ranges| then RangeData(files, ranges[k], off) else []
  }

  /** The file of the range reaches up to the offset. */
  predicate Present(files: seq<seq<byte>>, r: CopyRange, upTo: nat) {
    r.file < |files| && upTo <= |files[r.file]|
  }

  /** Everything of the span before the offset is queued, and nothing after it. */
  ghost predicate Frontier(ranges: seq<CopyRange>, lo: nat, hi: nat, source: nat, k: nat, off: nat) {
    && lo <= k <= hi <= |ranges|
    && (forall i :: lo <= i < k ==> ranges[i].end <= source)
    && (k < hi ==> ranges[k].end > source && off == Max(0, source - ranges[k].begin))
    && (k == hi ==> off == 0)
  }

  lemma MorePieces(files: seq<seq<byte>>, r: CopyRange, off: nat, n: nat)
    requires Present(files, r, r.begin + off + n)
    ensures Addresses(r.destination, off) + Addresses(r.destination + off, n) == Addresses(r.destination, off + n)
    ensures RangeData(files, r, off) + files[r.file][r.begin + off..r.begin + off + n] == RangeData(files, r, off + n)
  {
  }

  lemma Associate<T>(a: seq<T>, b: seq<T>, c: seq<T>)
    ensures (a + b) + c == a + (b + c)
  {
  }

  /** Queueing the next n bytes of range k. */
  lemma ProgressWithin(files: seq<seq<byte>>, ranges: seq<CopyRange>, k: nat, off: nat, n: nat)
    requires k < |ranges| && Present(files, ranges[k], ranges[k].begin + off + n)
    ensures FlatAddresses(ranges, k) + PartAddresses(ranges, k, off) + Addresses(ranges[k].destination + off, n)
         == FlatAddresses(ranges, k) + PartAddresses(ranges, k, off + n)
    ensures FlatData(files, ranges, k) + PartData(files, ranges, k, off)
              + files[ranges[k].file][ranges[k].begin + off..ranges[k].begin + off + n]
         == FlatData(files, ranges, k) + PartData(files, ranges, k, off + n)
  {
    hide FlatAddresses, FlatData, Addresses, RangeData;
    MorePieces(files, ranges[k], off, n);
    Associate(FlatAddresses(ranges, k), PartAddresses(ranges, k, off), Addresses(ranges[k].destination + off, n));
    Associate(FlatData(files, ranges, k), PartData(files, ranges, k, off),
              files[ranges[k].file][ranges[k].begin + off..ranges[k].begin + off + n]);
  }

  /** A range queued to its end is one more whole range. */
  lemma ProgressPast(t: TransferStream, files: seq<seq<byte>>, ranges: seq<CopyRange>, k: nat)
    requires k < |ranges| && ranges[k].begin < ranges[k].end
    requires k + 1 < |ranges| ==> ranges[k + 1].begin < ranges[k + 1].end
    requires Progress(t, files, ranges, k, ranges[k].end - ranges[k].begin)
    ensures Progress(t, files, ranges, k + 1, 0)
    ensures TotalBytes(ranges, k + 1) == TotalBytes(ranges, k) + (ranges[k].end - ranges[k].begin)
  {
    hide AllAddresses, AllData, FlatAddresses, FlatData, PartAddresses, PartData;
    WholeRange(files, ranges, k);
  }

  lemma WholeRange(files: seq<seq<byte>>, ranges: seq<CopyRange>, k: nat)
    requires k < |ranges| && ranges[k].begin < ranges[k].end
    ensures FlatAddresses(ranges, k + 1) + PartAddresses(ranges, k + 1, 0)
         == FlatAddresses(ranges, k) + PartAddresses(ranges, k, ranges[k].end - ranges[k].begin)
    ensures FlatData(files, ranges, k + 1) + PartData(files, ranges, k + 1, 0)
         == FlatData(files, ranges, k) + PartData(files, ranges, k, ranges[k].end - ranges[k].begin)
  {
    NothingOfNext(files, ranges, k + 1);
  }

  lemma NothingOfNext(files: seq<seq<byte>>, ranges: seq<CopyRange>, k: nat)
    ensures PartAddresses(ranges, k, 0) == [] && PartData(files, ranges, k, 0) == []
  {
  }

  /** The slot starts with the bytes [source, chunkEnd) of the file. */
  ghost predicate Loaded(t: TransferStream, slot: nat, file: seq<byte>, source: nat, chunkEnd: nat)
    reads t`slots
  {
    && slot < |t.slots| && source <= chunkEnd <= |file| && chunkEnd - source <= t.slotBytes
    && |t.slots[slot]| == t.slotBytes
    && t.slots[slot][..chunkEnd - source] == file[source..chunkEnd]
  }

  lemma LoadedFrom(t: TransferStream, slot: nat, file: seq<byte>, source: nat, received: nat)
    requires slot < |t.slots| && source + received <= |file| && received <= t.slotBytes == |t.slots[slot]|
    requires t.slots[slot][..received] == file[source..source + received]
    ensures Loaded(t, slot, file, source, source + received)
  {
  }

  /** The copies of one chunk: every piece of the span inside [source, chunkEnd), each once. */
  method UploadChunk(t: TransferStream, files: seq<seq<byte>>, ranges: seq<CopyRange>, file: nat, slot: nat,
                     source: nat, chunkEnd: nat, next: nat, ghost lo: nat, ghost hi: nat, ghost off: nat)
    returns (k: nat, copied: nat, ghost o: nat)
    requires t.Valid() && t.Fenced(slot) && InOrder(ranges)
    requires file < |files| && source < chunkEnd
    requires Loaded(t, slot, files[file], source, chunkEnd)
    requires Frontier(ranges, lo, hi, source, next, off) && Progress(t, files, ranges, next, off)
    requires forall i :: lo <= i < hi ==> ranges[i].file == file
    requires hi < |ranges| ==> ranges[hi].file > file || ranges[hi].begin >= chunkEnd
    requires forall i :: 0 <= i < |ranges| ==> ranges[i].destination + ranges[i].Bytes() <= |t.start|
    modifies t
    ensures t.Valid() && t.Fenced(slot) && |t.slots| == old(|t.slots|)
    ensures Frontier(ranges, lo, hi, chunkEnd, k, o) && Progress(t, files, ranges, k, o) && k <= |ranges|
    ensures TotalBytes(ranges, next) + off + copied == TotalBytes(ranges, k) + o
  {
    hide InOrder, FlatAddresses, FlatData, AllAddresses, AllData, StoreAll, After, PartAddresses, PartData, Progress,
         Loaded, TransferStream.Valid, TransferStream.Fenced, TotalBytes;
    k, copied, o := next, 0, off;
    while k < |ranges| && ranges[k].file == file && ranges[k].begin < chunkEnd
      invariant t.Valid() && t.Fenced(slot) && |t.slots| == old(|t.slots|)
      invariant Loaded(t, slot, files[file], source, chunkEnd)
      invariant lo <= k <= hi && forall i :: lo <= i < k ==> ranges[i].end <= chunkEnd
      invariant k < hi ==> ranges[k].end > source && o == Max(0, source - ranges[k].begin)
      invariant k == hi ==> o == 0
      invariant Progress(t, files, ranges, k, o)
      invariant TotalBytes(ranges, next) + off + copied == TotalBytes(ranges, k) + o
      decreases |ranges| - k
    {
      RangeNonempty(ranges, k);
      RangeAfter(ranges, k);
      var range := ranges[k];
      var begin: nat := Max(source, range.begin);
      var end: nat := Min(chunkEnd, range.end);
      assert k < hi && begin < end && o == begin - range.begin;
      if begin < end {
        UploadPiece(t, files, ranges, slot, source, chunkEnd, begin, end, k);
        copied := copied + (end - begin);
        o := o + (end - begin);
      }
      if range.end > chunkEnd { break; }
      ProgressPast(t, files, ranges, k);
      k, o := k + 1, 0;
    }
    if k < |ranges| { RangeNonempty(ranges, k); }
  }

  /** One asynchronous copy: the next bytes of range k, taken from the slot that holds the chunk. */
  method UploadPiece(t: TransferStream, files: seq<seq<byte>>, ranges: seq<CopyRange>, slot: nat,
                     source: nat, chunkEnd: nat, begin: nat, end: nat, k: nat)
    requires t.Valid() && t.Fenced(slot) && k < |ranges|
    requires ranges[k].begin <= begin < end <= ranges[k].end && source <= begin && end <= chunkEnd
    requires ranges[k].file < |files| && Loaded(t, slot, files[ranges[k].file], source, chunkEnd)
    requires Progress(t, files, ranges, k, begin - ranges[k].begin)
    requires ranges[k].destination + ranges[k].Bytes() <= |t.start|
    modifies t
    ensures t.Valid() && t.Fenced(slot) && t.slots == old(t.slots)
    ensures Loaded(t, slot, files[ranges[k].file], source, chunkEnd)
    ensures Progress(t, files, ranges, k, end - ranges[k].begin)
  {
    hide FlatAddresses, FlatData, AllAddresses, AllData, StoreAll, After, PartAddresses, PartData;
    var range := ranges[k];
    PieceOfSlot(t.slots[slot], files[range.file], source, chunkEnd, begin, end);
    ProgressWithin(files, ranges, k, begin - range.begin, end - begin);
    t.Enqueue(slot, begin - source, range.destination + (begin - range.begin), end - begin);
    t.Elapse(slot);
  }

  lemma PieceOfSlot(slot: seq<byte>, file: seq<byte>, source: nat, chunkEnd: nat, begin: nat, end: nat)
    requires source <= begin <= end <= chunkEnd <= |file| && chunkEnd - source <= |slot|
    requires slot[..chunkEnd - source] == file[source..chunkEnd]
    ensures slot[begin - source..end - source] == file[begin..end]
  {
    var a, b := slot[begin - source..end - source], file[begin..end];
    forall i | 0 <= i < |b| ensures a[i] == b[i] {
      assert slot[..chunkEnd - source][begin - source + i] == file[source..chunkEnd][begin - source + i];
    }
  }

  lemma RangeNonempty(ranges: seq<CopyRange>, k: nat)
    requires InOrder(ranges) && k < |ranges|
    ensures ranges[k].begin < ranges[k].end
  {
  }

  lemma RangeAfter(ranges: seq<CopyRange>, k: nat)
    requires InOrder(ranges) && k < |ranges|
    ensures k + 1 < |ranges| && ranges[k + 1].file == ranges[k].file ==> ranges[k].end <= ranges[k + 1].begin
    ensures k + 1 < |ranges| ==> ranges[k + 1].begin < ranges[k + 1].end
  {
  }

  // ----- The reads of a span

  /** A direct read: what it asks for, and what of that the ranges need. */
  datatype ReadRequest = ReadRequest(file: nat, offset: nat, request: nat, needed: nat)

  /** The read at source: a slot or, at the end, the aligned rest. */
  function NextRead(file: nat, source: nat, end: nat, slotBytes: nat): ReadRequest
    requires source < end
  {
    var request := Max(0, Min(slotBytes, AlignUp(end - source, PAYLOAD_ALIGNMENT)));
    ReadRequest(file, source, request, Min(request, end - source))
  }

  /** The reads from source to the end of a span, a slot at a time. */
  function ReadsFrom(file: nat, source: nat, end: nat, slotBytes: nat): seq<ReadRequest>
    requires slotBytes > 0
    decreases end - source
  {
    if source >= end then [] else
    [NextRead(file, source, end, slotBytes)] + ReadsFrom(file, source + slotBytes, end, slotBytes)
  }

  function SpanReads(s: ReadSpan, slotBytes: nat): seq<ReadRequest>
    requires slotBytes > 0
  {
    ReadsFrom(s.file, s.begin, s.end, slotBytes)
  }

  /** The reads of a span lie side by side: one begins where the one before needs no more, the first at the begin and
      the last up to the end of the span; each asks for whole blocks, no more than a slot and no more than it needs
      but for the rest of a block; and every one but the last fills its slot. */
  lemma {:induction false} ReadsTile(file: nat, source: nat, end: nat, slotBytes: nat, k: nat)
    requires slotBytes > 0 && slotBytes % PAYLOAD_ALIGNMENT == 0 && source < end
    ensures var asked := ReadsFrom(file, source, end, slotBytes);
            && asked != [] && asked[0].offset == source
            && asked[|asked| - 1].offset + asked[|asked| - 1].needed == end
            && (k < |asked| ==>
                  && asked[k].file == file && 0 < asked[k].needed <= asked[k].request <= slotBytes
                  && asked[k].request % PAYLOAD_ALIGNMENT == 0
                  && asked[k].request < asked[k].needed + PAYLOAD_ALIGNMENT)
            && (k + 1 < |asked| ==>
                  && asked[k].needed == slotBytes && asked[k + 1].offset == asked[k].offset + slotBytes)
    decreases end - source
  {
    AlignUpIsLeast(end - source, PAYLOAD_ALIGNMENT);
    LastRead(file, source, end, slotBytes);
    if source + slotBytes < end {
      ReadsTile(file, source + slotBytes, end, slotBytes, if k > 0 then k - 1 else 0);
    }
  }

  lemma LastRead(file: nat, source: nat, end: nat, slotBytes: nat)
    requires slotBytes > 0 && slotBytes % PAYLOAD_ALIGNMENT == 0 && source < end
    ensures var rest := ReadsFrom(file, source + slotBytes, end, slotBytes);
            && ReadsFrom(file, source, end, slotBytes) == [NextRead(file, source, end, slotBytes)] + rest
            && (rest == [] <==> source + slotBytes >= end)
    ensures var read := NextRead(file, source, end, slotBytes);
            && read.needed == (if end - source < slotBytes then end - source else slotBytes)
            && read.needed <= read.request <= slotBytes && read.request % PAYLOAD_ALIGNMENT == 0
            && read.request < read.needed + PAYLOAD_ALIGNMENT
  {
    AlignUpIsLeast(end - source, PAYLOAD_ALIGNMENT);
  }

  /** The reads of the first n spans. */
  function ReadsOf(spans: seq<ReadSpan>, slotBytes: nat, n: nat): seq<ReadRequest>
    requires slotBytes > 0 && n <= |spans|
  {
    if n == 0 then [] else ReadsOf(spans, slotBytes, n - 1) + SpanReads(spans[n - 1], slotBytes)
  }

  lemma {:induction false} ReadsOfPrefix(spans: seq<ReadSpan>, slotBytes: nat, i: nat, j: nat)
    requires slotBytes > 0 && i <= j <= |spans|
    ensures ReadsOf(spans, slotBytes, i) <= ReadsOf(spans, slotBytes, j)
  {
    if i < j { ReadsOfPrefix(spans, slotBytes, i, j - 1); }
  }

  /** The read gets what the ranges need of it. */
  predicate Suffices(files: seq<seq<byte>>, read: ReadRequest, limit: nat) {
    read.file < |files| && Received(|files[read.file]|, read.offset, read.request, limit) >= read.needed
  }

  /** The reads numbered from first on all get what is needed. */
  predicate AllSuffice(files: seq<seq<byte>>, asked: seq<ReadRequest>, limits: nat -> nat, first: nat) {
    forall i :: 0 <= i < |asked| ==> Suffices(files, asked[i], limits(first + i))
  }

  /** Some read the upload makes gets less than is needed; when the file is long enough, less than the system
      could have given. */
  ghost predicate SomeShort(files: seq<seq<byte>>, asked: seq<ReadRequest>, limits: nat -> nat, first: nat,
                            filled: bool)
  {
    exists i :: 0 <= i < |asked| && ShortAt(files, asked[i], limits(first + i), filled)
  }

  predicate ShortAt(files: seq<seq<byte>>, read: ReadRequest, limit: nat, filled: bool) {
    !Suffices(files, read, limit) && (filled ==> limit < read.needed)
  }

  /** The reads for a list of spans: the slots are no larger than what all spans need. */
  function PlannedReads(spans: seq<ReadSpan>): seq<ReadRequest> {
    var slotBytes := Min(SLOT_BYTES, AlignedBytes(spans, |spans|));
    if slotBytes == 0 then [] else ReadsOf(spans, slotBytes, |spans|)
  }

  /** The direct reads an upload of these ranges makes, in order. */
  function ReadPlan(given: seq<CopyRange>): seq<ReadRequest> {
    var ranges := Sort(RangeKey, given);
    PlannedReads(Merged(ranges, |ranges|))
  }

  lemma ReadOne(file: nat, source: nat, end: nat, slotBytes: nat, done: seq<ReadRequest>)
    requires slotBytes > 0 && source < end
    ensures done + ReadsFrom(file, source, end, slotBytes)
         == done + [NextRead(file, source, end, slotBytes)] + ReadsFrom(file, source + slotBytes, end, slotBytes)
  {
    var read, rest := NextRead(file, source, end, slotBytes), ReadsFrom(file, source + slotBytes, end, slotBytes);
    assert done + ([read] + rest) == (done + [read]) + rest;
  }

  lemma SufficeSnoc(files: seq<seq<byte>>, asked: seq<ReadRequest>, more: seq<ReadRequest>, limits: nat -> nat,
                    first: nat)
    requires AllSuffice(files, asked, limits, first) && AllSuffice(files, more, limits, first + |asked|)
    ensures AllSuffice(files, asked + more, limits, first)
  {
    hide Suffices;
    var all := asked + more;
    forall i | 0 <= i < |all| ensures Suffices(files, all[i], limits(first + i)) {
      if i >= |asked| { assert Suffices(files, more[i - |asked|], limits(first + |asked| + (i - |asked|))); }
    }
  }

  /** A short read among some of the reads is one among all. */
  lemma ShortAmong(files: seq<seq<byte>>, before: seq<ReadRequest>, asked: seq<ReadRequest>, all: seq<ReadRequest>,
                   limits: nat -> nat, filled: bool, present: bool)
    requires SomeShort(files, asked, limits, |before|, filled) && before + asked <= all && (present ==> filled)
    ensures SomeShort(files, all, limits, 0, present)
  {
    hide Suffices;
    var i :| 0 <= i < |asked| && ShortAt(files, asked[i], limits(|before| + i), filled);
    assert all[|before| + i] == (before + asked)[|before| + i] == asked[i];
    assert ShortAt(files, all[|before| + i], limits(0 + (|before| + i)), present);
  }

  /** The read numbered here failed. */
  lemma ShortHere(files: seq<seq<byte>>, done: seq<ReadRequest>, read: ReadRequest, rest: seq<ReadRequest>,
                  limits: nat -> nat, first: nat, filled: bool)
    requires ShortAt(files, read, limits(first + |done|), filled)
    ensures SomeShort(files, done + [read] + rest, limits, first, filled)
  {
    hide ShortAt;
    var all := done + [read] + rest;
    assert all[|done|] == read;
  }

  lemma SufficeOne(files: seq<seq<byte>>, read: ReadRequest, limits: nat -> nat, number: nat)
    requires Suffices(files, read, limits(number))
    ensures AllSuffice(files, [read], limits, number)
  {
  }

  /** A read that gets too little of a file that holds the span was cut short. */
  lemma CutShort(files: seq<seq<byte>>, read: ReadRequest, limit: nat, end: nat)
    requires read.file < |files| && read.offset < end && read.needed <= Min(read.request, end - read.offset)
    requires Received(|files[read.file]|, read.offset, read.request, limit) < read.needed
    ensures ShortAt(files, read, limit, end <= |files[read.file]|)
  {
  }

  // ----- One span

  lemma AlignUpFromAligned(source: nat, end: nat)
    requires source % PAYLOAD_ALIGNMENT == 0 && source <= end
    ensures source + AlignUp(end - source, PAYLOAD_ALIGNMENT) == AlignUp(end, PAYLOAD_ALIGNMENT)
    ensures AlignUp(end - source, PAYLOAD_ALIGNMENT) >= end - source
    ensures AlignUp(end - source, PAYLOAD_ALIGNMENT) % PAYLOAD_ALIGNMENT == 0
  {
  }

  /** At the end of the span every range of it is done. */
  lemma SpanDone(ranges: seq<CopyRange>, s: ReadSpan, lo: nat, hi: nat, reached: nat, k: nat, off: nat)
    requires InOrder(ranges) && Spans(ranges, s, lo, hi) && Frontier(ranges, lo, hi, reached, k, off)
    requires reached >= s.end
    ensures k == hi && off == 0
  {
    SpanEnds(ranges, s, lo, hi);
  }

  lemma SpanEnds(ranges: seq<CopyRange>, s: ReadSpan, lo: nat, hi: nat)
    requires InOrder(ranges) && Spans(ranges, s, lo, hi)
    ensures forall i :: lo <= i < hi ==> ranges[i].end <= s.end
  {
    forall i | lo <= i < hi ensures ranges[i].end <= s.end {
      if i < hi - 1 { assert ranges[i].end <= ranges[hi - 1].begin; }
    }
  }

  /** What is known between two chunks of a span. */
  ghost predicate Underway(ranges: seq<CopyRange>, s: ReadSpan, lo: nat, hi: nat, source: nat, k: nat, off: nat) {
    if source < s.end then Frontier(ranges, lo, hi, source, k, off) else k == hi && off == 0
  }

  lemma SpanStart(ranges: seq<CopyRange>, s: ReadSpan, lo: nat, hi: nat)
    requires InOrder(ranges) && Spans(ranges, s, lo, hi)
    ensures s.begin < s.end && Underway(ranges, s, lo, hi, s.begin, lo, 0)
  {
    assert lo < hi - 1 ==> ranges[lo].end <= ranges[hi - 1].begin;
    assert ranges[lo].begin < ranges[lo].end;
  }

  lemma SpanFacts(ranges: seq<CopyRange>, s: ReadSpan, lo: nat, hi: nat)
    requires Spans(ranges, s, lo, hi)
    ensures s.begin % PAYLOAD_ALIGNMENT == 0
    ensures lo < hi <= |ranges| && ranges[lo].file == s.file
    ensures forall i :: lo <= i < hi ==> ranges[i].file == s.file
    ensures hi < |ranges| ==>
              ranges[hi].file > s.file || ranges[hi].begin >= AlignUp(s.end, PAYLOAD_ALIGNMENT)
  {
  }

  lemma NoReads(files: seq<seq<byte>>, s: ReadSpan, slotBytes: nat, limits: nat -> nat, first: nat)
    requires slotBytes > 0
    ensures [] + ReadsFrom(s.file, s.begin, s.end, slotBytes) == SpanReads(s, slotBytes)
    ensures AllSuffice(files, [], limits, first)
    ensures forall source, asked :: source >= s.end ==> asked + ReadsFrom(s.file, source, s.end, slotBytes) == asked
  {
  }

  /** Waits for the slot and reads the next chunk of the span into it. */
  method ReadChunk(t: TransferStream, files: seq<seq<byte>>, s: ReadSpan, slot: nat, source: nat, limit: nat,
                   noise: nat -> byte)
    returns (r: Result<nat>)
    requires t.Valid() && t.Fenced(-1) && slot < |t.slots| && 0 < t.slotBytes <= SLOT_BYTES
             && t.slotBytes % PAYLOAD_ALIGNMENT == 0
    requires s.file < |files| && source < s.end && source % PAYLOAD_ALIGNMENT == 0
    modifies t`slots, t`done, t`device, t`pending, t`clock
    ensures t.Valid() && t.Fenced(-1) && |t.slots| == old(|t.slots|)
    ensures r.Ok? ==>
              && t.Fenced(slot) && Loaded(t, slot, files[s.file], source, source + r.value)
              && 0 < Min(t.slotBytes, s.end - source) <= r.value <= t.slotBytes
                 && source + r.value <= AlignUp(s.end, PAYLOAD_ALIGNMENT)
              && Suffices(files, NextRead(s.file, source, s.end, t.slotBytes), limit)
    ensures r.Err? ==> ShortAt(files, NextRead(s.file, source, s.end, t.slotBytes), limit, s.end <= |files[s.file]|)
  {
    hide Loaded, TransferStream.Valid, TransferStream.Fenced, TransferStream.Idle, StoreAll, After, AlignUp;
    t.Wait(slot);
    t.Elapse(-1);
    var remaining := s.end - source;
    AlignUpFromAligned(source, s.end);
    var request: nat := Min(t.slotBytes, AlignUp(remaining, PAYLOAD_ALIGNMENT));
    var read := t.ReadDirect(slot, files[s.file], source, request, limit, noise);
    if read.Err? {
      // The unaligned direct read error of the program.
      assert false;
      return Err(ArtifactError);
    }
    var received := read.value;
    if received < Min(request, remaining) {
      CutShort(files, NextRead(s.file, source, s.end, t.slotBytes), limit, s.end);
      return Err(ArtifactError);
    }
    LoadedFrom(t, slot, files[s.file], source, received);
    r := Ok(received);
  }

  /** The chunks of one span: wait for the next slot, read, queue the copies, record the event. */
  method UploadSpan(t: TransferStream, files: seq<seq<byte>>, ranges: seq<CopyRange>, s: ReadSpan, firstSlot: nat,
                    lo: nat, limits: nat -> nat, noise: nat -> byte, ghost hi: nat)
    returns (r: Result<nat>, nextSlot: nat, k: nat)
    requires t.Valid() && t.Fenced(-1) && |t.slots| > 0
    requires 0 < t.slotBytes <= SLOT_BYTES && t.slotBytes % PAYLOAD_ALIGNMENT == 0
    requires InOrder(ranges) && Spans(ranges, s, lo, hi) && s.file < |files|
    requires Progress(t, files, ranges, lo, 0)
    requires forall i :: 0 <= i < |ranges| ==> ranges[i].destination + ranges[i].Bytes() <= |t.start|
    modifies t
    ensures t.Valid() && t.Fenced(-1) && |t.slots| == old(|t.slots|)
    ensures r.Ok? ==> k == hi && Progress(t, files, ranges, hi, 0)
                      && TotalBytes(ranges, lo) + r.value == TotalBytes(ranges, hi)
    ensures r.Ok? ==> nextSlot == firstSlot + |SpanReads(s, t.slotBytes)|
                      && AllSuffice(files, SpanReads(s, t.slotBytes), limits, firstSlot)
    ensures r.Err? ==> SomeShort(files, SpanReads(s, t.slotBytes), limits, firstSlot, s.end <= |files[s.file]|)
  {
    hide InOrder, Spans, Frontier, Progress, TotalBytes, Loaded, TransferStream.Valid, TransferStream.Fenced,
         TransferStream.Idle, StoreAll, After, ReadsFrom, AllSuffice, SomeShort, ShortAt, Suffices, NextRead,
         SpanReads, AlignUp;
    SpanFacts(ranges, s, lo, hi);
    SpanStart(ranges, s, lo, hi);
    nextSlot, k := firstSlot, lo;
    var copied: nat := 0;
    ghost var off: nat := 0;
    ghost var asked: seq<ReadRequest> := [];
    var source := s.begin;
    NoReads(files, s, t.slotBytes, limits, firstSlot);
    while source < s.end
      invariant asked + ReadsFrom(s.file, source, s.end, t.slotBytes) == SpanReads(s, t.slotBytes)
      invariant nextSlot == firstSlot + |asked| && AllSuffice(files, asked, limits, firstSlot)
      invariant t.Valid() && t.Fenced(-1) && |t.slots| == old(|t.slots|)
      invariant source % PAYLOAD_ALIGNMENT == 0
      invariant Underway(ranges, s, lo, hi, source, k, off) && Progress(t, files, ranges, k, off)
      invariant k <= |ranges| && TotalBytes(ranges, lo) + copied == TotalBytes(ranges, k) + off
    {
      var slot, number := nextSlot % |t.slots|, nextSlot;
      nextSlot := nextSlot + 1;
      ghost var read', rest := NextRead(s.file, source, s.end, t.slotBytes),
                               ReadsFrom(s.file, source + t.slotBytes, s.end, t.slotBytes);
      ReadOne(s.file, source, s.end, t.slotBytes, asked);
      var read := ReadChunk(t, files, s, slot, source, limits(number), noise);
      if read.Err? {
        ShortHere(files, asked, read', rest, limits, firstSlot, s.end <= |files[s.file]|);
        return Err(read.error), nextSlot, k;
      }
      SufficeOne(files, read', limits, number);
      SufficeSnoc(files, asked, [read'], limits, firstSlot);
      asked := asked + [read'];
      var chunkEnd := source + read.value;
      var n;
      k, n, off := UploadChunk(t, files, ranges, s.file, slot, source, chunkEnd, k, lo, hi, off);
      copied := copied + n;
      t.Record(slot);
      t.Elapse(-1);
      AlignedSum(source, t.slotBytes, PAYLOAD_ALIGNMENT);
      if source + t.slotBytes >= s.end { SpanDone(ranges, s, lo, hi, chunkEnd, k, off); }
      source := source + t.slotBytes;
    }
    r := Ok(copied);
  }

  // ----- All spans

  function Weight(r: CopyRange): nat { Max(0, r.Bytes()) }

  lemma {:induction false} TotalIsSum(ranges: seq<CopyRange>, k: nat)
    requires k <= |ranges|
    ensures TotalBytes(ranges, k) == SumBy(Weight, ranges[..k])
  {
    if k > 0 {
      TotalIsSum(ranges, k - 1);
      assert ranges[..k] == ranges[..k - 1] + [ranges[k - 1]];
      SumByConcat(Weight, ranges[..k - 1], [ranges[k - 1]]);
    }
  }

  /** Sorting the ranges does not change how many bytes they hold. */
  lemma TotalOfSorted(ranges: seq<CopyRange>)
    ensures |Sort(RangeKey, ranges)| == |ranges|
    ensures TotalBytes(Sort(RangeKey, ranges), |ranges|) == TotalBytes(ranges, |ranges|)
  {
    var sorted := Sort(RangeKey, ranges);
    SortCorrect(RangeKey, ranges);
    SortSum(RangeKey, Weight, ranges);
    TotalIsSum(ranges, |ranges|);
    TotalIsSum(sorted, |sorted|);
    assert ranges[..|ranges|] == ranges && sorted[..|sorted|] == sorted;
  }

  /** Destinations of two ranges do not overlap. */
  predicate DestinationsApart(a: CopyRange, b: CopyRange) {
    a.destination + Weight(a) <= b.destination || b.destination + Weight(b) <= a.destination
  }

  /** The destination of the range holds its source bytes. */
  ghost predicate Landed(device: seq<byte>, files: seq<seq<byte>>, r: CopyRange) {
    && Present(files, r, r.end) && r.begin <= r.end && r.destination + Weight(r) <= |device|
    && device[r.destination..r.destination + Weight(r)] == files[r.file][r.begin..r.end]
  }

  predicate Inside(r: CopyRange, y: nat) { r.destination <= y < r.destination + Weight(r) }

  /** A list of stores does what the ranges ask for: every range lands, nothing else changes. */
  ghost predicate UploadedFirst(before: seq<byte>, device: seq<byte>, files: seq<seq<byte>>, ranges: seq<CopyRange>,
                                k: nat)
  {
    && k <= |ranges| && |device| == |before|
    && (forall i :: 0 <= i < k ==> Landed(device, files, ranges[i]))
    && (forall y :: 0 <= y < |before| && (forall i :: 0 <= i < k ==> !Inside(ranges[i], y)) ==> device[y] == before[y])
  }

  ghost predicate Uploaded(before: seq<byte>, device: seq<byte>, files: seq<seq<byte>>, ranges: seq<CopyRange>) {
    UploadedFirst(before, device, files, ranges, |ranges|)
  }

  /** A store of one more piece leaves the earlier pieces where they are. */
  lemma StorePiece(device: seq<byte>, r: CopyRange, data: seq<byte>)
    requires |data| == Weight(r) && r.destination + Weight(r) <= |device|
    ensures var after := StoreAll(device, Addresses(r.destination, Weight(r)), data);
            && after[r.destination..r.destination + Weight(r)] == data
            && forall y :: 0 <= y < |device| && !Inside(r, y) ==> after[y] == device[y]
  {
    hide StoreAll;
    var addresses := Addresses(r.destination, Weight(r));
    var after := StoreAll(device, addresses, data);
    forall y | 0 <= y < |device| && !Inside(r, y) ensures after[y] == device[y] {
      StoreElsewhere(device, addresses, data, y);
    }
    forall i | 0 <= i < |data| ensures after[r.destination + i] == data[i] {
      StoreLands(device, addresses, data, i);
      assert addresses[i] == r.destination + i;
    }
  }

  lemma KeepsLanded(before: seq<byte>, after: seq<byte>, files: seq<seq<byte>>, a: CopyRange, b: CopyRange)
    requires Landed(before, files, a) && DestinationsApart(a, b) && |before| == |after|
    requires forall y :: 0 <= y < |before| && !Inside(b, y) ==> after[y] == before[y]
    ensures Landed(after, files, a)
  {
    assert after[a.destination..a.destination + Weight(a)] == before[a.destination..a.destination + Weight(a)];
  }

  /** The flat stores land every range, whatever the order, when no two destinations overlap. */
  lemma {:induction false} FlatUploads(memory: seq<byte>, files: seq<seq<byte>>, ranges: seq<CopyRange>, k: nat)
    requires k <= |ranges| && Pairwise(DestinationsApart, ranges)
    requires forall i :: 0 <= i < |ranges| ==>
               Present(files, ranges[i], ranges[i].end) && ranges[i].begin <= ranges[i].end
    requires forall i :: 0 <= i < |ranges| ==> ranges[i].destination + Weight(ranges[i]) <= |memory|
    ensures |FlatAddresses(ranges, k)| == |FlatData(files, ranges, k)|
    ensures UploadedFirst(memory, StoreAll(memory, FlatAddresses(ranges, k), FlatData(files, ranges, k)), files,
                          ranges, k)
  {
    hide StoreAll, UploadedFirst, FlatAddresses, FlatData, Pairwise;
    if k == 0 {
      FlatStart(memory, files, ranges);
    } else {
      FlatUploads(memory, files, ranges, k - 1);
      FlatStep(memory, files, ranges, k);
    }
  }

  lemma FlatStart(memory: seq<byte>, files: seq<seq<byte>>, ranges: seq<CopyRange>)
    ensures |FlatAddresses(ranges, 0)| == |FlatData(files, ranges, 0)|
    ensures UploadedFirst(memory, StoreAll(memory, FlatAddresses(ranges, 0), FlatData(files, ranges, 0)), files,
                          ranges, 0)
  {
  }

  lemma FlatStep(memory: seq<byte>, files: seq<seq<byte>>, ranges: seq<CopyRange>, k: nat)
    requires 0 < k <= |ranges| && Pairwise(DestinationsApart, ranges)
    requires Present(files, ranges[k - 1], ranges[k - 1].end) && ranges[k - 1].begin <= ranges[k - 1].end
    requires ranges[k - 1].destination + Weight(ranges[k - 1]) <= |memory|
    requires |FlatAddresses(ranges, k - 1)| == |FlatData(files, ranges, k - 1)|
    requires UploadedFirst(memory, StoreAll(memory, FlatAddresses(ranges, k - 1), FlatData(files, ranges, k - 1)),
                           files, ranges, k - 1)
    ensures |FlatAddresses(ranges, k)| == |FlatData(files, ranges, k)|
    ensures UploadedFirst(memory, StoreAll(memory, FlatAddresses(ranges, k), FlatData(files, ranges, k)), files,
                          ranges, k)
  {
    hide StoreAll, Landed;
    var r := ranges[k - 1];
    var data := files[r.file][r.begin..r.end];
    assert RangeData(files, r, Weight(r)) == data;
    var device := StoreAll(memory, FlatAddresses(ranges, k - 1), FlatData(files, ranges, k - 1));
    StoreConcat(memory, FlatAddresses(ranges, k - 1), FlatData(files, ranges, k - 1),
                Addresses(r.destination, Weight(r)), data);
    StorePiece(device, r, data);
    var after := StoreAll(device, Addresses(r.destination, Weight(r)), data);
    LandedFrom(after, files, r);
    forall i | 0 <= i < k - 1 ensures Landed(after, files, ranges[i]) {
      KeepsLanded(device, after, files, ranges[i], r);
    }
  }

  lemma LandedFrom(device: seq<byte>, files: seq<seq<byte>>, r: CopyRange)
    requires Present(files, r, r.end) && r.begin <= r.end && r.destination + Weight(r) <= |device|
    requires device[r.destination..r.destination + Weight(r)] == files[r.file][r.begin..r.end]
    ensures Landed(device, files, r)
  {
  }

  /** What the upload is told about a range. */
  ghost predicate Fit(r: CopyRange, fileCount: nat, memory: nat) {
    r.begin < r.end && r.file < fileCount && r.destination + r.Bytes() <= memory
  }

  lemma SortedFits(given: seq<CopyRange>, fileCount: nat, memory: nat)
    requires forall i :: 0 <= i < |given| ==> Fit(given[i], fileCount, memory)
    ensures var ranges := Sort(RangeKey, given); forall i :: 0 <= i < |ranges| ==> Fit(ranges[i], fileCount, memory)
  {
    var ranges := Sort(RangeKey, given);
    forall i | 0 <= i < |ranges| ensures Fit(ranges[i], fileCount, memory) {
      SortElements(RangeKey, given, ranges[i]);
    }
  }

  /** What the sorted ranges upload, the given ones do. */
  lemma SortedUploads(given: seq<CopyRange>, files: seq<seq<byte>>, memory: seq<byte>, device: seq<byte>)
    requires forall i :: 0 <= i < |given| ==> Fit(given[i], |files|, |memory|)
    requires Pairwise(DestinationsApart, given)
    requires var ranges := Sort(RangeKey, given);
             && (forall i :: 0 <= i < |ranges| ==> Present(files, ranges[i], ranges[i].end))
             && |FlatAddresses(ranges, |ranges|)| == |FlatData(files, ranges, |ranges|)|
             && device == StoreAll(memory, FlatAddresses(ranges, |ranges|), FlatData(files, ranges, |ranges|))
    ensures Uploaded(memory, device, files, given)
  {
    hide StoreAll, FlatAddresses, FlatData, Landed, Sort, Pairwise, Inside;
    var ranges := Sort(RangeKey, given);
    SortPairwise(RangeKey, DestinationsApart, given);
    SortedFits(given, |files|, |memory|);
    FlatUploads(memory, files, ranges, |ranges|);
    forall i | 0 <= i < |given| ensures Landed(device, files, given[i]) {
      SortElements(RangeKey, given, given[i]);
      var k :| 0 <= k < |ranges| && ranges[k] == given[i];
      assert Landed(device, files, ranges[k]);
    }
    forall y | 0 <= y < |memory| && (forall i :: 0 <= i < |given| ==> !Inside(given[i], y))
      ensures device[y] == memory[y]
    {
      forall k | 0 <= k < |ranges| ensures !Inside(ranges[k], y) {
        SortElements(RangeKey, given, ranges[k]);
        var i :| 0 <= i < |given| && given[i] == ranges[k];
        assert !Inside(given[i], y);
      }
    }
  }

  /** The bytes the direct reads will ask for, with its overflow checks. */
  method SumAligned(spans: seq<ReadSpan>) returns (r: Result<nat>)
    requires forall j :: 0 <= j < |spans| ==> spans[j].begin < spans[j].end
    ensures r.Ok? ==> r.value == AlignedBytes(spans, |spans|) <= SIZE_MAX
    ensures r.Ok? && spans != [] ==> r.value > 0
    ensures r.Ok? ==> r.value % PAYLOAD_ALIGNMENT == 0
    ensures r.Err? ==> AlignedBytes(spans, |spans|) > SIZE_MAX
  {
    hide AlignUp;
    var aligned: nat := 0;
    for j := 0 to |spans|
      invariant aligned == AlignedBytes(spans, j) <= SIZE_MAX && aligned % PAYLOAD_ALIGNMENT == 0
      invariant j > 0 ==> aligned > 0
    {
      AlignedBytesGrow(spans, j + 1, |spans|);
      AlignUpIsLeast(spans[j].end - spans[j].begin, PAYLOAD_ALIGNMENT);
      var bytes := CheckedAlign(spans[j].end - spans[j].begin);
      AlignOverflow(spans[j].end - spans[j].begin);
      if bytes.Err? { return Err(ArtifactError); }
      if CheckedAdd(aligned, bytes.value).Err? { return Err(ArtifactError); }
      AlignedSum(aligned, bytes.value, PAYLOAD_ALIGNMENT);
      aligned := aligned + bytes.value;
    }
    r := Ok(aligned);
  }

  lemma AlignOverflow(value: nat)
    ensures CheckedAlign(value).Err? ==> AlignUp(value, PAYLOAD_ALIGNMENT) > SIZE_MAX
  {
  }

  lemma {:induction false} AlignedBytesGrow(spans: seq<ReadSpan>, i: nat, j: nat)
    requires i <= j <= |spans|
    ensures AlignedBytes(spans, i) <= AlignedBytes(spans, j)
  {
    if i < j { AlignedBytesGrow(spans, i, j - 1); }
  }

  lemma PartitionStep(ranges: seq<CopyRange>, spans: seq<ReadSpan>, cuts: seq<nat>, j: nat)
    requires InOrder(ranges) && Partition(ranges, spans, cuts) && j < |spans|
    ensures Spans(ranges, spans[j], cuts[j], cuts[j + 1]) && cuts[j] < cuts[j + 1] <= |ranges|
    ensures ranges[cuts[j + 1] - 1].file == spans[j].file && ranges[cuts[j + 1] - 1].end == spans[j].end
    ensures spans[j].begin < spans[j].end
  {
    SpanStart(ranges, spans[j], cuts[j], cuts[j + 1]);
  }

  lemma NoneQueued(t: TransferStream, files: seq<seq<byte>>, ranges: seq<CopyRange>)
    requires t.queue == [] && t.intents == []
    requires forall i :: 0 <= i < |ranges| ==> ranges[i].begin < ranges[i].end
    ensures Progress(t, files, ranges, 0, 0)
  {
  }

  lemma AllQueued(t: TransferStream, files: seq<seq<byte>>, ranges: seq<CopyRange>)
    requires Progress(t, files, ranges, |ranges|, 0)
    ensures AllAddresses(t.queue) == FlatAddresses(ranges, |ranges|)
    ensures AllData(t.intents) == FlatData(files, ranges, |ranges|)
    ensures forall i :: 0 <= i < |ranges| ==> Present(files, ranges[i], ranges[i].end)
  {
  }

  lemma SlotSize(aligned: nat)
    requires aligned > 0 && aligned % PAYLOAD_ALIGNMENT == 0
    ensures Min(SLOT_BYTES, aligned) > 0 && Min(SLOT_BYTES, aligned) % PAYLOAD_ALIGNMENT == 0
    ensures 1 + (aligned - 1) / Min(SLOT_BYTES, aligned) > 0
  {
  }

  /** The slots, the spans, the waits at the end, and the completeness check that never fires. */
  method UploadSpans(ranges: seq<CopyRange>, spans: seq<ReadSpan>, files: seq<seq<byte>>, memory: seq<byte>, total: nat,
                     schedule: nat -> nat, limits: nat -> nat, noise: nat -> byte, ghost cuts: seq<nat>)
    returns (r: Result<seq<byte>>)
    requires ranges != [] && InOrder(ranges) && Partition(ranges, spans, cuts)
    requires forall i :: 0 <= i < |ranges| ==> Fit(ranges[i], |files|, |memory|)
    requires total == TotalBytes(ranges, |ranges|)
    ensures r.Ok? ==>
              && (forall i :: 0 <= i < |ranges| ==> Present(files, ranges[i], ranges[i].end))
              && |FlatAddresses(ranges, |ranges|)| == |FlatData(files, ranges, |ranges|)|
              && r.value == StoreAll(memory, FlatAddresses(ranges, |ranges|), FlatData(files, ranges, |ranges|))
    ensures r.Ok? ==> AlignedBytes(spans, |spans|) <= SIZE_MAX && AllSuffice(files, PlannedReads(spans), limits, 0)
    ensures r.Err? ==>
              || AlignedBytes(spans, |spans|) > SIZE_MAX
              || SomeShort(files, PlannedReads(spans), limits, 0, AllPresent(files, ranges))
  {
    hide InOrder, Progress, Present, Spans, TotalBytes, FlatAddresses, FlatData, AllAddresses, AllData, StoreAll, After,
         AlignedBytes, TransferStream.Valid, TransferStream.Fenced, TransferStream.Idle, SpanReads, AllSuffice,
         SomeShort, AllPresent, Sort;
    forall j | 0 <= j < |spans| ensures spans[j].begin < spans[j].end { PartitionStep(ranges, spans, cuts, j); }
    var aligned := SumAligned(spans);
    if aligned.Err? { return Err(ArtifactError); }
    SlotSize(aligned.value);
    var slotBytes: nat := Min(SLOT_BYTES, aligned.value);
    var slotCount: nat := Min(MAXIMUM_SLOT_COUNT, 1 + (aligned.value - 1) / slotBytes);
    var t := new TransferStream(slotCount, slotBytes, memory, schedule);
    var nextSlot, nextRange, copied := 0, 0, 0;
    NoneQueued(t, files, ranges);
    NothingCopied(ranges);
    ghost var all := PlannedReads(spans);
    NothingAsked(files, limits);
    for j := 0 to |spans|
      invariant nextSlot == |ReadsOf(spans, slotBytes, j)|
      invariant AllSuffice(files, ReadsOf(spans, slotBytes, j), limits, 0)
      invariant fresh(t) && t.Valid() && t.Fenced(-1) && |t.slots| == slotCount
      invariant nextRange == cuts[j] <= |ranges| && Progress(t, files, ranges, nextRange, 0)
      invariant copied == TotalBytes(ranges, nextRange)
    {
      PartitionStep(ranges, spans, cuts, j);
      var n;
      n, nextSlot, nextRange :=
        UploadSpan(t, files, ranges, spans[j], nextSlot, nextRange, limits, noise, cuts[j + 1]);
      ghost var asked := SpanReads(spans[j], slotBytes);
      if n.Err? {
        SpanPresent(files, ranges, cuts[j + 1] - 1);
        ReadsOfPrefix(spans, slotBytes, j + 1, |spans|);
        ShortAmong(files, ReadsOf(spans, slotBytes, j), asked, all, limits, spans[j].end <= |files[spans[j].file]|,
                   AllPresent(files, ranges));
        return Err(ArtifactError);
      }
      SufficeSnoc(files, ReadsOf(spans, slotBytes, j), asked, limits, 0);
      copied := copied + n.value;
    }
    for i := 0 to slotCount
      invariant t.Valid() && t.Fenced(-1) && |t.slots| == slotCount
      invariant Progress(t, files, ranges, |ranges|, 0)
    {
      t.Wait(i);
    }
    t.Finish();
    if copied != total || nextRange != |ranges| {
      // The incomplete device upload error of the program.
      assert false;
      return Err(ArtifactError);
    }
    AllQueued(t, files, ranges);
    r := Ok(t.device);
  }

  lemma NothingCopied(ranges: seq<CopyRange>)
    ensures TotalBytes(ranges, 0) == 0
  {
  }

  /** Every file reaches to the end of every range of it. */
  ghost predicate AllPresent(files: seq<seq<byte>>, ranges: seq<CopyRange>) {
    forall i :: 0 <= i < |ranges| ==> Present(files, ranges[i], ranges[i].end)
  }

  lemma SpanPresent(files: seq<seq<byte>>, ranges: seq<CopyRange>, i: nat)
    requires i < |ranges|
    ensures AllPresent(files, ranges) ==>
              ranges[i].file < |files| && ranges[i].end <= |files[ranges[i].file]|
  {
  }

  lemma NothingAsked(files: seq<seq<byte>>, limits: nat -> nat)
    ensures AllSuffice(files, [], limits, 0)
  {
  }

  /** The whole upload, for any schedule of the stream and any point at which reads are cut short. */
  method UploadRanges(given: seq<CopyRange>, files: seq<seq<byte>>, memory: seq<byte>, total: nat,
                schedule: nat -> nat, limits: nat -> nat, noise: nat -> byte)
    returns (r: Result<seq<byte>>)
    requires forall i :: 0 <= i < |given| ==> Fit(given[i], |files|, |memory|)
    requires Pairwise(DestinationsApart, given)
    requires total == TotalBytes(given, |given|)
    ensures r.Ok? ==> Uploaded(memory, r.value, files, given)
    ensures r.Ok? ==> InOrder(Sort(RangeKey, given)) && AllSuffice(files, ReadPlan(given), limits, 0)
    ensures r.Err? ==>
              || !InOrder(Sort(RangeKey, given))
              || (exists i :: 0 <= i < |given| && CheckedAlign(given[i].end).Err?)
              || total + MERGE_COST * |given| > SIZE_MAX
              || SomeShort(files, ReadPlan(given), limits, 0, AllPresent(files, given))
  {
    hide PlannedReads, AllSuffice, SomeShort, AllPresent, Merged, Sort, Sorted, InOrder, Partition, Uploaded,
      TotalBytes, AlignedBytes, StoreAll, FlatAddresses, FlatData, Pairwise, Present, CheckedAlign;
    if given == [] {
      NothingToUpload(memory, files);
      NothingAsked(files, limits);
      return Ok(memory);
    }
    var ranges := Sort(RangeKey, given);
    SortCorrect(RangeKey, given);
    SortedFits(given, |files|, |memory|);
    TotalOfSorted(given);
    var spans, cuts := MergeSpans(ranges);
    AmongGiven(given, files);
    PresentSorted(given, files);
    if spans.Err? { return Err(spans.error); }
    r := UploadSpans(ranges, spans.value, files, memory, total, schedule, limits, noise, cuts);
    if r.Ok? { SortedUploads(given, files, memory, r.value); }
  }

  lemma NothingToUpload(memory: seq<byte>, files: seq<seq<byte>>)
    ensures Uploaded(memory, memory, files, []) && InOrder(Sort(RangeKey, [])) && ReadPlan([]) == []
  {
  }

  lemma PresentSorted(given: seq<CopyRange>, files: seq<seq<byte>>)
    ensures AllPresent(files, given) <==> AllPresent(files, Sort(RangeKey, given))
  {
    hide Sort, Present;
    var ranges := Sort(RangeKey, given);
    forall x ensures x in given <==> x in ranges { SortElements(RangeKey, given, x); }
    forall i | 0 <= i < |given| ensures AllPresent(files, ranges) ==> Present(files, given[i], given[i].end) {
      assert given[i] in ranges;
    }
    forall i | 0 <= i < |ranges| ensures AllPresent(files, given) ==> Present(files, ranges[i], ranges[i].end) {
      assert ranges[i] in given;
    }
  }

  lemma AmongGiven(given: seq<CopyRange>, files: seq<seq<byte>>)
    ensures var ranges := Sort(RangeKey, given);
            forall i :: 0 <= i < |ranges| ==> exists k :: 0 <= k < |given| && given[k] == ranges[i]
  {
    var ranges := Sort(RangeKey, given);
    forall i | 0 <= i < |ranges| ensures exists k :: 0 <= k < |given| && given[k] == ranges[i] {
      SortElements(RangeKey, given, ranges[i]);
    }
  }
}
