/** Laying a payload out over size-limited files, writing them, and opening them again. */
module Shards {
  import opened Common
  import opened Payload

  const LIMIT: nat := 32_000_000_000
  const CHUNK: nat := 8 * 1024 * 1024

  // ----- Layout

  /** The remaining payload cut into parts of at most capacity bytes. */
  function Parts(remaining: nat, capacity: nat): (ps: seq<nat>)
    requires capacity > 0
    ensures forall i :: 0 <= i < |ps| ==> 0 < ps[i] <= capacity
    ensures remaining == 0 <==> ps == []
  {
    if remaining == 0 then [] else
    var count: nat := Min(remaining, capacity);
    [count] + Parts(remaining - count, capacity)
  }

  const PART_CAPACITY: nat := (LIMIT - 4096) / 4096 * 4096

  /** Bytes of payload in the entry file when it does not hold everything; Python's floor division. */
  function FirstBytes(start: nat): int {
    (LIMIT - start) / 4096 * 4096
  }

  /** The file list for metadata that ends at start; None when the metadata leaves no room. */
  function FilesFor(start: nat, payload: nat): Option<seq<nat>> {
    if start + payload <= LIMIT then Some([payload])
    else if FirstBytes(start) <= 0 then None
    else Some([FirstBytes(start)] + Parts(payload - FirstBytes(start), PART_CAPACITY))
  }

  lemma FirstBytesBound(start: nat)
    ensures FirstBytes(start) <= LIMIT - start
    ensures FirstBytes(start) > 0 ==> start < LIMIT
    ensures FirstBytes(start) > LIMIT - start - 4096
    ensures FirstBytes(start) > 0 <==> start <= LIMIT - 4096
  {
  }

  /** Every part but the last is as large as a part can be. */
  lemma {:induction false} PartsFull(remaining: nat, capacity: nat)
    requires capacity > 0
    ensures forall i :: 0 <= i < |Parts(remaining, capacity)| - 1 ==> Parts(remaining, capacity)[i] == capacity
    decreases remaining
  {
    if remaining > 0 {
      var count: nat := Min(remaining, capacity);
      PartsFull(remaining - count, capacity);
    }
  }

  lemma {:induction false} PartsSum(remaining: nat, capacity: nat)
    requires capacity > 0
    ensures SumOf(Parts(remaining, capacity)) == remaining
    decreases remaining
  {
    hide SumOf;
    SumNothing();
    if remaining > 0 {
      var count: nat := Min(remaining, capacity);
      PartsSum(remaining - count, capacity);
      SumConcat([count], Parts(remaining - count, capacity));
      SumOne(count);
    }
  }

  /** One file if it can hold everything; no list exactly when that fails and not even a block of payload fits behind
      the metadata. */
  lemma FilesForExists(start: nat, payload: nat)
    ensures FilesFor(start, payload).Some? <==> start + payload <= LIMIT || start <= LIMIT - 4096
    ensures FilesFor(start, payload).Some? ==>
              (|FilesFor(start, payload).value| == 1 <==> start + payload <= LIMIT)
  {
    FirstBytesBound(start);
  }

  /** The file list covers the payload with nonempty files that all stay within the limit, and every file but the last
      is full to within one block of it. */
  lemma FilesForCorrect(start: nat, payload: nat)
    requires payload > 0 && FilesFor(start, payload).Some?
    ensures var files := FilesFor(start, payload).value;
            && (|files| > 1 ==> start + files[0] > LIMIT - 4096)
            && (forall i :: 1 <= i < |files| - 1 ==> 4096 + files[i] > LIMIT - 4096)
    ensures var files := FilesFor(start, payload).value;
            && files != [] && SumOf(files) == payload
            && (forall i :: 0 <= i < |files| ==> files[i] > 0)
            && start + files[0] <= LIMIT
            && (forall i :: 1 <= i < |files| ==> 4096 + files[i] <= LIMIT)
  {
    if start + payload <= LIMIT {
      SumOne(payload);
    } else {
      FirstBytesBound(start);
      PartsFull(payload - FirstBytes(start), PART_CAPACITY);
      PartsSum(payload - FirstBytes(start), PART_CAPACITY);
      SumConcat([FirstBytes(start)], Parts(payload - FirstBytes(start), PART_CAPACITY));
      SumOne(FirstBytes(start));
    }
  }

  datatype Layout = Layout(data: seq<byte>, start: nat, files: seq<nat>)

  function Blanks(n: nat): (bs: seq<byte>)
    ensures |bs| == n && forall i :: 0 <= i < n ==> bs[i] == 32
  {
    seq(n, _ => 32)
  }

  /** A layout is settled when the directory that describes it fits the space it reserves. */
  ghost predicate Settled(serialize: seq<nat> -> seq<byte>, payload: nat, l: Layout) {
    && l.start % 4096 == 0 && l.start >= 4096
    && FilesFor(l.start, payload) == Some(l.files)
    && |serialize(l.files)| <= l.start - 32
    && l.data == serialize(l.files) + Blanks(l.start - 32 - |serialize(l.files)|)
  }

  /** The directory for the file list of this start fits in front of it. */
  ghost predicate Fits(serialize: seq<nat> -> seq<byte>, payload: nat, start: nat) {
    FilesFor(start, payload).Some? && 32 + |serialize(FilesFor(start, payload).value)| <= start
  }

  /** The starts that are tried: one block, and then each time what the directory for the start before needs. */
  ghost function StartTried(serialize: seq<nat> -> seq<byte>, payload: nat, n: nat): Option<nat> {
    if n == 0 then Some(4096) else
    var before := StartTried(serialize, payload, n - 1);
    if before.None? || FilesFor(before.value, payload).None? then None
    else Some(AlignUp(32 + |serialize(FilesFor(before.value, payload).value)|, 4096))
  }

  /** The n-th start, and none before it fits. */
  ghost predicate FirstTried(serialize: seq<nat> -> seq<byte>, payload: nat, n: nat, start: nat) {
    && StartTried(serialize, payload, n) == Some(start)
    && forall m :: 0 <= m < n ==> StartTried(serialize, payload, m).Some?
                                  && !Fits(serialize, payload, StartTried(serialize, payload, m).value)
  }

  lemma TriedStart(serialize: seq<nat> -> seq<byte>, payload: nat)
    ensures FirstTried(serialize, payload, 0, 4096)
  {
  }

  lemma TriedNext(serialize: seq<nat> -> seq<byte>, payload: nat, n: nat, start: nat)
    requires FirstTried(serialize, payload, n, start) && FilesFor(start, payload).Some?
    requires 32 + |serialize(FilesFor(start, payload).value)| > start
    ensures FirstTried(serialize, payload, n + 1, AlignUp(32 + |serialize(FilesFor(start, payload).value)|, 4096))
  {
    hide FilesFor, AlignUp;
  }

  /** A start that leaves the entry file room for a block of payload. */
  predicate Roomy(start: nat) {
    4096 <= start <= LIMIT - 4096 && start % 4096 == 0
  }

  lemma RoomLeft(start: nat, payload: nat)
    requires start <= LIMIT - 4096
    ensures FilesFor(start, payload).Some?
  {
  }

  /** The directory for this start is too long for any start with room. */
  ghost predicate Overflows(serialize: seq<nat> -> seq<byte>, payload: nat, start: nat)
    requires Roomy(start)
  {
    RoomLeft(start, payload);
    32 + |serialize(FilesFor(start, payload).value)| > LIMIT - 4096
  }

  /** No directory the layout can produce for this payload is that long. */
  ghost predicate RoomFor(serialize: seq<nat> -> seq<byte>, payload: nat) {
    forall start :: Roomy(start) ==> !Overflows(serialize, payload, start)
  }

  /** The reserve grows until the serialized directory fits.  It ends for every serializer: the
      reserve strictly grows and stays below the limit, or some directory leaves no room. */
  method LayOut(serialize: seq<nat> -> seq<byte>, payload: nat) returns (r: Result<Layout>)
    requires payload > 0
    ensures r.Ok? ==> Settled(serialize, payload, r.value)
    ensures r.Ok? ==> exists n: nat :: FirstTried(serialize, payload, n, r.value.start)
    ensures RoomFor(serialize, payload) ==> r.Ok?
    ensures r.Err? ==> exists start :: Roomy(start) && Overflows(serialize, payload, start)
    ensures r.Err? ==>
              exists n: nat, start :: FirstTried(serialize, payload, n, start) && FilesFor(start, payload).None?
  {
    hide FirstTried, AlignUp, FilesFor;
    TriedStart(serialize, payload);
    var reserve: nat := 4096 - 32;
    ghost var tried: nat := 0;
    while true
      invariant (reserve + 32) % 4096 == 0 && reserve + 32 >= 4096
      invariant FirstTried(serialize, payload, tried, reserve + 32)
      invariant Roomy(reserve + 32) || exists start :: Roomy(start) && Overflows(serialize, payload, start)
      decreases LIMIT + 4096 - reserve
    {
      var start := reserve + 32;
      var files := FilesFor(start, payload);
      if start <= LIMIT - 4096 { RoomLeft(start, payload); }
      if files.None? { return Err(InvalidArgument); }
      FilesForExists(start, payload);
      var data := serialize(files.value);
      if |data| <= reserve {
        return Ok(Layout(data + Blanks(reserve - |data|), start, files.value));
      }
      AlignUpIsLeast(32 + |data|, 4096);
      TriedNext(serialize, payload, tried, start);
      assert Overflows(serialize, payload, start) || Roomy(AlignUp(32 + |data|, 4096));
      reserve, tried := AlignUp(32 + |data|, 4096) - 32, tried + 1;
    }
  }

  lemma {:induction false} PartsCount(remaining: nat, capacity: nat)
    requires capacity > 0
    ensures |Parts(remaining, capacity)| * capacity < remaining + capacity
    decreases remaining
  {
    if remaining > 0 {
      var count: nat := Min(remaining, capacity);
      PartsCount(remaining - count, capacity);
      var rest := |Parts(remaining - count, capacity)|;
      assert |Parts(remaining, capacity)| == rest + 1;
      assert (rest + 1) * capacity == rest * capacity + capacity;
      if count == remaining { assert rest == 0; }
    }
  }

  /** A continuation holds close to the limit, so there are few of them. */
  lemma FilesForCount(start: nat, payload: nat)
    requires FilesFor(start, payload).Some?
    ensures |FilesFor(start, payload).value| <= payload / PART_CAPACITY + 2
  {
    if start + payload > LIMIT {
      var rest := payload - FirstBytes(start);
      PartsCount(rest, PART_CAPACITY);
    }
  }

  lemma {:induction false} PartAtMostSum(sizes: seq<nat>, i: nat)
    requires i < |sizes|
    ensures sizes[i] <= SumOf(sizes)
  {
    SumStep(sizes, i);
    SumMonotone(sizes, i + 1, |sizes|);
    assert sizes[..|sizes|] == sizes;
  }

  /** There is room whenever the directory grows by a bounded number of bytes a file, as it does with
      sizes written out in decimal. */
  lemma ShortDirectoriesFit(serialize: seq<nat> -> seq<byte>, payload: nat, fixed: nat, each: nat)
    requires payload > 0
    requires forall files :: (forall n :: n in files ==> n <= payload) ==> |serialize(files)| <= fixed + each * |files|
    requires 32 + fixed + each * (payload / PART_CAPACITY + 2) <= LIMIT - 4096
    ensures RoomFor(serialize, payload)
  {
    forall start | Roomy(start) ensures !Overflows(serialize, payload, start) {
      RoomLeft(start, payload);
      var files := FilesFor(start, payload).value;
      FilesForCorrect(start, payload);
      FilesForCount(start, payload);
      forall n | n in files ensures n <= payload {
        var i :| 0 <= i < |files| && files[i] == n;
        PartAtMostSum(files, i);
      }
      MulMonotone(|files|, payload / PART_CAPACITY + 2, each);
      assert each * |files| == |files| * each;
      assert each * (payload / PART_CAPACITY + 2) == (payload / PART_CAPACITY + 2) * each;
    }
  }

  // ----- Headers

  function Pow256(k: nat): nat {
    if k == 0 then 1 else 256 * Pow256(k - 1)
  }

  /** k bytes, least significant first. */
  function LittleEndian(n: nat, k: nat): (bs: seq<byte>)
    ensures |bs| == k
  {
    if k == 0 then [] else [n % 256] + LittleEndian(n / 256, k - 1)
  }

  function FromLittleEndian(bs: seq<byte>): nat {
    if bs == [] then 0 else bs[0] + 256 * FromLittleEndian(bs[1..])
  }

  lemma {:induction false} LittleEndianRoundTrip(n: nat, k: nat)
    requires n < Pow256(k)
    ensures FromLittleEndian(LittleEndian(n, k)) == n
  {
    if k > 0 {
      LittleEndianRoundTrip(n / 256, k - 1);
      assert LittleEndian(n, k)[1..] == LittleEndian(n / 256, k - 1);
    }
  }

  lemma U64RoundTrip(n: nat)
    requires n <= SIZE_MAX
    ensures FromLittleEndian(LittleEndian(n, 8)) == n
  {
    Powers();
    LittleEndianRoundTrip(n, 8);
  }

  lemma Powers()
    ensures Pow256(0) == 1 && Pow256(1) == 0x100 && Pow256(2) == 0x1_0000 && Pow256(3) == 0x100_0000
    ensures Pow256(4) == 0x1_0000_0000 && Pow256(5) == 0x100_0000_0000 && Pow256(6) == 0x1_0000_0000_0000
    ensures Pow256(7) == 0x100_0000_0000_0000 && Pow256(8) == 0x1_0000_0000_0000_0000
  {
    assert Pow256(4) == 0x1_0000_0000;
    assert Pow256(6) == 0x1_0000_0000_0000;
    assert Pow256(8) == 0x1_0000_0000_0000_0000;
  }

  /** The byte at place i counts multiples of 256 to the power i. */
  lemma {:induction false} LittleEndianBytes(n: nat, k: nat, i: nat)
    requires i < k
    ensures Pow256(i) > 0 && LittleEndian(n, k)[i] == n / Pow256(i) % 256
  {
    hide LittleEndian, Pow256;
    LittleEndianStep(n, k, i);
    if i > 0 {
      LittleEndianBytes(n / 256, k - 1, i - 1);
      DivideTwice(n, 256, Pow256(i - 1));
    }
  }

  lemma LittleEndianStep(n: nat, k: nat, i: nat)
    requires i < k
    ensures i == 0 ==> Pow256(0) == 1 && LittleEndian(n, k)[0] == n % 256
    ensures i > 0 ==> Pow256(i) == 256 * Pow256(i - 1) && LittleEndian(n, k)[i] == LittleEndian(n / 256, k - 1)[i - 1]
  {
  }

  lemma DivideTwice(n: nat, a: nat, b: nat)
    requires a > 0 && b > 0
    ensures a * b > 0 && n / a / b == n / (a * b)
  {
    Quotient(n, a);
    Quotient(n / a, b);
    NestedQuotient(n, a, b, n / a / b, n / a % b, n % a);
  }

  lemma Quotient(n: nat, d: nat)
    requires d > 0
    ensures n == n / d * d + n % d && n % d < d
  {
  }

  lemma NestedQuotient(n: nat, a: nat, b: nat, q: nat, rest: nat, r: nat)
    requires n == (q * b + rest) * a + r && rest < b && r < a
    ensures a * b > 0 && n / (a * b) == q
  {
    Regroup(q, b, rest, a);
    Below(rest, b, r, a);
    MultipleDiv(q, a * b, rest * a + r);
  }

  lemma Below(rest: nat, b: nat, r: nat, a: nat)
    requires rest < b && r < a
    ensures rest * a + r < a * b
  {
    MulMonotone(rest + 1, b, a);
    MulSum(rest, 1, a);
  }

  lemma Regroup(q: nat, b: nat, rest: nat, a: nat)
    ensures (q * b + rest) * a == q * (a * b) + rest * a
    ensures a * b == b * a
  {
    MulSum(q * b, rest, a);
    assert q * b * a == q * (b * a);
  }

  /** The number that eight bytes stand for. */
  lemma U64Value(bs: seq<byte>)
    requires |bs| == 8
    ensures var b: seq<int> := bs;
            FromLittleEndian(bs) == b[0] + b[1] * 0x100 + b[2] * 0x1_0000 + b[3] * 0x100_0000 + b[4] * 0x1_0000_0000
              + b[5] * 0x100_0000_0000 + b[6] * 0x1_0000_0000_0000 + b[7] * 0x100_0000_0000_0000
  {
    FourBytes(bs);
    FourBytes(bs[4..]);
    assert bs[4..][4..] == [] && FromLittleEndian([]) == 0;
  }

  lemma FourBytes(bs: seq<byte>)
    requires |bs| >= 4
    ensures var b: seq<int> := bs;
            FromLittleEndian(bs) == b[0] + b[1] * 0x100 + b[2] * 0x1_0000 + b[3] * 0x100_0000
              + 0x1_0000_0000 * FromLittleEndian(bs[4..])
  {
    assert bs[1..][1..] == bs[2..] && bs[2..][1..] == bs[3..] && bs[3..][1..] == bs[4..];
    assert FromLittleEndian(bs[1..]) == bs[1] as int + 256 * FromLittleEndian(bs[2..]);
    assert FromLittleEndian(bs[2..]) == bs[2] as int + 256 * FromLittleEndian(bs[3..]);
    assert FromLittleEndian(bs[3..]) == bs[3] as int + 256 * FromLittleEndian(bs[4..]);
  }

  /** Writing the number read from some bytes gives the bytes. */
  lemma {:induction false} BytesRoundTrip(bs: seq<byte>)
    ensures LittleEndian(FromLittleEndian(bs), |bs|) == bs
  {
    if bs != [] {
      BytesRoundTrip(bs[1..]);
      MultipleDiv(FromLittleEndian(bs[1..]), 256, bs[0]);
    }
  }

  const ENTRY_MAGIC: seq<byte> := [78, 73, 78, 70, 69, 82, 0, 3]
  const PART_MAGIC: seq<byte> := [78, 73, 78, 80, 82, 84, 0, 3]

  /** Magic, one number, sixteen bytes of identity. */
  function Header(magic: seq<byte>, n: nat, id: seq<byte>): (h: seq<byte>)
    requires |magic| == 8 && |id| == 16
    ensures |h| == 32
  {
    magic + LittleEndian(n, 8) + id
  }

  lemma HeaderFields(magic: seq<byte>, n: nat, id: seq<byte>, rest: seq<byte>)
    requires |magic| == 8 && |id| == 16 && n <= SIZE_MAX
    ensures var f := Header(magic, n, id) + rest;
            f[..8] == magic && FromLittleEndian(f[8..16]) == n && f[16..32] == id
  {
    var f := Header(magic, n, id) + rest;
    assert f[8..16] == LittleEndian(n, 8);
    U64RoundTrip(n);
  }

  /** The first 32 bytes of a file: a magic, a number with its least significant byte first, an identity. */
  ghost predicate Headed(file: seq<byte>, magic: seq<byte>, n: nat, id: seq<byte>) {
    && |file| >= 32 && file[..8] == magic && file[16..32] == id
    && n < Pow256(8) && forall k :: 0 <= k < 8 ==> file[8 + k] == n / Pow256(k) % 256
  }

  lemma HeaderHeads(magic: seq<byte>, n: nat, id: seq<byte>, rest: seq<byte>)
    requires |magic| == 8 && |id| == 16 && n <= SIZE_MAX
    ensures Headed(Header(magic, n, id) + rest, magic, n, id)
  {
    hide LittleEndian, Pow256;
    Powers();
    HeaderFields(magic, n, id, rest);
    var f := Header(magic, n, id) + rest;
    forall k | 0 <= k < 8 ensures f[8 + k] == n / Pow256(k) % 256 {
      LittleEndianBytes(n, 8, k);
      assert f[8 + k] == LittleEndian(n, 8)[k];
    }
  }

  /** A file is headed by the number that its bytes are read as, and by no other. */
  lemma HeadedNumber(file: seq<byte>, magic: seq<byte>, n: nat, id: seq<byte>)
    ensures Headed(file, magic, n, id) <==>
              |file| >= 32 && file[..8] == magic && file[16..32] == id && FromLittleEndian(file[8..16]) == n
  {
    hide LittleEndian, Pow256;
    Powers();
    if |file| >= 32 {
      var bs := file[8..16];
      U64Value(bs);
      BytesRoundTrip(bs);
      if n <= SIZE_MAX {
        forall k | 0 <= k < 8 ensures LittleEndian(n, 8)[k] == n / Pow256(k) % 256 { LittleEndianBytes(n, 8, k); }
        if Headed(file, magic, n, id) {
          forall k | 0 <= k < 8 ensures bs[k] == LittleEndian(n, 8)[k] { assert bs[k] == file[8 + k]; }
          assert bs == LittleEndian(n, 8);
          U64RoundTrip(n);
        } else if FromLittleEndian(bs) == n {
          forall k | 0 <= k < 8 ensures file[8 + k] == n / Pow256(k) % 256 { assert bs[k] == file[8 + k]; }
        }
      }
    }
  }

  // ----- Writing

  function Zeros(n: nat): (bs: seq<byte>)
    ensures |bs| == n && forall i :: 0 <= i < n ==> bs[i] == 0
  {
    seq(n, _ => 0)
  }

  /** The payload to be written: source, zero padding up to the template, template. */
  function Logical(source: seq<byte>, template: seq<byte>): seq<byte> {
    source + Zeros(AlignUp(|source|, 256) - |source|) + template
  }

  lemma LogicalLength(source: seq<byte>, template: seq<byte>)
    ensures AlignUp(|source|, 256) >= |source|
    ensures |Logical(source, template)| == AlignUp(|source|, 256) + |template|
  {
    AlignUpIsLeast(|source|, 256);
  }

  /** The next chunk at the cursor, cut from whichever of the three regions the cursor is in.  The
      source may return fewer bytes than asked for, but not none. */
  method NextChunk(source: seq<byte>, template: seq<byte>, cursor: nat, remaining: nat, readSize: nat -> nat)
    returns (chunk: seq<byte>)
    requires 0 < remaining && cursor + remaining <= |Logical(source, template)|
    ensures 0 < |chunk| <= remaining
    ensures chunk == Logical(source, template)[cursor..cursor + |chunk|]
  {
    hide Logical, AlignUp;
    LogicalLength(source, template);
    var templateOffset := AlignUp(|source|, 256);
    if cursor < |source| {
      var most := Min(Min(remaining, CHUNK), |source| - cursor);
      var count := Max(1, Min(readSize(cursor), most));
      chunk := source[cursor..cursor + count];
      SourceSlice(source, template, cursor, count);
    } else if cursor < templateOffset {
      chunk := Zeros(Min(remaining, templateOffset - cursor));
      PaddingSlice(source, template, cursor, |chunk|);
    } else {
      var begin := cursor - templateOffset;
      chunk := template[begin..Min(begin + Min(remaining, CHUNK), |template|)];
      TemplateSlice(source, template, begin, |chunk|);
    }
  }

  lemma SourceSlice(source: seq<byte>, template: seq<byte>, cursor: nat, n: nat)
    requires cursor + n <= |source|
    ensures cursor + n <= |Logical(source, template)|
    ensures Logical(source, template)[cursor..cursor + n] == source[cursor..cursor + n]
  {
    SliceOfMiddle([], source, Logical(source, template), cursor, n);
  }

  lemma PaddingSlice(source: seq<byte>, template: seq<byte>, cursor: nat, n: nat)
    requires |source| <= cursor && cursor + n <= AlignUp(|source|, 256)
    ensures cursor + n <= |Logical(source, template)|
    ensures Logical(source, template)[cursor..cursor + n] == Zeros(n)
  {
    var zeros := Zeros(AlignUp(|source|, 256) - |source|);
    SliceOfMiddle(source, zeros, Logical(source, template), cursor - |source|, n);
    assert Zeros(n) == zeros[cursor - |source|..cursor - |source| + n];
  }

  lemma TemplateSlice(source: seq<byte>, template: seq<byte>, begin: nat, n: nat)
    requires begin + n <= |template|
    ensures var at := AlignUp(|source|, 256) + begin;
            at + n <= |Logical(source, template)| && Logical(source, template)[at..at + n] == template[begin..begin + n]
  {
    LogicalLength(source, template);
    var front := source + Zeros(AlignUp(|source|, 256) - |source|);
    SliceOfMiddle(front, template, Logical(source, template), begin, n);
  }

  /** One file: its header and metadata, zeros up to the start, then its share of the payload. */
  method WriteFile(front: seq<byte>, start: nat, payloadBytes: nat, cursor: nat, source: seq<byte>,
                   template: seq<byte>, readSize: nat -> nat)
    returns (file: seq<byte>, next: nat)
    requires |front| <= start && cursor + payloadBytes <= |Logical(source, template)|
    ensures next == cursor + payloadBytes
    ensures file == front + Zeros(start - |front|) + Logical(source, template)[cursor..next]
  {
    ghost var all := Logical(source, template);
    file := front + Zeros(start - |front|);
    ghost var head := file;
    var remaining := payloadBytes;
    next := cursor;
    while remaining != 0
      invariant 0 <= remaining <= payloadBytes && next + remaining == cursor + payloadBytes
      invariant file == head + all[cursor..next]
    {
      var chunk := NextChunk(source, template, next, remaining, readSize);
      assert all[cursor..next + |chunk|] == all[cursor..next] + chunk;
      file := file + chunk;
      next := next + |chunk|;
      remaining := remaining - |chunk|;
    }
  }

  /** Header and metadata of file i. */
  function FrontOf(l: Layout, id: seq<byte>, i: nat): seq<byte>
    requires |id| == 16
  {
    if i == 0 then Header(ENTRY_MAGIC, |l.data|, id) + l.data else Header(PART_MAGIC, i, id)
  }

  lemma WrittenNow(l: Layout, id: seq<byte>, all: seq<byte>, file: seq<byte>, i: nat)
    requires i < |l.files| && |id| == 16 && SumOf(l.files) == |all|
    requires SumOf(l.files[..i]) + l.files[i] <= |all|
    requires var front := FrontOf(l, id, i);
             var start := if i == 0 then l.start else 4096;
             var begin := SumOf(l.files[..i]);
             |front| <= start && file == front + Zeros(start - |front|) + all[begin..begin + l.files[i]]
    ensures WrittenAt(l, id, all, file, i)
  {
  }

  /** What file i of a written set looks like. */
  ghost predicate WrittenAt(l: Layout, id: seq<byte>, all: seq<byte>, file: seq<byte>, i: nat)
    requires i < |l.files| && |id| == 16 && SumOf(l.files) == |all|
  {
    SumMonotone(l.files, i + 1, |l.files|);
    SumStep(l.files, i);
    assert l.files[..|l.files|] == l.files;
    var begin := SumOf(l.files[..i]);
    var front := FrontOf(l, id, i);
    var start := if i == 0 then l.start else 4096;
    |front| <= start && file == front + Zeros(start - |front|) + all[begin..begin + l.files[i]]
  }

  ghost predicate Written(l: Layout, id: seq<byte>, all: seq<byte>, files: seq<seq<byte>>) {
    && |id| == 16 && SumOf(l.files) == |all| && |files| == |l.files|
    && forall i :: 0 <= i < |files| ==> WrittenAt(l, id, all, files[i], i)
  }

  /** The write loop of the upgrade: every file in turn, one cursor over the payload. */
  method WriteFiles(l: Layout, id: seq<byte>, source: seq<byte>, template: seq<byte>, readSize: nat -> nat)
    returns (files: seq<seq<byte>>)
    requires |id| == 16 && SumOf(l.files) == |Logical(source, template)|
    requires |l.data| + 32 == l.start
    ensures Written(l, id, Logical(source, template), files)
  {
    hide WrittenAt, Logical, Header, LittleEndian, SumOf;
    ghost var all := Logical(source, template);
    files := [];
    var cursor: nat := 0;
    assert l.files[..0] == [] && l.files[..|l.files|] == l.files;
    SumNothing();
    for index := 0 to |l.files|
      invariant cursor == SumOf(l.files[..index]) <= |all|
      invariant |files| == index
      invariant forall i :: 0 <= i < index ==> WrittenAt(l, id, all, files[i], i)
    {
      SumMonotone(l.files, index + 1, |l.files|);
      SumStep(l.files, index);
      var front := FrontOf(l, id, index);
      var start := if index == 0 then l.start else 4096;
      var file, next := WriteFile(front, start, l.files[index], cursor, source, template, readSize);
      WrittenNow(l, id, all, file, index);
      files := files + [file];
      cursor := next;
    }
  }

  // ----- Opening

  /** The continuation checks: magic, index, identity and length. */
  predicate PartAccepted(d: Directory, id: seq<byte>, file: seq<byte>, index: nat) {
    && index < |d.files|
    && |file| >= 32
    && file[..8] == PART_MAGIC
    && FromLittleEndian(file[8..16]) == index
    && file[16..32] == id
    && |file| == PAYLOAD_ALIGNMENT + d.files[index].payloadBytes
  }

  /** Opening an entry and its continuations: every check of the reader, in order. */
  function Open(files: seq<seq<byte>>, parse: seq<byte> -> Option<seq<nat>>): Result<Directory> {
    if files == [] || |files[0]| < HEADER_BYTES then Err(ArtifactError) else
    var entry := files[0];
    if entry[..8] != ENTRY_MAGIC then Err(ArtifactError) else
    var length := FromLittleEndian(entry[8..16]);
    if length == 0 || length > |entry| - HEADER_BYTES then Err(ArtifactError) else
    var sizes := parse(entry[HEADER_BYTES..HEADER_BYTES + length]);
    if sizes.None? then Err(ArtifactError) else
    var d :- DirectoryOf(sizes.value, AlignUp(HEADER_BYTES + length, PAYLOAD_ALIGNMENT));
    if |entry| != d.entryPayloadStart + d.files[0].payloadBytes || !LengthsChecked(d) then Err(ArtifactError) else
    if |files| != |d.files| || exists i :: 1 <= i < |files| && !PartAccepted(d, entry[16..32], files[i], i) then
      Err(ArtifactError)
    else Ok(d)
  }

  /** What the reader demands, in terms of the bytes: an entry headed by the length of its directory, a directory that
      lists exactly these files with the lengths they have, and continuations headed by their own number and the
      identity of the entry. */
  ghost predicate Opens(files: seq<seq<byte>>, parse: seq<byte> -> Option<seq<nat>>, length: nat, d: Directory) {
    && files != [] && |files[0]| >= 32
    && var id := files[0][16..32];
       && Headed(files[0], ENTRY_MAGIC, length, id) && 0 < length <= |files[0]| - 32
       && parse(files[0][32..32 + length]) == Some(Sizes(d))
       && WellFormed(d) && d.entryPayloadStart % 4096 == 0 && 32 + length <= d.entryPayloadStart < 32 + length + 4096
       && Sound(d, files) && SumOf(Lengths(files)) <= SIZE_MAX
       && forall i :: 1 <= i < |files| ==> Headed(files[i], PART_MAGIC, i, id)
  }

  function Lengths(files: seq<seq<byte>>): (ns: seq<nat>)
    ensures |ns| == |files| && forall i :: 0 <= i < |files| ==> ns[i] == |files[i]|
  {
    seq(|files|, i requires 0 <= i < |files| => |files[i]|)
  }

  /** The bytes of all files: the entry's front, a block for every continuation, and the payload. */
  lemma {:induction false} LengthsSum(d: Directory, files: seq<seq<byte>>, n: nat)
    requires Sound(d, files) && 0 < n <= |files|
    ensures SumOf(Lengths(files)[..n]) == d.entryPayloadStart + (n - 1) * PAYLOAD_ALIGNMENT + SumOf(Sizes(d)[..n])
  {
    hide SumOf;
    SumStep(Lengths(files), n - 1);
    SumStep(Sizes(d), n - 1);
    if n == 1 {
      assert Lengths(files)[..0] == [] && Sizes(d)[..0] == [];
      SumNothing();
    } else {
      LengthsSum(d, files, n - 1);
    }
  }

  /** The reader's checked sums fit exactly when all file bytes together are a 64-bit number. */
  lemma ChecksFileBytes(d: Directory, files: seq<seq<byte>>)
    requires Sound(d, files) && d.entryPayloadStart >= PAYLOAD_ALIGNMENT
    ensures LengthsChecked(d) <==> SumOf(Lengths(files)) <= SIZE_MAX
  {
    LengthsSum(d, files, |files|);
    assert Lengths(files)[..|files|] == Lengths(files) && Sizes(d)[..|files|] == Sizes(d);
  }

  /** Opening succeeds exactly when the bytes meet the demands for some length and directory, and gives that
      directory. */
  lemma OpensExactly(files: seq<seq<byte>>, parse: seq<byte> -> Option<seq<nat>>)
    ensures Open(files, parse).Ok? <==> exists length, d :: Opens(files, parse, length, d)
    ensures forall length, d :: Opens(files, parse, length, d) ==> Open(files, parse) == Ok(d)
  {
    hide Sound, WellFormed, SumOf, Opens, Open;
    if Open(files, parse).Ok? {
      var length := OpenMeets(files, parse);
      assert Opens(files, parse, length, Open(files, parse).value);
    }
    forall length, d | Opens(files, parse, length, d) ensures Open(files, parse) == Ok(d) {
      MeetsOpen(files, parse, length, d);
    }
  }

  lemma OpenMeets(files: seq<seq<byte>>, parse: seq<byte> -> Option<seq<nat>>) returns (length: nat)
    requires Open(files, parse).Ok?
    ensures Opens(files, parse, length, Open(files, parse).value)
  {
    hide SumOf, Headed, FromLittleEndian, AlignUp;
    OpenedIsSound(files, parse);
    var d := Open(files, parse).value;
    length := FromLittleEndian(files[0][8..16]);
    AlignUpIsLeast(32 + length, PAYLOAD_ALIGNMENT);
    DirectoryOfWellFormed(parse(files[0][32..32 + length]).value, AlignUp(32 + length, PAYLOAD_ALIGNMENT));
    HeadedNumber(files[0], ENTRY_MAGIC, length, files[0][16..32]);
    ChecksFileBytes(d, files);
    forall i | 1 <= i < |files| ensures Headed(files[i], PART_MAGIC, i, files[0][16..32]) {
      HeadedNumber(files[i], PART_MAGIC, i, files[0][16..32]);
    }
  }

  lemma MeetsOpen(files: seq<seq<byte>>, parse: seq<byte> -> Option<seq<nat>>, length: nat, d: Directory)
    requires Opens(files, parse, length, d)
    ensures Open(files, parse) == Ok(d)
  {
    hide SumOf, Headed, FromLittleEndian, AlignUp;
    var id := files[0][16..32];
    HeadedNumber(files[0], ENTRY_MAGIC, length, id);
    AlignUpIsLeast(32 + length, PAYLOAD_ALIGNMENT);
    SameBlock(32 + length, d.entryPayloadStart);
    ChecksFileBytes(d, files);
    forall i | 1 <= i < |files| ensures PartAccepted(d, id, files[i], i) {
      HeadedNumber(files[i], PART_MAGIC, i, id);
    }
  }

  lemma SameBlock(n: nat, start: nat)
    requires start % 4096 == 0 && n <= start < n + 4096
    ensures start == AlignUp(n, 4096)
  {
  }

  /** Whatever the reader opens is as long, file by file, as its directory says. */
  lemma OpenedIsSound(files: seq<seq<byte>>, parse: seq<byte> -> Option<seq<nat>>)
    requires Open(files, parse).Ok?
    ensures Sound(Open(files, parse).value, files) && LengthsChecked(Open(files, parse).value)
  {
    var length := FromLittleEndian(files[0][8..16]);
    DirectoryOfWellFormed(parse(files[0][HEADER_BYTES..HEADER_BYTES + length]).value,
                          AlignUp(HEADER_BYTES + length, PAYLOAD_ALIGNMENT));
  }

  /** The directory that describes a written set. */
  function DirectoryFor(l: Layout): Directory {
    Directory(RecordsOf(l.files), SumOf(l.files), l.start)
  }

  /** The shape of one written file: fixed front, zeros, then its slice of the payload. */
  lemma WrittenShape(l: Layout, id: seq<byte>, all: seq<byte>, files: seq<seq<byte>>, i: nat)
    requires Written(l, id, all, files) && i < |files| && l.start >= 4096
    ensures SumOf(l.files[..i]) + l.files[i] <= |all|
    ensures |files[i]| == (if i == 0 then l.start else 4096) + l.files[i]
    ensures files[i][(if i == 0 then l.start else 4096)..] == all[SumOf(l.files[..i])..SumOf(l.files[..i]) + l.files[i]]
    ensures i == 0 ==> files[0][..32] == Header(ENTRY_MAGIC, |l.data|, id)
    ensures i == 0 ==> |l.data| + 32 <= |files[0]| && files[0][32..32 + |l.data|] == l.data
    ensures i > 0 ==> files[i][..32] == Header(PART_MAGIC, i, id)
  {
    SumMonotone(l.files, i + 1, |l.files|);
    SumStep(l.files, i);
    assert l.files[..|l.files|] == l.files;
    assert WrittenAt(l, id, all, files[i], i);
    var front := if i == 0 then Header(ENTRY_MAGIC, |l.data|, id) + l.data else Header(PART_MAGIC, i, id);
    var start := if i == 0 then l.start else 4096;
    FrontAndRest(files[i], front, Zeros(start - |front|),
                 all[SumOf(l.files[..i])..SumOf(l.files[..i]) + l.files[i]]);
    if i == 0 {
      assert front[..32] == Header(ENTRY_MAGIC, |l.data|, id) && front[32..] == l.data;
      assert files[0][..32] == front[..32] && files[0][32..|front|] == front[32..];
    }
  }

  lemma FrontAndRest(file: seq<byte>, front: seq<byte>, gap: seq<byte>, rest: seq<byte>)
    requires file == front + gap + rest
    ensures file[..|front|] == front && file[|front| + |gap|..] == rest
  {
  }

  lemma WrittenFacts(l: Layout, id: seq<byte>, all: seq<byte>, files: seq<seq<byte>>)
    requires Written(l, id, all, files)
    ensures |id| == 16 && SumOf(l.files) == |all| && |files| == |l.files|
  {
  }

  /** A written set has the lengths its directory demands, and holds the payload. */
  lemma WrittenIsSound(l: Layout, id: seq<byte>, all: seq<byte>, files: seq<seq<byte>>)
    requires Written(l, id, all, files) && l.start >= 4096
    requires WellFormed(DirectoryFor(l))
    ensures Sound(DirectoryFor(l), files)
    ensures Whole(DirectoryFor(l), files) == all
  {
    hide WrittenAt, Written, SumOf, PayloadOf;
    WrittenFacts(l, id, all, files);
    var d := DirectoryFor(l);
    assert Sizes(d) == l.files;
    forall i | 0 <= i < |files| ensures |files[i]| == StartOf(d, i) + d.files[i].payloadBytes {
      WrittenShape(l, id, all, files, i);
    }
    WrittenPayload(l, id, all, files, |files|);
    assert l.files[..|l.files|] == l.files;
  }

  /** The payload part of one written file. */
  lemma WrittenPart(l: Layout, id: seq<byte>, all: seq<byte>, files: seq<seq<byte>>, i: nat)
    requires Written(l, id, all, files) && l.start >= 4096 && i < |files| && i < |l.files|
    ensures SumOf(l.files[..i + 1]) == SumOf(l.files[..i]) + l.files[i] <= |all|
    ensures PartOf(DirectoryFor(l), files, i) == all[SumOf(l.files[..i])..SumOf(l.files[..i]) + l.files[i]]
  {
    hide WrittenAt, Written, SumOf, Header;
    WrittenShape(l, id, all, files, i);
    SumStep(l.files, i);
  }

  lemma {:induction false} WrittenPayload(l: Layout, id: seq<byte>, all: seq<byte>, files: seq<seq<byte>>, n: nat)
    requires Written(l, id, all, files) && l.start >= 4096 && n <= |files|
    ensures SumOf(l.files[..n]) <= |all|
    ensures PayloadOf(DirectoryFor(l), files, n) == all[..SumOf(l.files[..n])]
  {
    hide WrittenAt, Written, SumOf, PartOf, DirectoryFor;
    WrittenFacts(l, id, all, files);
    if n == 0 {
      assert l.files[..0] == [];
      SumNothing();
    } else {
      WrittenPayload(l, id, all, files, n - 1);
      WrittenPart(l, id, all, files, n - 1);
      var k := SumOf(l.files[..n - 1]);
      assert all[..k + l.files[n - 1]] == all[..k] + all[k..k + l.files[n - 1]];
    }
  }

  /** The parser reads back what the serializer wrote, trailing blanks or not. */
  ghost predicate Inverse(serialize: seq<nat> -> seq<byte>, parse: seq<byte> -> Option<seq<nat>>) {
    forall files, n :: parse(serialize(files) + Blanks(n)) == Some(files)
  }

  /** A payload so far below the 64-bit limit that the reader's sums fit however it is cut up. */
  predicate ReaderCanSum(payload: nat) {
    LIMIT + payload + (payload / PART_CAPACITY + 1) * PAYLOAD_ALIGNMENT <= SIZE_MAX
  }

  /** The fronts of a written set: the entry has the length of its directory in its header, and then the directory,
      filled up with blanks; a continuation has its number, and then zeros. */
  ghost predicate Fronts(serialize: seq<nat> -> seq<byte>, d: Directory, id: seq<byte>, files: seq<seq<byte>>) {
    && |files| == |d.files| > 0 && d.entryPayloadStart >= 32
    && Headed(files[0], ENTRY_MAGIC, d.entryPayloadStart - 32, id)
    && (forall i :: 1 <= i < |files| ==>
          && Headed(files[i], PART_MAGIC, i, id)
          && |files[i]| >= 4096 && files[i][32..4096] == Zeros(4096 - 32))
    && var text, room := serialize(Sizes(d)), d.entryPayloadStart - 32;
       && |text| <= room && |files[0]| >= d.entryPayloadStart
       && files[0][32..d.entryPayloadStart] == text + Blanks(room - |text|)
  }

  lemma WrittenFronts(serialize: seq<nat> -> seq<byte>, l: Layout, id: seq<byte>, all: seq<byte>,
                      files: seq<seq<byte>>)
    requires 0 < |all| <= SIZE_MAX && Settled(serialize, |all|, l) && Written(l, id, all, files)
    ensures Fronts(serialize, DirectoryFor(l), id, files)
  {
    hide WrittenAt, Written, FilesFor, SumOf, Header, Headed;
    SettledFacts(serialize, l, id, all, files);
    assert Sizes(DirectoryFor(l)) == l.files;
    WrittenShape(l, id, all, files, 0);
    var f := files[0];
    assert f == f[..32] + f[32..] && |l.data| == l.start - 32;
    WrittenFacts(l, id, all, files);
    HeaderHeads(ENTRY_MAGIC, |l.data|, id, f[32..]);
    forall i | 1 <= i < |files|
      ensures Headed(files[i], PART_MAGIC, i, id) && |files[i]| >= 4096 && files[i][32..4096] == Zeros(4096 - 32)
    {
      PartFront(l, id, all, files, i);
    }
  }

  lemma PartFront(l: Layout, id: seq<byte>, all: seq<byte>, files: seq<seq<byte>>, i: nat)
    requires Written(l, id, all, files) && l.start >= 4096 && 1 <= i < |files| && i <= SIZE_MAX && |id| == 16
    ensures Headed(files[i], PART_MAGIC, i, id) && |files[i]| >= 4096 && files[i][32..4096] == Zeros(4096 - 32)
  {
    hide SumOf, Header, Headed;
    WrittenShape(l, id, all, files, i);
    var f := files[i];
    assert f == f[..32] + f[32..];
    HeaderHeads(PART_MAGIC, i, id, f[32..]);
    assert WrittenAt(l, id, all, f, i);
    assert f[32..4096] == Zeros(4096 - 32);
  }

  /** Writer and reader undo each other: the reader opens what the upgrade wrote exactly when all file bytes together
      are a 64-bit number, every file is within the limit, and the payload it then sees is the one written. */
  lemma WriteThenOpen(serialize: seq<nat> -> seq<byte>, parse: seq<byte> -> Option<seq<nat>>, l: Layout,
                      id: seq<byte>, all: seq<byte>, files: seq<seq<byte>>)
    requires Inverse(serialize, parse) && 0 < |all| <= SIZE_MAX
    requires Settled(serialize, |all|, l) && Written(l, id, all, files)
    ensures Open(files, parse)
         == if SumOf(Lengths(files)) <= SIZE_MAX then Ok(DirectoryFor(l)) else Err(ArtifactError)
    ensures Sound(DirectoryFor(l), files) && Whole(DirectoryFor(l), files) == all
    ensures Fronts(serialize, DirectoryFor(l), id, files)
    ensures forall i :: 0 <= i < |files| ==> |files[i]| <= LIMIT
    ensures ReaderCanSum(|all|) ==> SumOf(Lengths(files)) <= SIZE_MAX
  {
    hide WrittenAt, Written, Inverse, Settled, FilesFor, WellFormed, Sound, Whole, FromLittleEndian, SumOf, Fronts;
    SettledFacts(serialize, l, id, all, files);
    WrittenIsSound(l, id, all, files);
    ChecksFileBytes(DirectoryFor(l), files);
    WrittenFronts(serialize, l, id, all, files);
    forall i | 0 <= i < |files| ensures |files[i]| <= LIMIT { WrittenShape(l, id, all, files, i); }
    OpenEntry(serialize, parse, l, id, all, files);
    forall i | 1 <= i < |files| ensures PartAccepted(DirectoryFor(l), id, files[i], i) {
      OpenPart(l, id, all, files, i);
    }
  }

  lemma SettledFacts(serialize: seq<nat> -> seq<byte>, l: Layout, id: seq<byte>, all: seq<byte>, files: seq<seq<byte>>)
    requires 0 < |all| <= SIZE_MAX
    requires Settled(serialize, |all|, l) && Written(l, id, all, files)
    ensures |l.files| <= |all| / PART_CAPACITY + 2
    ensures l.files != [] && |files| == |l.files| <= SIZE_MAX && SumOf(l.files) == |all| && l.start >= 4096
    ensures WellFormed(DirectoryFor(l)) && DirectoryOf(l.files, l.start) == Ok(DirectoryFor(l))
    ensures l.start + l.files[0] <= LIMIT && forall i :: 1 <= i < |l.files| ==> 4096 + l.files[i] <= LIMIT
  {
    hide WrittenAt;
    FilesForCorrect(l.start, |all|);
    FilesForCount(l.start, |all|);
    CountAtMostSum(l.files);
    DirectoryOfWellFormed(l.files, l.start);
  }

  lemma OpenEntry(serialize: seq<nat> -> seq<byte>, parse: seq<byte> -> Option<seq<nat>>, l: Layout,
                  id: seq<byte>, all: seq<byte>, files: seq<seq<byte>>)
    requires Inverse(serialize, parse) && l.start <= SIZE_MAX && l.files != []
    requires Settled(serialize, |all|, l) && Written(l, id, all, files)
    ensures |files[0]| == l.start + l.files[0] && |files[0]| >= 32
    ensures files[0][..8] == ENTRY_MAGIC && files[0][16..32] == id
    ensures var length := FromLittleEndian(files[0][8..16]);
            && 0 < length == l.start - 32 <= |files[0]| - 32
            && parse(files[0][32..32 + length]) == Some(l.files)
            && AlignUp(32 + length, 4096) == l.start
  {
    hide Written, Header, LittleEndian, FromLittleEndian, FilesFor, SumOf;
    WrittenFacts(l, id, all, files);
    WrittenShape(l, id, all, files, 0);
    var f := files[0];
    assert f == f[..32] + f[32..];
    HeaderFields(ENTRY_MAGIC, |l.data|, id, f[32..]);
    AlignUpIsLeast(l.start, 4096);
    assert l.data == serialize(l.files) + Blanks(l.start - 32 - |serialize(l.files)|);
  }

  lemma OpenPart(l: Layout, id: seq<byte>, all: seq<byte>, files: seq<seq<byte>>, i: nat)
    requires Written(l, id, all, files) && l.start >= 4096 && 1 <= i < |files|
    requires i <= SIZE_MAX
    ensures PartAccepted(DirectoryFor(l), id, files[i], i)
  {
    WrittenShape(l, id, all, files, i);
    var f := files[i];
    assert f == f[..32] + f[32..];
    HeaderFields(PART_MAGIC, i, id, f[32..]);
  }

  /** The whole upgrade: lay out, write, and what the reader then sees. */
  method Upgrade(serialize: seq<nat> -> seq<byte>, ghost parse: seq<byte> -> Option<seq<nat>>, id: seq<byte>,
                 source: seq<byte>, template: seq<byte>, readSize: nat -> nat)
    returns (r: Result<seq<seq<byte>>>, ghost d: Directory)
    requires Inverse(serialize, parse) && |id| == 16 && source != []
    requires |Logical(source, template)| <= SIZE_MAX
    ensures r.Ok? ==>
              && Open(r.value, parse) == (if SumOf(Lengths(r.value)) <= SIZE_MAX then Ok(d) else Err(ArtifactError))
              && Fronts(serialize, d, id, r.value)
              && Sound(d, r.value) && Whole(d, r.value) == Logical(source, template)
              && forall i :: 0 <= i < |r.value| ==> |r.value[i]| <= LIMIT
    ensures r.Ok? && ReaderCanSum(|Logical(source, template)|) ==> SumOf(Lengths(r.value)) <= SIZE_MAX
    ensures r.Ok? ==> exists n: nat ::
              FirstTried(serialize, |Logical(source, template)|, n, d.entryPayloadStart)
    ensures r.Ok? ==> FilesFor(d.entryPayloadStart, |Logical(source, template)|) == Some(Sizes(d))
    ensures RoomFor(serialize, |Logical(source, template)|) ==> r.Ok?
    ensures r.Err? ==> exists start :: Roomy(start) && Overflows(serialize, |Logical(source, template)|, start)
  {
    hide Inverse, RoomFor, Overflows, Written, Open, Sound, Whole, FilesFor, Fronts, FirstTried, SumOf;
    LogicalLength(source, template);
    d := Directory([], 0, 0);
    ghost var all := Logical(source, template);
    var laid := LayOut(serialize, AlignUp(|source|, 256) + |template|);
    if laid.Err? { return Err(laid.error), d; }
    FilesForCorrect(laid.value.start, |all|);
    var files := WriteFiles(laid.value, id, source, template, readSize);
    WriteThenOpen(serialize, parse, laid.value, id, all, files);
    r, d := Ok(files), DirectoryFor(laid.value);
    assert Sizes(d) == laid.value.files;
  }
}
