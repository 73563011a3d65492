/** One logical payload spread over several files, and reading any range of it. */
module Payload {
  import opened Common

  type byte = x: int | 0 <= x < 256 witness 0

  const PAYLOAD_ALIGNMENT: nat := 4096
  const HEADER_BYTES: nat := 32

  datatype FileRecord = FileRecord(logicalBegin: nat, payloadBytes: nat)

  datatype Directory = Directory(files: seq<FileRecord>, payloadBytes: nat, entryPayloadStart: nat)

  datatype ReadSegment = ReadSegment(fileIndex: nat, fileOffset: nat, destinationOffset: nat, bytes: nat)

  function SumOf(sizes: seq<nat>): nat {
    if sizes == [] then 0 else SumOf(sizes[..|sizes| - 1]) + sizes[|sizes| - 1]
  }

  lemma SumNothing()
    ensures SumOf([]) == 0
  {
  }

  lemma SumSnoc(sizes: seq<nat>, n: nat)
    ensures SumOf(sizes + [n]) == SumOf(sizes) + n
  {
    assert (sizes + [n])[..|sizes|] == sizes;
  }

  lemma {:induction false} SumConcat(a: seq<nat>, b: seq<nat>)
    ensures SumOf(a + b) == SumOf(a) + SumOf(b)
    decreases |b|
  {
    if b == [] {
      assert a + b == a;
    } else {
      SumConcat(a, b[..|b| - 1]);
      assert a + b == (a + b[..|b| - 1]) + [b[|b| - 1]];
      SumSnoc(a + b[..|b| - 1], b[|b| - 1]);
    }
  }

  lemma SumOne(n: nat)
    ensures SumOf([n]) == n
  {
    assert [n] == [] + [n];
    SumSnoc([], n);
  }

  lemma {:induction false} SumMonotone(sizes: seq<nat>, i: nat, j: nat)
    requires i <= j <= |sizes|
    ensures SumOf(sizes[..i]) <= SumOf(sizes[..j])
  {
    if i < j {
      SumMonotone(sizes, i, j - 1);
      assert sizes[..j] == sizes[..j - 1] + [sizes[j - 1]];
      SumSnoc(sizes[..j - 1], sizes[j - 1]);
    }
  }

  lemma {:induction false} CountAtMostSum(sizes: seq<nat>)
    requires forall i :: 0 <= i < |sizes| ==> sizes[i] > 0
    ensures |sizes| <= SumOf(sizes)
  {
    if sizes != [] { CountAtMostSum(sizes[..|sizes| - 1]); }
  }

  lemma SumStep(sizes: seq<nat>, i: nat)
    requires i < |sizes|
    ensures SumOf(sizes[..i + 1]) == SumOf(sizes[..i]) + sizes[i]
  {
    assert sizes[..i + 1] == sizes[..i] + [sizes[i]];
    SumSnoc(sizes[..i], sizes[i]);
  }

  /** The records of a file list: each file starts where the ones before it end. */
  function RecordsOf(sizes: seq<nat>): (rs: seq<FileRecord>)
    ensures |rs| == |sizes|
    ensures forall i :: 0 <= i < |sizes| ==> rs[i] == FileRecord(SumOf(sizes[..i]), sizes[i])
  {
    seq(|sizes|, i requires 0 <= i < |sizes| => FileRecord(SumOf(sizes[..i]), sizes[i]))
  }

  function Sizes(d: Directory): (r: seq<nat>)
    ensures |r| == |d.files| && forall i :: 0 <= i < |r| ==> r[i] == d.files[i].payloadBytes
  {
    seq(|d.files|, i requires 0 <= i < |d.files| => d.files[i].payloadBytes)
  }

  /** What parse_files accepts: at least one file, none empty, begins that add up. */
  ghost predicate WellFormed(d: Directory) {
    && d.files != []
    && d.files == RecordsOf(Sizes(d))
    && (forall i :: 0 <= i < |d.files| ==> d.files[i].payloadBytes > 0)
    && d.payloadBytes == SumOf(Sizes(d)) <= SIZE_MAX
  }

  /** The directory of a file list: at least one file, none empty, total within range. */
  function DirectoryOf(sizes: seq<nat>, entryPayloadStart: nat): Result<Directory> {
    if sizes == [] || (exists i :: 0 <= i < |sizes| && sizes[i] == 0) || SumOf(sizes) > SIZE_MAX then Err(ArtifactError)
    else Ok(Directory(RecordsOf(sizes), SumOf(sizes), entryPayloadStart))
  }

  lemma DirectoryOfWellFormed(sizes: seq<nat>, entryPayloadStart: nat)
    requires DirectoryOf(sizes, entryPayloadStart).Ok?
    ensures var d := DirectoryOf(sizes, entryPayloadStart).value;
            WellFormed(d) && Sizes(d) == sizes
  {
    assert Sizes(DirectoryOf(sizes, entryPayloadStart).value) == sizes;
  }

  /** A file as the entry lists it. */
  datatype FileEntry = FileEntry(path: Option<string>, payloadBytes: nat)

  /** require_id: nonempty, without NUL. */
  predicate LegalId(id: string) {
    id != "" && '\0' !in id
  }

  predicate SiblingName(name: string) {
    LegalId(name) && name != "." && name != ".." && '/' !in name && '\\' !in name
  }

  /** The entry is the first file and needs no name; every continuation is a sibling with a name of its own. */
  ghost predicate NamesOk(entries: seq<FileEntry>, entryName: string) {
    && (entries != [] ==> entries[0].path.None?)
    && (forall i :: 1 <= i < |entries| ==>
          && entries[i].path.Some? && entries[i].path.value !in {"", ".", "..", entryName}
          && forall c :: c in ['\0', '/', '\\'] ==> c !in entries[i].path.value)
    && (forall i, j :: 1 <= i < j < |entries| ==> entries[i].path != entries[j].path)
  }

  function ListedSizes(entries: seq<FileEntry>): (sizes: seq<nat>)
    ensures |sizes| == |entries| && forall i :: 0 <= i < |entries| ==> sizes[i] == entries[i].payloadBytes
  {
    seq(|entries|, i requires 0 <= i < |entries| => entries[i].payloadBytes)
  }

  lemma NamesStep(entries: seq<FileEntry>, entryName: string, n: nat, names: set<string>)
    requires 0 < n < |entries| && NamesOk(entries[..n], entryName)
    requires forall x :: x in names <==> x == entryName || exists i :: 1 <= i < n && entries[i].path == Some(x)
    ensures NamesOk(entries[..n + 1], entryName) <==>
              entries[n].path.Some? && SiblingName(entries[n].path.value) && entries[n].path.value !in names
    ensures NamesOk(entries, entryName) ==> NamesOk(entries[..n + 1], entryName)
  {
    var some := entries[..n + 1];
    assert some == entries[..n] + [entries[n]];
    if NamesOk(some, entryName) {
      assert some[n] == entries[n];
      forall i | 1 <= i < n ensures entries[i].path != entries[n].path { assert some[i].path != some[n].path; }
    } else if entries[n].path.Some? && SiblingName(entries[n].path.value) && entries[n].path.value !in names {
      forall i, j | 1 <= i < j < |some| ensures some[i].path != some[j].path {
        if j < n { assert entries[..n][i].path != entries[..n][j].path; }
      }
      forall i | 1 <= i < |some|
        ensures some[i].path.Some? && SiblingName(some[i].path.value) && some[i].path.value != entryName
      {
        if i < n { assert entries[..n][i] == some[i]; }
      }
    }
  }

  /** parse_files: names that are distinct siblings, running logical begins with a checked total. */
  method ParseFiles(entries: seq<FileEntry>, entryName: string, entryPayloadStart: nat) returns (r: Result<Directory>)
    ensures r == if NamesOk(entries, entryName) then DirectoryOf(ListedSizes(entries), entryPayloadStart)
                 else Err(ArtifactError)
    ensures r.Ok? ==> WellFormed(r.value)
  {
    hide SumOf, SiblingName, NamesOk;
    var sizes := ListedSizes(entries);
    SumNothing();
    if entries == [] { return Err(ArtifactError); }
    var files: seq<FileRecord> := [];
    var names: set<string> := {entryName};
    var total: nat := 0;
    assert sizes[..0] == [] && sizes[..|sizes|] == sizes && entries[..|entries|] == entries;
    FirstName(entries, entryName);
    for i := 0 to |entries|
      invariant files == RecordsOf(sizes)[..i]
      invariant total == SumOf(sizes[..i]) <= SIZE_MAX
      invariant forall k :: 0 <= k < i ==> sizes[k] > 0
      invariant i > 0 ==> NamesOk(entries[..i], entryName)
      invariant forall x :: x in names <==> x == entryName || exists k :: 1 <= k < i && entries[k].path == Some(x)
    {
      var file := entries[i];
      if i == 0 {
        if file.path.Some? { return Err(ArtifactError); }
      } else {
        NamesStep(entries, entryName, i, names);
        if file.path.None? || !SiblingName(file.path.value) || file.path.value in names { return Err(ArtifactError); }
        names := names + {file.path.value};
      }
      if file.payloadBytes == 0 { return Err(ArtifactError); }
      SumStep(sizes, i);
      SumMonotone(sizes, i + 1, |sizes|);
      var next := CheckedAdd(total, file.payloadBytes);
      if next.Err? { return Err(ArtifactError); }
      files := files + [FileRecord(total, file.payloadBytes)];
      total := next.value;
    }
    assert RecordsOf(sizes)[..|sizes|] == RecordsOf(sizes);
    r := Ok(Directory(files, total, entryPayloadStart));
    DirectoryOfWellFormed(sizes, entryPayloadStart);
  }

  lemma FirstName(entries: seq<FileEntry>, entryName: string)
    requires entries != []
    ensures NamesOk(entries, entryName) ==> entries[0].path.None?
    ensures entries[0].path.None? ==> NamesOk(entries[..1], entryName)
  {
  }

  /** Where the payload of a file begins inside it. */
  function StartOf(d: Directory, index: nat): nat {
    if index == 0 then d.entryPayloadStart else PAYLOAD_ALIGNMENT
  }

  /** What the reader's checked sums establish when it opens the entry: the bytes of all files, with
      the header block of each continuation, are a 64-bit number. */
  predicate LengthsChecked(d: Directory) {
    && PAYLOAD_ALIGNMENT <= d.entryPayloadStart
    && d.entryPayloadStart + d.payloadBytes + (|d.files| - 1) * PAYLOAD_ALIGNMENT <= SIZE_MAX
  }

  /** Every file is as long as the directory says. */
  ghost predicate Sound(d: Directory, contents: seq<seq<byte>>) {
    && WellFormed(d)
    && |contents| == |d.files|
    && forall i :: 0 <= i < |contents| ==> |contents[i]| == StartOf(d, i) + d.files[i].payloadBytes
  }

  function PartOf(d: Directory, contents: seq<seq<byte>>, i: nat): seq<byte>
    requires i < |contents|
  {
    if StartOf(d, i) <= |contents[i]| then contents[i][StartOf(d, i)..] else []
  }

  /** The payload of the first n files. */
  function PayloadOf(d: Directory, contents: seq<seq<byte>>, n: nat): seq<byte>
    requires n <= |contents|
  {
    if n == 0 then [] else PayloadOf(d, contents, n - 1) + PartOf(d, contents, n - 1)
  }

  function Whole(d: Directory, contents: seq<seq<byte>>): seq<byte> {
    PayloadOf(d, contents, |contents|)
  }

  lemma {:induction false} PayloadLength(d: Directory, contents: seq<seq<byte>>, n: nat)
    requires Sound(d, contents) && n <= |contents|
    ensures |PayloadOf(d, contents, n)| == SumOf(Sizes(d)[..n])
  {
    hide Sound, WellFormed, PartOf, SumOf, StartOf;
    SoundWellFormed(d, contents);
    if n == 0 {
      assert Sizes(d)[..0] == [];
      SumNothing();
    } else {
      PayloadLength(d, contents, n - 1);
      PartFacts(d, contents, n - 1);
      SumStep(Sizes(d), n - 1);
    }
  }

  lemma WholeLength(d: Directory, contents: seq<seq<byte>>)
    requires Sound(d, contents)
    ensures |Whole(d, contents)| == d.payloadBytes
  {
    PayloadLength(d, contents, |contents|);
    assert Sizes(d)[..|contents|] == Sizes(d);
  }

  lemma PrefixExtends(a: seq<byte>, b: seq<byte>, c: seq<byte>)
    requires a <= b
    ensures a <= b + c
  {
  }

  /** A later payload extends an earlier one. */
  lemma {:induction false} PayloadPrefix(d: Directory, contents: seq<seq<byte>>, i: nat, n: nat)
    requires i <= n <= |contents|
    ensures PayloadOf(d, contents, i) <= PayloadOf(d, contents, n)
  {
    hide PartOf;
    if i < n {
      PayloadPrefix(d, contents, i, n - 1);
      PrefixExtends(PayloadOf(d, contents, i), PayloadOf(d, contents, n - 1), PartOf(d, contents, n - 1));
    }
  }

  lemma SliceOfMiddle(before: seq<byte>, part: seq<byte>, whole: seq<byte>, local: nat, n: nat)
    requires before + part <= whole && local + n <= |part|
    ensures |before| + local + n <= |whole|
    ensures whole[|before| + local..|before| + local + n] == part[local..local + n]
  {
    assert whole[..|before| + |part|] == before + part;
    assert whole[|before| + local..|before| + local + n] == (before + part)[|before| + local..|before| + local + n];
  }

  lemma SliceOfSlice(s: seq<byte>, at: nat, bytes: nat, local: nat, n: nat)
    requires local + n <= bytes && at + bytes <= |s|
    ensures s[at..at + bytes][local..local + n] == s[at + local..at + local + n]
  {
    var part := s[at..at + bytes];
    forall i | local <= i < local + n ensures part[i] == s[at + i] {}
    assert part[local..local + n] == s[at + local..at + local + n];
  }

  lemma DropThenSlice(s: seq<byte>, start: nat, local: nat, n: nat)
    requires start + local + n <= |s|
    ensures s[start + local..start + local + n] == s[start..][local..local + n]
  {
  }

  lemma PartFacts(d: Directory, contents: seq<seq<byte>>, i: nat)
    requires Sound(d, contents) && i < |contents|
    ensures StartOf(d, i) <= |contents[i]| && |PartOf(d, contents, i)| == d.files[i].payloadBytes
    ensures d.files[i].logicalBegin == SumOf(Sizes(d)[..i])
  {
  }

  lemma PartSlice(d: Directory, contents: seq<seq<byte>>, i: nat, local: nat, n: nat)
    requires i < |contents| && StartOf(d, i) <= |contents[i]| && local + n <= |PartOf(d, contents, i)|
    ensures StartOf(d, i) + local + n <= |contents[i]|
    ensures contents[i][StartOf(d, i) + local..StartOf(d, i) + local + n] == PartOf(d, contents, i)[local..local + n]
  {
    hide StartOf;
    DropThenSlice(contents[i], StartOf(d, i), local, n);
  }

  /** Bytes of file i are the payload bytes at its logical begin. */
  lemma SliceOfFile(d: Directory, contents: seq<seq<byte>>, i: nat, local: nat, n: nat)
    requires Sound(d, contents) && i < |contents| && i < |d.files| && local + n <= d.files[i].payloadBytes
    ensures d.files[i].logicalBegin + local + n <= |Whole(d, contents)|
    ensures StartOf(d, i) + local + n <= |contents[i]|
    ensures var at := d.files[i].logicalBegin + local;
            contents[i][StartOf(d, i) + local..StartOf(d, i) + local + n] == Whole(d, contents)[at..at + n]
  {
    hide Sound, WellFormed, SumOf, PartOf, StartOf;
    PartFacts(d, contents, i);
    PartSlice(d, contents, i, local, n);
    PayloadLength(d, contents, i);
    PayloadPrefix(d, contents, i + 1, |contents|);
    SliceOfMiddle(PayloadOf(d, contents, i), PartOf(d, contents, i), Whole(d, contents), local, n);
  }

  // ----- Reader::segments

  /** A segment of the request [offset, offset + bytes): a nonempty piece inside one file, at the
      place in the file that its place in the request demands. */
  ghost predicate SegmentFits(d: Directory, offset: nat, s: ReadSegment) {
    && s.fileIndex < |d.files|
    && s.bytes > 0
    && s.fileOffset >= StartOf(d, s.fileIndex)
    && var local := s.fileOffset - StartOf(d, s.fileIndex);
      && d.files[s.fileIndex].logicalBegin + local == offset + s.destinationOffset
      && local + s.bytes <= d.files[s.fileIndex].payloadBytes
  }

  /** Segments in order, each starting in the request where the one before ends. */
  ghost predicate Tiles(d: Directory, offset: nat, ss: seq<ReadSegment>, bytes: nat) {
    && (forall i :: 0 <= i < |ss| ==> SegmentFits(d, offset, ss[i]))
    && (ss == [] <==> bytes == 0)
    && (ss != [] ==> ss[0].destinationOffset == 0
                     && ss[|ss| - 1].destinationOffset + ss[|ss| - 1].bytes == bytes)
    && (forall i :: 0 <= i < |ss| - 1 ==>
          && ss[i].destinationOffset + ss[i].bytes == ss[i + 1].destinationOffset
          && ss[i].fileIndex + 1 == ss[i + 1].fileIndex)
  }

  function LogicalBegin(file: FileRecord): int { file.logicalBegin }

  lemma DirectoryFacts(d: Directory)
    requires WellFormed(d)
    ensures d.files != [] && d.files[0].logicalBegin == 0
    ensures forall i :: 0 <= i < |d.files| ==> d.files[i].payloadBytes > 0
    ensures forall i :: 0 <= i < |d.files| ==> FileEndsRight(d, i)
  {
    assert Sizes(d)[..0] == [];
    forall i | 0 <= i < |d.files| ensures FileEndsRight(d, i) { FileEnd(d, i); }
  }

  ghost predicate FileEndsRight(d: Directory, i: nat)
    requires i < |d.files|
  {
    && d.files[i].logicalBegin + d.files[i].payloadBytes
       == (if i + 1 < |d.files| then d.files[i + 1].logicalBegin else d.payloadBytes)
    && d.files[i].logicalBegin + d.files[i].payloadBytes <= d.payloadBytes
  }

  lemma FileEnd(d: Directory, i: nat)
    requires WellFormed(d) && i < |d.files|
    ensures FileEndsRight(d, i)
  {
    SumStep(Sizes(d), i);
    SumMonotone(Sizes(d), i + 1, |d.files|);
    assert Sizes(d)[..|d.files|] == Sizes(d);
  }

  lemma StartSmall(d: Directory, i: nat)
    ensures StartOf(d, i) <= Max(d.entryPayloadStart, PAYLOAD_ALIGNMENT)
  {
  }

  lemma TilesNothing(d: Directory, offset: nat)
    ensures Tiles(d, offset, [], 0)
  {
  }

  lemma TilesSnoc(d: Directory, offset: nat, ss: seq<ReadSegment>, bytes: nat, s: ReadSegment)
    requires Tiles(d, offset, ss, bytes) && SegmentFits(d, offset, s) && s.destinationOffset == bytes
    requires ss != [] ==> ss[|ss| - 1].fileIndex + 1 == s.fileIndex
    ensures Tiles(d, offset, ss + [s], bytes + s.bytes)
  {
    var all := ss + [s];
    forall i | 0 <= i < |all| - 1
      ensures all[i].destinationOffset + all[i].bytes == all[i + 1].destinationOffset
      ensures all[i].fileIndex + 1 == all[i + 1].fileIndex
    {
      if i < |ss| - 1 { assert all[i] == ss[i] && all[i + 1] == ss[i + 1]; }
    }
  }

  /** The segments from file index on, of a request of which the first bytes are copied. */
  function SegmentsFrom(d: Directory, offset: nat, bytes: nat, copied: nat, index: nat): seq<ReadSegment>
    decreases |d.files| - index
  {
    if copied >= bytes || index >= |d.files| then [] else
    var local := Max(0, offset + copied - d.files[index].logicalBegin);
    var count := Max(0, Min(bytes - copied, d.files[index].payloadBytes - local));
    [ReadSegment(index, StartOf(d, index) + local, copied, count)]
    + SegmentsFrom(d, offset, bytes, copied + count, index + 1)
  }

  /** The segments of a request: from the file its first byte lies in. */
  function SegmentsOf(d: Directory, offset: nat, bytes: nat): seq<ReadSegment> {
    var found := UpperBound(LogicalBegin, d.files, offset);
    if bytes == 0 || found == 0 then [] else SegmentsFrom(d, offset, bytes, 0, found - 1)
  }

  lemma SegmentsNext(d: Directory, offset: nat, bytes: nat, copied: nat, index: nat, before: seq<ReadSegment>,
                     count: nat)
    requires copied < bytes && index < |d.files| && d.files[index].logicalBegin <= offset + copied
    requires offset + copied < d.files[index].logicalBegin + d.files[index].payloadBytes
    requires var local := offset + copied - d.files[index].logicalBegin;
             count == Min(bytes - copied, d.files[index].payloadBytes - local)
    ensures var local := offset + copied - d.files[index].logicalBegin;
            before + SegmentsFrom(d, offset, bytes, copied, index)
            == before + [ReadSegment(index, StartOf(d, index) + local, copied, count)]
               + SegmentsFrom(d, offset, bytes, copied + count, index + 1)
  {
    hide StartOf;
    var local: nat := offset + copied - d.files[index].logicalBegin;
    var segment := ReadSegment(index, StartOf(d, index) + local, copied, count);
    var rest := SegmentsFrom(d, offset, bytes, copied + count, index + 1);
    assert before + ([segment] + rest) == (before + [segment]) + rest;
  }

  lemma SegmentsDone(d: Directory, offset: nat, bytes: nat, index: nat, ss: seq<ReadSegment>)
    ensures ss + SegmentsFrom(d, offset, bytes, bytes, index) == ss
  {
  }

  lemma SegmentsBegin(d: Directory, offset: nat, bytes: nat)
    requires bytes > 0
    ensures var found := UpperBound(LogicalBegin, d.files, offset);
            found > 0 ==> [] + SegmentsFrom(d, offset, bytes, 0, found - 1) == SegmentsOf(d, offset, bytes)
    ensures SegmentsOf(d, offset, 0) == []
  {
    hide SegmentsFrom;
  }

  lemma FirstPiece(d: Directory, offset: nat, index: nat)
    requires WellFormed(d) && index < |d.files| && offset < d.payloadBytes && d.files[index].logicalBegin <= offset
    requires index + 1 < |d.files| ==> d.files[index + 1].logicalBegin > offset
    ensures offset < d.files[index].logicalBegin + d.files[index].payloadBytes
  {
    hide WellFormed;
    FileEnd(d, index);
  }

  /** The piece of the next file: its place in the file is a 64-bit number, and unless the request ends in it the
      file after it goes on where it ends. */
  lemma NextPiece(d: Directory, offset: nat, bytes: nat, copied: nat, index: nat)
    requires WellFormed(d) && LengthsChecked(d) && offset + bytes <= d.payloadBytes && copied < bytes
    requires index < |d.files| && d.files[index].logicalBegin <= offset + copied
    requires offset + copied < d.files[index].logicalBegin + d.files[index].payloadBytes
    ensures var local := offset + copied - d.files[index].logicalBegin;
            && StartOf(d, index) + local <= SIZE_MAX
            && (local + (bytes - copied) > d.files[index].payloadBytes ==>
                  && index + 1 < |d.files| && d.files[index + 1].payloadBytes > 0
                  && d.files[index + 1].logicalBegin == d.files[index].logicalBegin + d.files[index].payloadBytes)
  {
    hide WellFormed;
    FileEnd(d, index);
    DirectoryFacts(d);
  }

  /** Tiles any request inside the payload, and refuses any other. */
  method Segments(d: Directory, offset: nat, bytes: nat) returns (r: Result<seq<ReadSegment>>)
    requires WellFormed(d) && LengthsChecked(d)
    ensures r.Ok? <==> offset + bytes <= d.payloadBytes
    ensures r.Ok? ==> Tiles(d, offset, r.value, bytes) && r.value == SegmentsOf(d, offset, bytes)
  {
    hide WellFormed, LengthsChecked, Tiles, StartOf, SegmentsFrom, SegmentsOf, UpperBound, FileEndsRight;
    DirectoryFacts(d);
    TilesNothing(d, offset);
    if offset > d.payloadBytes || bytes > d.payloadBytes - offset { return Err(ArtifactError); }
    SegmentsBegin(d, offset, Max(1, bytes));
    if bytes == 0 { return Ok([]); }
    var found := UpperBound(LogicalBegin, d.files, offset);
    var index: nat := found - 1;
    FirstPiece(d, offset, index);
    var copied: nat := 0;
    var result: seq<ReadSegment> := [];
    while copied < bytes
      invariant copied <= bytes && Tiles(d, offset, result, copied)
      invariant result != [] ==> result[|result| - 1].fileIndex + 1 == index
      invariant result + SegmentsFrom(d, offset, bytes, copied, index) == SegmentsOf(d, offset, bytes)
      invariant copied < bytes ==>
                  && index < |d.files|
                  && d.files[index].logicalBegin <= offset + copied
                  && offset + copied < d.files[index].logicalBegin + d.files[index].payloadBytes
      decreases bytes - copied
    {
      NextPiece(d, offset, bytes, copied, index);
      var file := d.files[index];
      var local := offset + copied - file.logicalBegin;
      var count: nat := Min(bytes - copied, file.payloadBytes - local);
      var start := StartOf(d, index);
      var fileOffset := CheckedAdd(start, local);
      if fileOffset.Err? {
        // The file offset overflow error of the program.
        assert false;
        return Err(ArtifactError);
      }
      var segment := ReadSegment(index, fileOffset.value, copied, count);
      TilesSnoc(d, offset, result, copied, segment);
      SegmentsNext(d, offset, bytes, copied, index, result, count);
      result := result + [segment];
      copied := copied + count;
      index := index + 1;
    }
    SegmentsDone(d, offset, bytes, index, result);
    r := Ok(result);
  }

  /** The positional read of exactly the bytes asked for. */
  method ReadExact(file: seq<byte>, offset: nat, destination: array<byte>, at: nat, count: nat)
    requires offset + count <= |file| && at + count <= destination.Length
    modifies destination
    ensures destination[at..at + count] == file[offset..offset + count]
    ensures destination[..at] == old(destination[..at])
    ensures destination[at + count..] == old(destination[at + count..])
  {
    for k := 0 to count
      invariant destination[at..at + k] == file[offset..offset + k]
      invariant destination[..at] == old(destination[..at])
      invariant destination[at + k..] == old(destination[at + k..])
    {
      destination[at + k] := file[offset + k];
    }
  }

  /** The bytes of a segment are the payload bytes it stands for. */
  lemma SliceOfSegment(d: Directory, contents: seq<seq<byte>>, offset: nat, s: ReadSegment)
    requires Sound(d, contents) && SegmentFits(d, offset, s)
    ensures s.fileIndex < |contents| && s.fileOffset + s.bytes <= |contents[s.fileIndex]|
    ensures offset + s.destinationOffset + s.bytes <= |Whole(d, contents)|
    ensures contents[s.fileIndex][s.fileOffset..s.fileOffset + s.bytes]
         == Whole(d, contents)[offset + s.destinationOffset..offset + s.destinationOffset + s.bytes]
  {
    hide Sound, WellFormed, StartOf, Whole;
    SoundWellFormed(d, contents);
    SliceOfFile(d, contents, s.fileIndex, s.fileOffset - StartOf(d, s.fileIndex), s.bytes);
  }

  /** Reading through the segments is slicing the payload. */
  method ReadInto(d: Directory, contents: seq<seq<byte>>, offset: nat, destination: array<byte>) returns (r: Result<()>)
    requires Sound(d, contents) && LengthsChecked(d)
    modifies destination
    ensures r.Ok? <==> offset + destination.Length <= d.payloadBytes
    ensures r.Err? ==> destination[..] == old(destination[..])
    ensures r.Ok? ==>
              && offset + destination.Length <= |Whole(d, contents)|
              && destination[..] == Whole(d, contents)[offset..offset + destination.Length]
  {
    hide Sound, WellFormed, LengthsChecked, Tiles, StartOf, Whole, SegmentFits, SegmentsOf;
    SoundWellFormed(d, contents);
    var segments := Segments(d, offset, destination.Length);
    if segments.Err? { return Err(segments.error); }
    var ss := segments.value;
    ghost var whole := Whole(d, contents);
    WholeLength(d, contents);
    ghost var filled: nat := 0;
    TileEnds(d, offset, ss, destination.Length);
    for i := 0 to |ss|
      invariant filled == (if i < |ss| then ss[i].destinationOffset else destination.Length) <= destination.Length
      invariant destination[..filled] == whole[offset..offset + filled]
    {
      var s := ss[i];
      TileAt(d, offset, ss, destination.Length, i);
      SliceOfSegment(d, contents, offset, s);
      ReadExact(contents[s.fileIndex], s.fileOffset, destination, s.destinationOffset, s.bytes);
      JoinSlices(destination[..], whole, offset, filled, s.bytes);
      filled := filled + s.bytes;
    }
    assert destination[..destination.Length] == destination[..];
    r := Ok(());
  }

  lemma JoinSlices(copy: seq<byte>, whole: seq<byte>, offset: nat, filled: nat, n: nat)
    requires filled + n <= |copy| && offset + filled + n <= |whole|
    requires copy[..filled] == whole[offset..offset + filled]
    requires copy[filled..filled + n] == whole[offset + filled..offset + filled + n]
    ensures copy[..filled + n] == whole[offset..offset + filled + n]
  {
    assert copy[..filled + n] == copy[..filled] + copy[filled..filled + n];
    assert whole[offset..offset + filled + n]
        == whole[offset..offset + filled] + whole[offset + filled..offset + filled + n];
  }

  lemma SoundWellFormed(d: Directory, contents: seq<seq<byte>>)
    requires Sound(d, contents)
    ensures WellFormed(d) && |contents| == |d.files|
  {
  }

  lemma TileEnds(d: Directory, offset: nat, ss: seq<ReadSegment>, bytes: nat)
    requires Tiles(d, offset, ss, bytes)
    ensures if ss == [] then bytes == 0 else ss[0].destinationOffset == 0
  {
  }

  lemma TileAt(d: Directory, offset: nat, ss: seq<ReadSegment>, bytes: nat, i: nat)
    requires Tiles(d, offset, ss, bytes) && i < |ss|
    ensures SegmentFits(d, offset, ss[i])
    ensures ss[i].destinationOffset + ss[i].bytes == (if i + 1 < |ss| then ss[i + 1].destinationOffset else bytes)
    ensures ss[i].destinationOffset + ss[i].bytes <= bytes
  {
    SegmentInside(d, offset, ss, bytes, i);
  }

  lemma {:induction false} SegmentInside(d: Directory, offset: nat, ss: seq<ReadSegment>, bytes: nat, i: nat)
    requires Tiles(d, offset, ss, bytes) && i < |ss|
    ensures ss[i].destinationOffset + ss[i].bytes <= bytes
    decreases |ss| - i
  {
    if i < |ss| - 1 { SegmentInside(d, offset, ss, bytes, i + 1); }
  }
}
