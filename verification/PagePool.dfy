/** The state of the device page pool as a value: which pages are free, in runs, and the counters. */
module PagePool {
  import opened Common
  import opened Runs

  datatype Pool = Pool(
    capacity: nat,
    free: seq<Run>,
    used: seq<bool>,
    generations: seq<nat>,
    allocatedPages: nat,
    reservedPages: nat)

  function CountTrue(bs: seq<bool>): nat {
    if bs == [] then 0 else (if bs[0] then 1 else 0) + CountTrue(bs[1..])
  }

  predicate FreeAt(p: Pool, x: int) {
    0 <= x < |p.used| && !p.used[x]
  }

  /** Free runs are the maximal runs of unallocated pages, and promises never exceed what is free. */
  ghost predicate Valid(p: Pool) {
    && |p.used| == |p.generations| == p.capacity
    && Normal(p.free)
    && (forall x :: Covers(p.free, x) <==> FreeAt(p, x))
    && CountTrue(p.used) == p.allocatedPages
    && Total(p.free) + p.allocatedPages == p.capacity
    && p.allocatedPages + p.reservedPages <= p.capacity
  }

  lemma RunFacts(p: Pool)
    requires Valid(p)
    ensures Normal(p.free) && |p.used| == |p.generations| == p.capacity
    ensures forall x :: Covers(p.free, x) <==> FreeAt(p, x)
    ensures Total(p.free) == p.capacity - p.allocatedPages >= p.reservedPages
  {
  }

  /** A lease as a value: the page and the generation it was handed out with. */
  type Ticket = (nat, nat)

  /** The handle test of the pool. */
  predicate Current(used: seq<bool>, generations: seq<nat>, t: Ticket) {
    t.0 < |used| && t.0 < |generations| && used[t.0] && generations[t.0] == t.1
  }

  /** Exactly the leases that are still owned are current, and no ticket of the past comes back: a ticket
      once handed out is owned or of an older generation. */
  ghost predicate HandlesSound(owners: set<Ticket>, minted: set<Ticket>, used: seq<bool>, generations: seq<nat>) {
    && |used| == |generations|
    && owners <= minted
    && (forall t :: t in owners <==> Current(used, generations, t))
    && (forall t :: t in minted ==>
          t.0 < |generations| && t.1 <= generations[t.0] && (t.1 == generations[t.0] ==> t in owners))
  }

  /** The run list is a function of the allocation bits. */
  lemma FreeRunsDetermined(p: Pool, q: Pool)
    requires Valid(p) && Valid(q) && p.used == q.used
    ensures p.free == q.free && p.allocatedPages == q.allocatedPages
  {
    NormalUnique(p.free, q.free);
  }

  // ----- Spans of free pages

  ghost predicate FreeSpan(p: Pool, begin: int, count: nat) {
    forall x :: begin <= x < begin + count ==> FreeAt(p, x)
  }

  function Span(begin: nat, count: nat): (pages: seq<nat>)
    ensures |pages| == count && forall i :: 0 <= i < count ==> pages[i] == begin + i
  {
    seq(count, i => begin + i)
  }

  /** A free span lies inside one run. */
  lemma SpanInOneRun(p: Pool, begin: int, count: nat) returns (k: nat)
    requires Valid(p) && FreeSpan(p, begin, count) && count > 0
    ensures k < |p.free| && p.free[k].begin <= begin && begin + count <= p.free[k].End()
  {
    hide Valid, Normal;
    RunFacts(p);
    k := WithinOneRun(p.free, begin, count);
  }

  lemma RunIsFreeSpan(p: Pool, k: nat, begin: nat, count: nat)
    requires Valid(p) && CanTake(p.free, k, begin, count)
    ensures FreeSpan(p, begin, count)
  {
    hide Valid, Normal;
    RunFacts(p);
    forall x | begin <= x < begin + count ensures FreeAt(p, x) { assert p.free[k].Has(x); }
  }

  // ----- The scatter order

  /** All free pages in ascending order. */
  function CellsOf(rs: seq<Run>): seq<nat> {
    if rs == [] then [] else Span(rs[0].begin, rs[0].count) + CellsOf(rs[1..])
  }

  lemma {:induction false} CellsOfTotal(rs: seq<Run>)
    ensures |CellsOf(rs)| == Total(rs)
  {
    if rs != [] { CellsOfTotal(rs[1..]); }
  }

  lemma {:induction false} CellsOfCovered(rs: seq<Run>, x: int)
    ensures x in CellsOf(rs) <==> Covers(rs, x)
  {
    if rs != [] {
      CellsOfCovered(rs[1..], x);
      CoversTail(rs, x);
      var head := Span(rs[0].begin, rs[0].count);
      if rs[0].Has(x) { assert head[x - rs[0].begin] == x; }
    }
  }

  lemma {:induction false} CellsOfAscend(rs: seq<Run>)
    requires Normal(rs)
    ensures forall i, j :: 0 <= i < j < |CellsOf(rs)| ==> CellsOf(rs)[i] < CellsOf(rs)[j]
  {
    if rs != [] {
      CellsOfAscend(rs[1..]);
      var head, tail := Span(rs[0].begin, rs[0].count), CellsOf(rs[1..]);
      forall j | 0 <= j < |tail| ensures rs[0].End() < tail[j] {
        CellsOfCovered(rs[1..], tail[j]);
        var k :| 0 <= k < |rs[1..]| && rs[1..][k].Has(tail[j]);
        assert rs[1..][k] == rs[k + 1];
      }
    }
  }

  /** The list without its n lowest cells: whole runs first, then the front of one. */
  function DropCells(rs: seq<Run>, n: nat): seq<Run>
    requires n <= Total(rs)
  {
    if n == 0 then rs
    else if rs[0].count <= n then DropCells(rs[1..], n - rs[0].count)
    else [Run(rs[0].begin + n, rs[0].count - n)] + rs[1..]
  }

  lemma NormalTail(rs: seq<Run>)
    requires Normal(rs) && rs != []
    ensures Normal(rs[1..])
  {
  }

  lemma NormalShortened(rs: seq<Run>, n: nat)
    requires Normal(rs) && rs != [] && n < rs[0].count
    ensures Normal([Run(rs[0].begin + n, rs[0].count - n)] + rs[1..])
  {
  }

  lemma {:induction false} DropCellsIsNormal(rs: seq<Run>, n: nat)
    requires Normal(rs) && n <= Total(rs)
    ensures Normal(DropCells(rs, n))
    ensures Total(DropCells(rs, n)) == Total(rs) - n
  {
    hide Normal;
    if n > 0 {
      if rs[0].count <= n {
        NormalTail(rs);
        DropCellsIsNormal(rs[1..], n - rs[0].count);
      } else {
        NormalShortened(rs, n);
        assert DropCells(rs, n)[1..] == rs[1..];
      }
    }
  }

  lemma {:induction false} DropCellsLists(rs: seq<Run>, n: nat)
    requires n <= Total(rs) == |CellsOf(rs)|
    ensures CellsOf(DropCells(rs, n)) == CellsOf(rs)[n..]
  {
    if n > 0 {
      CellsOfTotal(rs[1..]);
      if rs[0].count <= n {
        DropCellsLists(rs[1..], n - rs[0].count);
      } else {
        assert DropCells(rs, n)[1..] == rs[1..];
        assert Span(rs[0].begin + n, rs[0].count - n) == Span(rs[0].begin, rs[0].count)[n..];
      }
    }
  }

  /** Dropping the lowest cells removes exactly those. */
  lemma DropCellsCovered(rs: seq<Run>, n: nat, x: int)
    requires Normal(rs) && n <= Total(rs)
    ensures n <= |CellsOf(rs)|
    ensures Covers(DropCells(rs, n), x) <==> Covers(rs, x) && x !in CellsOf(rs)[..n]
  {
    var all := CellsOf(rs);
    CellsOfTotal(rs);
    CellsOfAscend(rs);
    DropCellsLists(rs, n);
    CellsOfCovered(rs, x);
    CellsOfCovered(DropCells(rs, n), x);
    assert all == all[..n] + all[n..];
  }

  // ----- Where new pages go

  /** The placement rule, in terms of free pages only. */
  ghost predicate PlacementRule(p: Pool, preferred: Option<int>, count: nat, pages: seq<nat>) {
    && |pages| == count
    && if preferred.Some? && FreeSpan(p, preferred.value, count) then Follows(pages, preferred.value)
       else if exists b :: FreeSpan(p, b, count) then LowestSpan(p, count, pages)
       else LowestPages(p, pages)
  }

  /** Consecutive pages from begin on. */
  ghost predicate Follows(pages: seq<nat>, begin: int) {
    forall i :: 0 <= i < |pages| ==> pages[i] == begin + i
  }

  ghost predicate LowestSpan(p: Pool, count: nat, pages: seq<nat>) {
    exists b :: FreeSpan(p, b, count) && Follows(pages, b) && forall c :: FreeSpan(p, c, count) ==> b <= c
  }

  ghost predicate LowestPages(p: Pool, pages: seq<nat>) {
    && (forall i, j :: 0 <= i < j < |pages| ==> pages[i] < pages[j])
    && (forall i :: 0 <= i < |pages| ==> FreeAt(p, pages[i]))
    && (forall x, i :: FreeAt(p, x) && x !in pages && 0 <= i < |pages| ==> pages[i] < x)
  }

  /** Pages chosen by the rule are free and in strictly ascending order, hence distinct. */
  lemma PlacedPagesAreFree(p: Pool, preferred: Option<int>, count: nat, pages: seq<nat>)
    requires PlacementRule(p, preferred, count, pages) && count > 0
    ensures forall i :: 0 <= i < |pages| ==> FreeAt(p, pages[i])
    ensures forall i, j :: 0 <= i < j < |pages| ==> pages[i] < pages[j]
  {
  }

  /** The pages form one consecutive run exactly when some run of free pages is long enough. */
  lemma ConsecutiveIffSomeRunFits(p: Pool, preferred: Option<int>, count: nat, pages: seq<nat>)
    requires Valid(p) && PlacementRule(p, preferred, count, pages) && count > 0
    ensures Follows(pages, pages[0]) <==> exists k :: 0 <= k < |p.free| && p.free[k].count >= count
  {
    hide Valid;
    PlacedPagesAreFree(p, preferred, count, pages);
    if Follows(pages, pages[0]) {
      forall x | pages[0] <= x < pages[0] + count ensures FreeAt(p, x) { assert pages[x - pages[0]] == x; }
      var k := SpanInOneRun(p, pages[0], count);
    }
    if k :| 0 <= k < |p.free| && p.free[k].count >= count {
      RunIsFreeSpan(p, k, p.free[k].begin, count);
      assert FreeSpan(p, p.free[k].begin, count);
    }
  }

  /** The rule leaves no choice. */
  lemma PlacementIsUnique(p: Pool, preferred: Option<int>, count: nat, a: seq<nat>, b: seq<nat>)
    requires PlacementRule(p, preferred, count, a) && PlacementRule(p, preferred, count, b)
    ensures a == b
  {
    if preferred.Some? && FreeSpan(p, preferred.value, count) {
    } else if exists c :: FreeSpan(p, c, count) {
    } else {
      LowestPagesAgree(p, a, b, 0);
    }
  }

  lemma {:induction false} LowestPagesAgree(p: Pool, a: seq<nat>, b: seq<nat>, n: nat)
    requires LowestPages(p, a) && LowestPages(p, b) && n <= |a| == |b| && a[..n] == b[..n]
    ensures a == b
    decreases |a| - n
  {
    if n < |a| {
      LowestPageAgrees(p, a, b, n);
      LowestPageAgrees(p, b, a, n);
      assert a[..n + 1] == a[..n] + [a[n]] && b[..n + 1] == b[..n] + [b[n]];
      LowestPagesAgree(p, a, b, n + 1);
    }
  }

  lemma LowestPageAgrees(p: Pool, a: seq<nat>, b: seq<nat>, n: nat)
    requires LowestPages(p, a) && LowestPages(p, b) && n < |a| == |b| && a[..n] == b[..n]
    ensures a[n] <= b[n]
  {
    assert FreeAt(p, b[n]);
    forall i | 0 <= i < n ensures a[i] == b[i] < b[n] { assert a[..n][i] == b[..n][i]; }
  }

  function RunBegin(r: Run): int { r.begin }

  /** The only run that can hold a span is the last one that starts no later. */
  lemma SpanInCandidate(p: Pool, begin: int, count: nat)
    requires Valid(p) && count > 0
    ensures FreeSpan(p, begin, count) <==>
              var k := UpperBound(RunBegin, p.free, begin);
              k > 0 && p.free[k - 1].begin <= begin && begin + count <= p.free[k - 1].End()
  {
    hide Valid;
    RunFacts(p);
    var k := UpperBound(RunBegin, p.free, begin);
    if FreeSpan(p, begin, count) {
      var j := SpanInOneRun(p, begin, count);
      assert j < k;
    }
    if k > 0 && p.free[k - 1].begin <= begin && begin + count <= p.free[k - 1].End() {
      RunIsFreeSpan(p, k - 1, begin, count);
    }
  }

  /** The first run that is long enough starts the lowest free span. */
  lemma FirstFitIsLowest(p: Pool, count: nat)
    requires Valid(p) && count > 0
    ensures var k := FirstFit(p.free, count);
            && (k < |p.free| ==> FreeSpan(p, p.free[k].begin, count))
            && (k < |p.free| ==> forall b :: FreeSpan(p, b, count) ==> p.free[k].begin <= b)
            && (k == |p.free| ==> forall b :: !FreeSpan(p, b, count))
  {
    hide Valid, Normal;
    RunFacts(p);
    FirstFitLowest(p.free, count);
    forall b ensures FreeSpan(p, b, count) <==> Within(p.free, b, count) {}
  }

  // ----- Effects

  /** q is p with the pages handed out under reservations that covered them. */
  ghost predicate Taken(p: Pool, q: Pool, pages: seq<nat>) {
    && Valid(q) && q.capacity == p.capacity
    && q.generations == p.generations
    && |q.used| == |p.used|
    && (forall x :: 0 <= x < |p.used| ==> (q.used[x] <==> p.used[x] || x in pages))
    && q.allocatedPages == p.allocatedPages + |pages|
  }

  /** q is p with the pages returned, and every handle to them outdated. */
  ghost predicate Freed(p: Pool, q: Pool, pages: seq<nat>) {
    && Valid(q) && q.capacity == p.capacity
    && |q.used| == |p.used| && |q.generations| == |p.generations|
    && (forall x :: 0 <= x < |p.used| ==> (q.used[x] <==> p.used[x] && x !in pages))
    && (forall x :: 0 <= x < |p.generations| ==>
          q.generations[x] == p.generations[x] + (if x in pages then 1 else 0))
    && q.allocatedPages + |pages| == p.allocatedPages
  }

  /** Returning exactly the pages that were taken restores the free runs and the count. */
  lemma TakenThenFreed(p: Pool, q: Pool, r: Pool, pages: seq<nat>)
    requires Valid(p) && Taken(p, q, pages) && Freed(q, r, pages)
    requires forall i :: 0 <= i < |pages| ==> FreeAt(p, pages[i])
    ensures r.free == p.free && r.used == p.used && r.allocatedPages == p.allocatedPages
    ensures r == p.(generations := r.generations, reservedPages := r.reservedPages)
  {
    forall x | 0 <= x < |p.used| ensures r.used[x] == p.used[x] {}
    assert r.used == p.used;
    FreeRunsDetermined(p, r);
  }

  lemma {:induction false} CountTrueUpdate(bs: seq<bool>, i: nat, b: bool)
    requires i < |bs|
    ensures CountTrue(bs[i := b]) + (if bs[i] then 1 else 0) == CountTrue(bs) + (if b then 1 else 0)
  {
    if i == 0 {
      assert bs[i := b][1..] == bs[1..];
    } else {
      CountTrueUpdate(bs[1..], i - 1, b);
      assert bs[i := b][1..] == bs[1..][i - 1 := b];
    }
  }

  /** The bits after pages are marked. */
  function Mark(bs: seq<bool>, pages: seq<nat>): (r: seq<bool>)
    ensures |r| == |bs| && forall x :: 0 <= x < |bs| ==> (r[x] <==> bs[x] || x in pages)
  {
    seq(|bs|, x requires 0 <= x < |bs| => bs[x] || x in pages)
  }

  lemma {:induction false} MarkCount(bs: seq<bool>, pages: seq<nat>)
    requires forall i :: 0 <= i < |pages| ==> pages[i] < |bs| && !bs[pages[i]]
    requires forall i, j :: 0 <= i < j < |pages| ==> pages[i] < pages[j]
    ensures CountTrue(Mark(bs, pages)) == CountTrue(bs) + |pages|
  {
    if pages == [] {
      assert Mark(bs, pages) == bs;
    } else {
      var rest, last := pages[..|pages| - 1], pages[|pages| - 1];
      MarkCount(bs, rest);
      assert last !in rest;
      assert pages == rest + [last];
      assert Mark(bs, pages) == Mark(bs, rest)[last := true];
      CountTrueUpdate(Mark(bs, rest), last, true);
    }
  }

  /** One page back on the free list. */
  function Unmark(p: Pool, x: nat): Pool
    requires x < |p.used| && x < |p.generations| && p.allocatedPages > 0
  {
    p.(used := p.used[x := false],
       generations := p.generations[x := p.generations[x] + 1],
       free := Insert(p.free, Run(x, 1)),
       allocatedPages := p.allocatedPages - 1)
  }

  lemma {:induction false} SomeTrue(bs: seq<bool>, x: nat)
    requires x < |bs| && bs[x]
    ensures CountTrue(bs) > 0
  {
    if x > 0 { SomeTrue(bs[1..], x - 1); }
  }

  lemma UnmarkFree(p: Pool, x: nat)
    requires Valid(p) && x < p.capacity && p.used[x]
    ensures var free := Insert(p.free, Run(x, 1));
            && Normal(free) && Total(free) == Total(p.free) + 1
            && forall y :: Covers(free, y) <==> FreeAt(p, y) || y == x
  {
    hide Valid, Normal, Covers, Insert, Total;
    RunFacts(p);
    InsertCorrect(p.free, Run(x, 1));
    forall y ensures Run(x, 1).Has(y) <==> y == x {}
  }

  lemma UnmarkValid(p: Pool, x: nat)
    requires Valid(p) && x < p.capacity && p.used[x]
    ensures p.allocatedPages > 0
    ensures Valid(Unmark(p, x)) && Freed(p, Unmark(p, x), [x])
  {
    hide Normal, Covers, Insert, Total, CountTrue;
    SomeTrue(p.used, x);
    CountTrueUpdate(p.used, x, false);
    UnmarkFree(p, x);
  }

  lemma FreedNothing(p: Pool)
    requires Valid(p)
    ensures Freed(p, p, [])
  {
  }

  /** Distinct leased pages are no more than the count of allocated pages. */
  lemma {:induction false} DistinctUsedPages(bs: seq<bool>, pages: seq<nat>)
    requires forall i :: 0 <= i < |pages| ==> pages[i] < |bs| && bs[pages[i]]
    requires forall i, j :: 0 <= i < j < |pages| ==> pages[i] != pages[j]
    ensures |pages| <= CountTrue(bs)
    decreases |pages|
  {
    if pages != [] {
      var rest := bs[pages[0] := false];
      CountTrueUpdate(bs, pages[0], false);
      DistinctUsedPages(rest, pages[1..]);
    }
  }

  /** The run list never needs more than the capacity-many entries reserved for it. */
  lemma RunsFitReserve(p: Pool)
    requires Valid(p)
    ensures |p.free| <= p.capacity
  {
    LengthAtMostTotal(p.free);
  }

  lemma FreedSnoc(p: Pool, q: Pool, r: Pool, pages: seq<nat>, x: nat)
    requires Freed(p, q, pages) && Freed(q, r, [x]) && x !in pages
    ensures Freed(p, r, pages + [x])
  {
    hide Valid;
  }

  lemma {:induction false} CellsConcat(a: seq<Run>, b: seq<Run>)
    ensures CellsOf(a + b) == CellsOf(a) + CellsOf(b)
  {
    if a == [] {
      assert a + b == b;
    } else {
      CellsConcat(a[1..], b);
      assert (a + b)[1..] == a[1..] + b && (a + b)[0] == a[0];
      var head := Span(a[0].begin, a[0].count);
      assert head + (CellsOf(a[1..]) + CellsOf(b)) == (head + CellsOf(a[1..])) + CellsOf(b);
    }
  }

  /** The next cells after the first i runs are the front of run i. */
  lemma CellsNext(rs: seq<Run>, i: nat, take: nat)
    requires i < |rs| && take <= rs[i].count
    ensures Total(rs[..i]) + take <= |CellsOf(rs)|
    ensures CellsOf(rs)[..Total(rs[..i]) + take] == CellsOf(rs)[..Total(rs[..i])] + Span(rs[i].begin, take)
  {
    var done := Total(rs[..i]);
    assert rs == rs[..i] + rs[i..] && rs[i..][0] == rs[i];
    CellsConcat(rs[..i], rs[i..]);
    CellsOfTotal(rs[..i]);
    var front := Span(rs[i].begin, rs[i].count);
    assert CellsOf(rs[i..]) == front + CellsOf(rs[i..][1..]);
    assert front[..take] == Span(rs[i].begin, take);
    assert CellsOf(rs)[..done] == CellsOf(rs[..i]);
    assert CellsOf(rs)[..done + take] == CellsOf(rs[..i]) + front[..take];
  }

  lemma MarkMark(bs: seq<bool>, a: seq<nat>, b: seq<nat>)
    ensures Mark(Mark(bs, a), b) == Mark(bs, a + b)
  {
  }

  /** Handing out pages that reservations covered keeps the invariant. */
  lemma TakeValid(p: Pool, pages: seq<nat>, free: seq<Run>)
    requires Valid(p) && |pages| <= p.reservedPages
    requires forall i :: 0 <= i < |pages| ==> FreeAt(p, pages[i])
    requires forall i, j :: 0 <= i < j < |pages| ==> pages[i] < pages[j]
    requires Normal(free) && Total(free) == Total(p.free) - |pages|
    requires forall x :: Covers(free, x) <==> Covers(p.free, x) && x !in pages
    ensures var q := p.(used := Mark(p.used, pages), free := free,
                        allocatedPages := p.allocatedPages + |pages|, reservedPages := p.reservedPages - |pages|);
            Taken(p, q, pages)
  {
    hide Normal, Covers, Total, CountTrue;
    MarkCount(p.used, pages);
  }

  /** A prefix of an ascending list of all free pages is the lowest ones. */
  lemma PrefixIsLowest(p: Pool, all: seq<nat>, n: nat)
    requires n <= |all| && forall x :: x in all <==> FreeAt(p, x)
    requires forall i, j :: 0 <= i < j < |all| ==> all[i] < all[j]
    ensures LowestPages(p, all[..n])
  {
    forall i | 0 <= i < n ensures FreeAt(p, all[..n][i]) { assert all[i] in all; }
    forall x, i | FreeAt(p, x) && x !in all[..n] && 0 <= i < n ensures all[..n][i] < x {
      assert all == all[..n] + all[n..] && x in all[n..];
      var j :| 0 <= j < |all| - n && all[n..][j] == x;
      assert all[i] < all[n + j];
    }
  }

  /** The lowest n free pages, and the list without them. */
  lemma LowestCells(p: Pool, n: nat)
    requires Valid(p) && n <= p.reservedPages
    ensures n <= Total(p.free) == |CellsOf(p.free)|
    ensures LowestPages(p, CellsOf(p.free)[..n])
    ensures Normal(DropCells(p.free, n)) && Total(DropCells(p.free, n)) == Total(p.free) - n
    ensures forall x :: Covers(DropCells(p.free, n), x) <==> Covers(p.free, x) && x !in CellsOf(p.free)[..n]
  {
    hide Valid, Normal, Covers, DropCells, CellsOf, Total, LowestPages, FreeAt;
    RunFacts(p);
    CellsOfTotal(p.free);
    CellsOfAscend(p.free);
    DropCellsIsNormal(p.free, n);
    forall x ensures Covers(DropCells(p.free, n), x) <==> Covers(p.free, x) && x !in CellsOf(p.free)[..n] {
      DropCellsCovered(p.free, n, x);
    }
    forall x: int ensures x in CellsOf(p.free) <==> FreeAt(p, x) { CellsOfCovered(p.free, x); }
    PrefixIsLowest(p, CellsOf(p.free), n);
  }

  /** The scatter loop stands at run i with n pages still to take, having taken all of the runs before. */
  ghost predicate ScatterAt(rs: seq<Run>, count: nat, i: nat, n: nat) {
    && i <= |rs| && n <= count <= Total(rs)
    && count - n == Total(rs[..i])
    && n <= Total(rs[i..])
    && DropCells(rs, count) == DropCells(rs[i..], n)
  }

  lemma ScatterStart(rs: seq<Run>, count: nat)
    requires count <= Total(rs)
    ensures ScatterAt(rs, count, 0, count) && |CellsOf(rs)| == Total(rs)
  {
    assert rs[0..] == rs;
    CellsOfTotal(rs);
  }

  lemma ScatterEnd(rs: seq<Run>, count: nat, i: nat)
    requires ScatterAt(rs, count, i, 0)
    ensures i <= |rs| && DropCells(rs, count) == rs[i..]
  {
  }

  /** One turn of the scatter loop: there is a run, and what is taken from it comes next in order. */
  lemma ScatterStep(rs: seq<Run>, count: nat, i: nat, n: nat)
    requires ScatterAt(rs, count, i, n) && n > 0
    ensures i < |rs| && n <= count <= |CellsOf(rs)|
    ensures var take: nat := Min(n, rs[i].count);
            && CellsOf(rs)[..count - n + take] == CellsOf(rs)[..count - n] + Span(rs[i].begin, take)
            && (take == rs[i].count ==> ScatterAt(rs, count, i + 1, n - take))
            && (take < rs[i].count ==>
                  n == take && DropCells(rs, count) == [Run(rs[i].begin + take, rs[i].count - take)] + rs[i + 1..])
  {
    CellsOfTotal(rs);
    assert rs[|rs|..] == [];
    assert rs[i..][0] == rs[i] && rs[i..][1..] == rs[i + 1..];
    var take: nat := Min(n, rs[i].count);
    CellsNext(rs, i, take);
    assert rs[..i + 1] == rs[..i] + [rs[i]];
    TotalConcat(rs[..i], [rs[i]]);
    OneTotal(rs[i]);
  }

  // ----- Leases over whole runs

  function Pairs(generations: seq<nat>, pages: seq<nat>): (r: set<Ticket>)
    requires forall i :: 0 <= i < |pages| ==> pages[i] < |generations|
    ensures forall x, g :: (x, g) in r <==> x in pages && x < |generations| && g == generations[x]
  {
    set i | 0 <= i < |pages| :: (pages[i], generations[pages[i]])
  }

  /** Leases for free pages get tickets never handed out before. */
  lemma MintSound(owners: set<Ticket>, minted: set<Ticket>, used: seq<bool>, generations: seq<nat>, pages: seq<nat>)
    requires HandlesSound(owners, minted, used, generations)
    requires forall i :: 0 <= i < |pages| ==> pages[i] < |used| && !used[pages[i]]
    ensures var dealt := Pairs(generations, pages);
            && HandlesSound(owners + dealt, minted + dealt, Mark(used, pages), generations)
            && dealt !! minted
  {
  }

  /** Returning a page ends its lease and no other. */
  lemma RetireSound(owners: set<Ticket>, minted: set<Ticket>, used: seq<bool>, generations: seq<nat>, x: nat)
    requires HandlesSound(owners, minted, used, generations) && x < |used|
    ensures HandlesSound(owners - {(x, generations[x])}, minted, used[x := false],
                         generations[x := generations[x] + 1])
  {
    var after, bits := generations[x := generations[x] + 1], used[x := false];
    forall t: Ticket ensures t in owners - {(x, generations[x])} <==> Current(bits, after, t) {
      assert t in owners <==> Current(used, generations, t);
    }
  }

  /** The pool, the leases that are still owned, and every lease ever handed out. */
  datatype World = World(pool: Pool, owners: set<Ticket>, minted: set<Ticket>)

  ghost predicate Sound(w: World) {
    Valid(w.pool) && HandlesSound(w.owners, w.minted, w.pool.used, w.pool.generations)
  }

  /** Leases for free pages are handed out. */
  ghost predicate Handed(v: World, w: World, pages: seq<nat>) {
    && Taken(v.pool, w.pool, pages)
    && (forall i :: 0 <= i < |pages| ==> FreeAt(v.pool, pages[i]) && pages[i] < |v.pool.generations|)
    && w.owners == v.owners + Pairs(v.pool.generations, pages)
    && w.minted == v.minted + Pairs(v.pool.generations, pages)
  }

  /** Leases are returned. */
  ghost predicate Returned(v: World, w: World, pages: seq<nat>) {
    && Freed(v.pool, w.pool, pages)
    && (forall i :: 0 <= i < |pages| ==> pages[i] < |v.pool.generations|)
    && w.owners == v.owners - Pairs(v.pool.generations, pages)
    && w.minted == v.minted
  }

  /** Only promises move. */
  ghost predicate Promised(v: World, w: World) {
    Valid(w.pool) && w == v.(pool := v.pool.(reservedPages := w.pool.reservedPages))
  }

  /** One call on the pool. */
  ghost predicate Step(v: World, w: World) {
    || (exists pages :: Handed(v, w, pages))
    || (exists pages :: Returned(v, w, pages))
    || Promised(v, w)
  }

  lemma HandedSound(v: World, w: World, pages: seq<nat>)
    requires Sound(v) && Handed(v, w, pages)
    ensures Sound(w) && v.minted <= w.minted
    ensures w.owners - v.owners == w.minted - v.minted == Pairs(v.pool.generations, pages)
  {
    hide Valid;
    RunFacts(v.pool);
    MintSound(v.owners, v.minted, v.pool.used, v.pool.generations, pages);
    assert w.pool.used == Mark(v.pool.used, pages);
  }

  lemma ReturnedSound(v: World, w: World, pages: seq<nat>)
    requires Sound(v) && Returned(v, w, pages)
    ensures Sound(w)
  {
    hide Valid;
    RunFacts(v.pool);
    var p, q := v.pool, w.pool;
    forall t: Ticket ensures t in w.owners <==> Current(q.used, q.generations, t) {
      assert t in v.owners <==> Current(p.used, p.generations, t);
      assert t in v.minted ==> t.0 < |p.generations| && t.1 <= p.generations[t.0];
    }
    forall t | t in w.minted
      ensures t.0 < |q.generations| && t.1 <= q.generations[t.0] && (t.1 == q.generations[t.0] ==> t in w.owners)
    {
      assert t in v.minted;
    }
  }

  lemma StepSound(v: World, w: World)
    requires Sound(v) && Step(v, w)
    ensures Sound(w) && v.minted <= w.minted && w.minted - v.minted <= w.owners
    ensures w.owners <= v.owners + (w.minted - v.minted)
    ensures w.pool.capacity == v.pool.capacity
  {
    hide Valid, HandlesSound;
    if pages :| Handed(v, w, pages) {
      HandedSound(v, w, pages);
    } else if pages :| Returned(v, w, pages) {
      ReturnedSound(v, w, pages);
    }
  }

  /** The worlds a run of calls passes through. */
  ghost predicate PoolRun(ws: seq<World>) {
    ws != [] && Sound(ws[0]) && forall i :: 0 <= i < |ws| - 1 ==> Step(ws[i], ws[i + 1])
  }

  lemma {:induction false} RunSound(ws: seq<World>, n: nat)
    requires PoolRun(ws) && n < |ws|
    ensures Sound(ws[n])
  {
    hide Sound, Step;
    if n > 0 {
      RunSound(ws, n - 1);
      StepSound(ws[n - 1], ws[n]);
    }
  }

  /** As many leases are owned as pages are allocated. */
  lemma {:induction false} LeasedCount(used: seq<bool>, generations: seq<nat>, from: nat)
    requires |used| == |generations| && from <= |used|
    ensures |set i | from <= i < |used| && used[i] :: (i, generations[i])| == CountTrue(used[from..])
    decreases |used| - from
  {
    var leased := set i | from <= i < |used| && used[i] :: (i, generations[i]);
    if from == |used| {
      assert leased == {};
    } else {
      LeasedCount(used, generations, from + 1);
      var rest := set i | from + 1 <= i < |used| && used[i] :: (i, generations[i]);
      assert used[from..][1..] == used[from + 1..];
      if used[from] {
        assert leased == rest + {(from, generations[from])};
      } else {
        assert leased == rest;
      }
    }
  }

  lemma OwnersCount(w: World)
    requires Sound(w)
    ensures |w.owners| == w.pool.allocatedPages
  {
    var used, generations := w.pool.used, w.pool.generations;
    LeasedCount(used, generations, 0);
    var leased := set i | 0 <= i < |used| && used[i] :: (i, generations[i]);
    assert used[0..] == used;
    forall t: Ticket ensures t in w.owners <==> t in leased {
      assert t in w.owners <==> Current(used, generations, t);
      if t in leased { assert Current(used, generations, t); }
    }
    assert w.owners == leased;
  }

  /** Safety over every run: the free runs are the maximal runs of unleased pages, promises never exceed
      what is free, a handle validates exactly while the lease it was minted for is owned, no page has
      two owned leases, and there are as many as pages are allocated. */
  lemma EveryPoolRunIsSafe(ws: seq<World>, n: nat)
    requires PoolRun(ws) && n < |ws|
    ensures var p, owners := ws[n].pool, ws[n].owners;
            && Normal(p.free) && p.allocatedPages + p.reservedPages <= p.capacity
            && (forall x :: Covers(p.free, x) <==> 0 <= x < p.capacity && forall g :: (x, g) !in owners)
            && (forall t :: Current(p.used, p.generations, t) <==> t in owners)
            && (forall x, g, h :: (x, g) in owners && (x, h) in owners ==> g == h)
            && |owners| == p.allocatedPages
  {
    hide Valid, Normal, Covers, Step;
    RunSound(ws, n);
    var w := ws[n];
    var p := w.pool;
    RunFacts(p);
    OwnersCount(w);
    forall x: nat, g: nat, h: nat | (x, g) in w.owners && (x, h) in w.owners ensures g == h {
      assert Current(p.used, p.generations, (x, g)) && Current(p.used, p.generations, (x, h));
    }
    forall x: nat ensures Covers(p.free, x) <==> x < p.capacity && forall g :: (x, g) !in w.owners {
      assert FreeAt(p, x) <==> Covers(p.free, x);
      if x < p.capacity && p.used[x] { assert Current(p.used, p.generations, (x, p.generations[x])); }
      forall g | (x, g) in w.owners ensures !FreeAt(p, x) { assert Current(p.used, p.generations, (x, g)); }
    }
  }

  /** A lease that has ended never validates again, however the run goes on. */
  lemma {:induction false} DeadLeasesStayDead(ws: seq<World>, n: nat, m: nat, t: Ticket)
    requires PoolRun(ws) && n <= m < |ws| && t in ws[n].minted && t !in ws[n].owners
    ensures !Current(ws[m].pool.used, ws[m].pool.generations, t)
    ensures t in ws[m].minted && t !in ws[m].owners
  {
    hide Step, Valid;
    RunSound(ws, m);
    if n < m {
      DeadLeasesStayDead(ws, n, m - 1, t);
      RunSound(ws, m - 1);
      StepSound(ws[m - 1], ws[m]);
    }
    assert t in ws[m].owners <==> Current(ws[m].pool.used, ws[m].pool.generations, t);
  }
}
