/** Counting descriptors for a suballocation plan: the count never refuses what the extents admit. */
module ArenaCensus {
  import opened Common
  import opened Runs
  import opened Sorting
  import opened KvLayout
  import opened ArenaState
  import opened ArenaPlans
  import opened ArenaSuballocation

  type Interval = (nat, nat)

  function SelfKey(p: Interval): (nat, nat) { p }

  /** The released page intervals of one descriptor, in request order. */
  function Intervals(rs: seq<Sub>, i: nat): seq<Interval> {
    if rs == [] then [] else
    Intervals(rs[..|rs| - 1], i)
    + (if rs[|rs| - 1].ticket.descriptor == i then [(rs[|rs| - 1].begin, rs[|rs| - 1].End())] else [])
  }

  /** Page runs left between and around the sorted released intervals. */
  function RetainedRuns(ivs: seq<Interval>, cursor: nat, pages: nat): nat {
    if ivs == [] then (if cursor < pages then 1 else 0)
    else (if ivs[0].0 > cursor then 1 else 0) + RetainedRuns(ivs[1..], ivs[0].1, pages)
  }

  function Length(ivs: seq<Interval>): int {
    if ivs == [] then 0 else ivs[0].1 - ivs[0].0 + Length(ivs[1..])
  }

  /** Nonempty intervals in order inside [lo, hi). */
  ghost predicate Chain(ivs: seq<Interval>, lo: nat, hi: nat) {
    if ivs == [] then lo <= hi else lo <= ivs[0].0 < ivs[0].1 && Chain(ivs[1..], ivs[0].1, hi)
  }

  /** Every retained run keeps a page of its own. */
  lemma {:induction false} RetainedRunsKeepPages(ivs: seq<Interval>, cursor: nat, pages: nat)
    requires Chain(ivs, cursor, pages)
    ensures RetainedRuns(ivs, cursor, pages) + Length(ivs) <= pages - cursor
  {
    if ivs != [] { RetainedRunsKeepPages(ivs[1..], ivs[0].1, pages); }
  }

  ghost predicate Clear(p: Interval, ivs: seq<Interval>) {
    forall k :: 0 <= k < |ivs| ==> p.1 <= ivs[k].0 || ivs[k].1 <= p.0
  }

  lemma {:induction false} ChainBound(ivs: seq<Interval>, lo: nat, hi: nat)
    requires Chain(ivs, lo, hi)
    ensures lo <= hi
  {
    if ivs != [] { ChainBound(ivs[1..], ivs[0].1, hi); }
  }

  lemma {:induction false} PlaceChain(p: Interval, ivs: seq<Interval>, lo: nat, hi: nat)
    requires Chain(ivs, lo, hi) && lo <= p.0 < p.1 <= hi && Clear(p, ivs)
    ensures Chain(Place(SelfKey, p, ivs), lo, hi)
    ensures Length(Place(SelfKey, p, ivs)) == Length(ivs) + p.1 - p.0
  {
    if ivs != [] {
      assert p.1 <= ivs[0].0 || ivs[0].1 <= p.0;
      if Before(p, ivs[0]) {
        assert ([p] + ivs)[1..] == ivs;
      } else {
        PlaceChain(p, ivs[1..], ivs[0].1, hi);
        var rest := Place(SelfKey, p, ivs[1..]);
        assert ([ivs[0]] + rest)[1..] == rest;
      }
    } else {
      assert [p][1..] == [];
    }
  }

  ghost predicate Separate(ivs: seq<Interval>, pages: nat) {
    && (forall k :: 0 <= k < |ivs| ==> ivs[k].0 < ivs[k].1 <= pages)
    && (forall j, k :: 0 <= j < k < |ivs| ==> ivs[j].1 <= ivs[k].0 || ivs[k].1 <= ivs[j].0)
  }

  lemma {:induction false} SortChain(ivs: seq<Interval>, pages: nat)
    requires Separate(ivs, pages)
    ensures Chain(Sort(SelfKey, ivs), 0, pages) && Length(Sort(SelfKey, ivs)) == Length(ivs)
  {
    if ivs != [] {
      SortChain(ivs[1..], pages);
      var rest := Sort(SelfKey, ivs[1..]);
      forall k | 0 <= k < |rest| ensures ivs[0].1 <= rest[k].0 || rest[k].1 <= ivs[0].0 {
        SortElements(SelfKey, ivs[1..], rest[k]);
      }
      PlaceChain(ivs[0], rest, 0, pages);
    }
  }

  // ----- Per descriptor

  lemma {:induction false} IntervalOrigin(rs: seq<Sub>, i: nat, k: nat) returns (j: nat)
    requires k < |Intervals(rs, i)|
    ensures j < |rs| && rs[j].ticket.descriptor == i && Intervals(rs, i)[k] == (rs[j].begin, rs[j].End())
  {
    if k < |Intervals(rs[..|rs| - 1], i)| {
      j := IntervalOrigin(rs[..|rs| - 1], i, k);
    } else {
      j := |rs| - 1;
    }
  }

  lemma WellFormedPrefix(s: Arena, rs: seq<Sub>)
    requires WellFormed(s, rs) && rs != []
    ensures WellFormed(s, rs[..|rs| - 1]) && InRange(s, rs[|rs| - 1])
    ensures forall j :: 0 <= j < |rs| - 1 ==> !Clash(rs[j], rs[|rs| - 1])
  {
  }

  lemma {:induction false} IntervalsSeparate(s: Arena, rs: seq<Sub>, i: nat)
    requires WellFormed(s, rs) && i < |s.descriptors|
    ensures Separate(Intervals(rs, i), s.descriptors[i].pages)
  {
    if rs != [] {
      var rest, last := rs[..|rs| - 1], rs[|rs| - 1];
      WellFormedPrefix(s, rs);
      IntervalsSeparate(s, rest, i);
      var ivs := Intervals(rest, i);
      forall k | 0 <= k < |ivs|
        ensures last.ticket.descriptor == i ==> ivs[k].1 <= last.begin || last.End() <= ivs[k].0
      {
        var j := IntervalOrigin(rest, i, k);
        assert rs[j] == rest[j] && InRange(s, rest[j]);
      }
    }
  }

  function RetainedOf(s: Arena, rs: seq<Sub>, i: nat): nat
    requires i < |s.descriptors|
  {
    RetainedRuns(Sort(SelfKey, Intervals(rs, i)), 0, s.descriptors[i].pages)
  }

  ghost function ReleasedPages(rs: seq<Sub>, i: nat): nat {
    if rs == [] then 0
    else ReleasedPages(rs[..|rs| - 1], i) + (if rs[|rs| - 1].ticket.descriptor == i then rs[|rs| - 1].count else 0)
  }

  lemma {:induction false} LengthConcat(a: seq<Interval>, b: seq<Interval>)
    ensures Length(a + b) == Length(a) + Length(b)
  {
    if a == [] {
      assert a + b == b;
    } else {
      LengthConcat(a[1..], b);
      assert (a + b)[1..] == a[1..] + b;
    }
  }

  lemma {:induction false} ReleasedPagesAreIntervals(rs: seq<Sub>, i: nat)
    ensures ReleasedPages(rs, i) == Length(Intervals(rs, i))
  {
    if rs != [] {
      var rest, last := rs[..|rs| - 1], rs[|rs| - 1];
      ReleasedPagesAreIntervals(rest, i);
      if last.ticket.descriptor == i {
        LengthConcat(Intervals(rest, i), [(last.begin, last.End())]);
        assert [(last.begin, last.End())][1..] == [];
      } else {
        assert Intervals(rs, i) == Intervals(rest, i);
      }
    }
  }

  /** An allocation's bytes pay for the released pages and for one smallest page per retained run. */
  lemma DescriptorBudget(s: Arena, rs: seq<Sub>, i: nat)
    requires Valid(s) && WellFormed(s, rs) && i < |s.descriptors| && s.descriptors[i].active
    ensures ReleasedPages(rs, i) * StrideOf(s, i) + RetainedOf(s, rs, i) * Smallest(s.layouts) <= s.descriptors[i].bytes
  {
    hide Valid;
    var d := s.descriptors[i];
    DescriptorFacts(s, Ticket(i, d.generation));
    IntervalsSeparate(s, rs, i);
    SortChain(Intervals(rs, i), d.pages);
    RetainedRunsKeepPages(Sort(SelfKey, Intervals(rs, i)), 0, d.pages);
    ReleasedPagesAreIntervals(rs, i);
    Budget(ReleasedPages(rs, i), RetainedOf(s, rs, i), d.pages, StrideOf(s, i), Smallest(s.layouts));
  }

  lemma Budget(released: nat, retained: nat, pages: nat, stride: nat, m: nat)
    requires released + retained <= pages && m <= stride
    ensures released * stride + retained * m <= pages * stride
  {
    MulSum(released, retained, stride);
    MulMonotone(released + retained, pages, stride);
    MulMonotone(m, stride, retained);
  }

  // ----- Sums over the descriptor table

  /** Descriptors that descriptor i will account for once the first k releases are taken into account. */
  function Weight(s: Arena, rs: seq<Sub>, k: nat, i: nat): nat
    requires k <= |rs| && i < |s.descriptors|
  {
    if !s.descriptors[i].active then 0 else if Touched(rs[..k], i) then RetainedOf(s, rs, i) else 1
  }

  predicate Touched(rs: seq<Sub>, i: nat) {
    exists j :: 0 <= j < |rs| && rs[j].ticket.descriptor == i
  }

  ghost function WeightSum(s: Arena, rs: seq<Sub>, k: nat, n: nat): nat
    requires k <= |rs| && n <= |s.descriptors|
  {
    if n == 0 then 0 else WeightSum(s, rs, k, n - 1) + Weight(s, rs, k, n - 1)
  }

  ghost function ReleasedBytes(s: Arena, rs: seq<Sub>, n: nat): nat
    requires n <= |s.descriptors|
  {
    if n == 0 then 0 else ReleasedBytes(s, rs, n - 1) + ReleasedPages(rs, n - 1) * StrideOf(s, n - 1)
  }

  lemma {:induction false} SumBytesPrefix(ds: seq<Descriptor>, n: nat)
    requires n < |ds|
    ensures SumBytes(ds[..n + 1]) == SumBytes(ds[..n]) + BytesOf(ds[n])
    ensures LiveCount(ds[..n + 1]) == LiveCount(ds[..n]) + (if ds[n].active then 1 else 0)
  {
    if n == 0 {
      assert ds[..1] == [ds[0]] && ds[..1][1..] == [];
    } else {
      SumBytesPrefix(ds[1..], n - 1);
      assert ds[..n + 1][1..] == ds[1..][..n] && ds[..n][1..] == ds[1..][..n - 1];
    }
  }

  lemma {:induction false} UntouchedWeights(s: Arena, rs: seq<Sub>, n: nat)
    requires n <= |s.descriptors|
    ensures WeightSum(s, rs, 0, n) == LiveCount(s.descriptors[..n])
  {
    if n > 0 {
      UntouchedWeights(s, rs, n - 1);
      SumBytesPrefix(s.descriptors, n - 1);
    }
  }

  /** Before any release is looked at, every live allocation weighs one descriptor. */
  lemma CountStart(s: Arena, rs: seq<Sub>)
    requires Valid(s)
    ensures WeightSum(s, rs, 0, |s.descriptors|) + |s.idle| == |s.descriptors|
  {
    hide Valid;
    TableFacts(s);
    UntouchedWeights(s, rs, |s.descriptors|);
    assert s.descriptors[..|s.descriptors|] == s.descriptors;
  }

  lemma {:induction false} WeightStep(s: Arena, rs: seq<Sub>, k: nat, n: nat)
    requires k < |rs| && n <= |s.descriptors| && InRange(s, rs[k])
    ensures var i := rs[k].ticket.descriptor;
            WeightSum(s, rs, k + 1, n)
            == WeightSum(s, rs, k, n) + (if i < n && !Touched(rs[..k], i) then RetainedOf(s, rs, i) - 1 else 0)
  {
    if n > 0 {
      WeightStep(s, rs, k, n - 1);
      TouchedStep(rs, k, n - 1);
    }
  }

  lemma TouchedStep(rs: seq<Sub>, k: nat, i: nat)
    requires k < |rs|
    ensures Touched(rs[..k + 1], i) <==> Touched(rs[..k], i) || rs[k].ticket.descriptor == i
  {
    if Touched(rs[..k], i) {
      var j :| 0 <= j < k && rs[..k][j].ticket.descriptor == i;
      assert rs[..k + 1][j].ticket.descriptor == i;
    }
    if rs[k].ticket.descriptor == i { assert rs[..k + 1][k].ticket.descriptor == i; }
    if Touched(rs[..k + 1], i) {
      var j :| 0 <= j < k + 1 && rs[..k + 1][j].ticket.descriptor == i;
      assert j < k ==> rs[..k][j].ticket.descriptor == i;
    }
  }

  /** An untouched allocation retains one run. */
  lemma {:induction false} UntouchedRetainsOne(s: Arena, rs: seq<Sub>, i: nat)
    requires Valid(s) && i < |s.descriptors| && s.descriptors[i].active && !Touched(rs, i)
    ensures RetainedOf(s, rs, i) == 1
  {
    hide Valid;
    DescriptorFacts(s, Ticket(i, s.descriptors[i].generation));
    UntouchedHasNoIntervals(rs, i);
  }

  lemma {:induction false} UntouchedHasNoIntervals(rs: seq<Sub>, i: nat)
    requires !Touched(rs, i)
    ensures Intervals(rs, i) == []
  {
    if rs != [] {
      assert rs[..|rs|] == rs;
      TouchedStep(rs, |rs| - 1, i);
      UntouchedHasNoIntervals(rs[..|rs| - 1], i);
    }
  }

  // ----- What the sweep counts

  ghost predicate InSome(ivs: seq<Interval>, p: int) {
    exists k :: 0 <= k < |ivs| && ivs[k].0 <= p < ivs[k].1
  }

  /** A stretch outside the intervals begins here, or at the cursor. */
  ghost predicate StartsGap(ivs: seq<Interval>, cursor: nat, p: nat) {
    !InSome(ivs, p) && (p == cursor || InSome(ivs, p - 1))
  }

  ghost function Gaps(ivs: seq<Interval>, cursor: nat, pages: nat): set<nat> {
    set p | cursor <= p < pages && StartsGap(ivs, cursor, p)
  }

  lemma {:induction false} ChainAbove(ivs: seq<Interval>, lo: nat, hi: nat, p: int)
    requires Chain(ivs, lo, hi) && InSome(ivs, p)
    ensures lo <= p < hi
  {
    if ivs != [] {
      InSomeTail(ivs, p);
      ChainBound(ivs[1..], ivs[0].1, hi);
      if InSome(ivs[1..], p) { ChainAbove(ivs[1..], ivs[0].1, hi, p); }
    }
  }

  lemma InSomeTail(ivs: seq<Interval>, p: int)
    requires ivs != []
    ensures InSome(ivs, p) <==> ivs[0].0 <= p < ivs[0].1 || InSome(ivs[1..], p)
  {
    if InSome(ivs[1..], p) {
      var k :| 0 <= k < |ivs| - 1 && ivs[1..][k].0 <= p < ivs[1..][k].1;
      assert ivs[k + 1].0 <= p < ivs[k + 1].1;
    }
    if InSome(ivs, p) {
      var k :| 0 <= k < |ivs| && ivs[k].0 <= p < ivs[k].1;
      assert k > 0 ==> ivs[1..][k - 1].0 <= p < ivs[1..][k - 1].1;
    }
  }

  lemma {:induction false} SweepCountsGaps(ivs: seq<Interval>, cursor: nat, pages: nat)
    requires Chain(ivs, cursor, pages)
    ensures RetainedRuns(ivs, cursor, pages) == |Gaps(ivs, cursor, pages)|
  {
    hide InSome, Gaps;
    if ivs == [] {
      NoIntervals(cursor, pages);
    } else {
      SweepCountsGaps(ivs[1..], ivs[0].1, pages);
      GapsStep(ivs, cursor, pages);
    }
  }

  lemma NoIntervals(cursor: nat, pages: nat)
    ensures Gaps([], cursor, pages) == if cursor < pages then {cursor} else {}
  {
  }

  lemma GapsStep(ivs: seq<Interval>, cursor: nat, pages: nat)
    requires ivs != [] && Chain(ivs, cursor, pages)
    ensures |Gaps(ivs, cursor, pages)| == (if ivs[0].0 > cursor then 1 else 0) + |Gaps(ivs[1..], ivs[0].1, pages)|
  {
    hide StartsGap, Chain;
    var all, rest := Gaps(ivs, cursor, pages), Gaps(ivs[1..], ivs[0].1, pages);
    forall p: nat ensures p in all <==> (ivs[0].0 > cursor && p == cursor) || p in rest {
      GapStep(ivs, cursor, pages, p);
    }
    assert cursor !in rest by { AfterCursor(ivs, cursor, pages); }
    if ivs[0].0 > cursor {
      assert all == rest + {cursor};
    } else {
      assert all == rest;
    }
  }

  lemma AfterCursor(ivs: seq<Interval>, cursor: nat, pages: nat)
    requires ivs != [] && Chain(ivs, cursor, pages)
    ensures cursor < ivs[0].1
  {
  }

  lemma GapStep(ivs: seq<Interval>, cursor: nat, pages: nat, p: nat)
    requires ivs != [] && Chain(ivs, cursor, pages)
    ensures p in Gaps(ivs, cursor, pages) <==>
              (ivs[0].0 > cursor && p == cursor) || p in Gaps(ivs[1..], ivs[0].1, pages)
  {
    hide InSome;
    ChainBound(ivs[1..], ivs[0].1, pages);
    InSomeTail(ivs, p);
    InSomeTail(ivs, p - 1);
    if InSome(ivs[1..], p) { ChainAbove(ivs[1..], ivs[0].1, pages, p); }
    if InSome(ivs[1..], p - 1) { ChainAbove(ivs[1..], ivs[0].1, pages, p - 1); }
  }

  /** Some release gives up this page of the allocation. */
  ghost predicate GivenUp(rs: seq<Sub>, i: nat, page: int) {
    exists j :: 0 <= j < |rs| && rs[j].ticket.descriptor == i && rs[j].begin <= page < rs[j].End()
  }

  /** A page that is kept, behind one that is not or at the front. */
  ghost predicate StartsRun(rs: seq<Sub>, i: nat, page: nat) {
    !GivenUp(rs, i, page) && (page == 0 || GivenUp(rs, i, page - 1))
  }

  /** The first pages of the runs that an allocation keeps. */
  ghost function KeptRuns(s: Arena, rs: seq<Sub>, i: nat): set<nat>
    requires i < |s.descriptors|
  {
    set p | 0 <= p < s.descriptors[i].pages && StartsRun(rs, i, p)
  }

  lemma {:induction false} IntervalsGiveUp(rs: seq<Sub>, i: nat, p: int)
    ensures InSome(Intervals(rs, i), p) <==> GivenUp(rs, i, p)
  {
    var ivs := Intervals(rs, i);
    if InSome(ivs, p) {
      var k :| 0 <= k < |ivs| && ivs[k].0 <= p < ivs[k].1;
      var j := IntervalOrigin(rs, i, k);
      assert GivenUp(rs, i, p);
    }
    if j :| 0 <= j < |rs| && rs[j].ticket.descriptor == i && rs[j].begin <= p < rs[j].End() {
      IntervalListed(rs, i, j);
    }
  }

  lemma {:induction false} IntervalListed(rs: seq<Sub>, i: nat, j: nat)
    requires j < |rs| && rs[j].ticket.descriptor == i
    ensures (rs[j].begin, rs[j].End()) in Intervals(rs, i)
  {
    if j < |rs| - 1 { IntervalListed(rs[..|rs| - 1], i, j); }
  }

  /** The count of retained runs is the number of maximal runs of pages that no release gives up. */
  lemma RetainedAreRuns(s: Arena, rs: seq<Sub>, i: nat)
    requires Valid(s) && WellFormed(s, rs) && i < |s.descriptors|
    ensures RetainedOf(s, rs, i) == |KeptRuns(s, rs, i)|
  {
    hide Valid, InSome, GivenUp, Chain;
    var ivs, pages := Intervals(rs, i), s.descriptors[i].pages;
    var sorted := Sort(SelfKey, ivs);
    IntervalsSeparate(s, rs, i);
    SortChain(ivs, pages);
    SweepCountsGaps(sorted, 0, pages);
    forall p: int ensures InSome(sorted, p) <==> GivenUp(rs, i, p) {
      IntervalsGiveUp(rs, i, p);
      SortedInSome(ivs, p);
    }
    assert Gaps(sorted, 0, pages) == KeptRuns(s, rs, i);
  }

  lemma SortedInSome(ivs: seq<Interval>, p: int)
    ensures InSome(Sort(SelfKey, ivs), p) <==> InSome(ivs, p)
  {
    var sorted := Sort(SelfKey, ivs);
    if k :| 0 <= k < |sorted| && sorted[k].0 <= p < sorted[k].1 {
      SortElements(SelfKey, ivs, sorted[k]);
      assert sorted[k] in ivs;
    }
    if k :| 0 <= k < |ivs| && ivs[k].0 <= p < ivs[k].1 {
      SortElements(SelfKey, ivs, ivs[k]);
      assert ivs[k] in sorted;
    }
  }

  /** Once all releases have been looked at, every live allocation weighs the runs it keeps: the descriptors that
      carrying the releases out would leave it. */
  lemma WeightIsRuns(s: Arena, rs: seq<Sub>, i: nat)
    requires Valid(s) && WellFormed(s, rs) && i < |s.descriptors|
    ensures Weight(s, rs, |rs|, i) == if s.descriptors[i].active then |KeptRuns(s, rs, i)| else 0
  {
    hide Valid, KeptRuns, RetainedOf, WellFormed, Touched;
    RetainedAreRuns(s, rs, i);
    assert rs[..|rs|] == rs;
    if s.descriptors[i].active && !Touched(rs, i) { UntouchedRetainsOne(s, rs, i); }
  }

  /** DescriptorBudget for any entry of the table, live or idle. */
  lemma EntryBudget(s: Arena, rs: seq<Sub>, i: nat)
    requires Valid(s) && WellFormed(s, rs) && i < |s.descriptors| && s.capacity > 0
    ensures ReleasedPages(rs, i) * StrideOf(s, i) + Weight(s, rs, |rs|, i) * Smallest(s.layouts)
            <= BytesOf(s.descriptors[i])
  {
    hide Valid, WellFormed;
    assert rs[..|rs|] == rs;
    if s.descriptors[i].active {
      DescriptorBudget(s, rs, i);
      if !Touched(rs, i) { UntouchedRetainsOne(s, rs, i); }
    } else {
      NothingReleased(s, rs, i);
    }
  }

  /** Over the whole table, live bytes pay for every released page and every descriptor still needed. */
  lemma {:induction false} TableBudget(s: Arena, rs: seq<Sub>, n: nat)
    requires Valid(s) && WellFormed(s, rs) && n <= |s.descriptors| && s.capacity > 0
    ensures ReleasedBytes(s, rs, n) + WeightSum(s, rs, |rs|, n) * Smallest(s.layouts) <= SumBytes(s.descriptors[..n])
  {
    hide Valid, WellFormed, Weight;
    if n > 0 {
      TableBudget(s, rs, n - 1);
      SumBytesPrefix(s.descriptors, n - 1);
      MulSum(WeightSum(s, rs, |rs|, n - 1), Weight(s, rs, |rs|, n - 1), Smallest(s.layouts));
      EntryBudget(s, rs, n - 1);
    }
  }

  lemma {:induction false} NothingReleased(s: Arena, rs: seq<Sub>, i: nat)
    requires WellFormed(s, rs) && i < |s.descriptors| && !s.descriptors[i].active
    ensures ReleasedPages(rs, i) == 0
  {
    if rs != [] {
      WellFormedPrefix(s, rs);
      NothingReleased(s, rs[..|rs| - 1], i);
    }
  }

  lemma {:induction false} ReleasedBytesStep(s: Arena, rs: seq<Sub>, n: nat)
    requires rs != [] && n <= |s.descriptors|
    ensures var last := rs[|rs| - 1];
            ReleasedBytes(s, rs, n) == ReleasedBytes(s, rs[..|rs| - 1], n)
              + (if last.ticket.descriptor < n then last.count * StrideOf(s, last.ticket.descriptor) else 0)
  {
    if n > 0 {
      ReleasedBytesStep(s, rs, n - 1);
      MulSum(ReleasedPages(rs[..|rs| - 1], n - 1), rs[|rs| - 1].count, StrideOf(s, n - 1));
    }
  }

  /** Summed by release or by descriptor, the released bytes are the same. */
  lemma {:induction false} ReleasedBytesAreExtents(s: Arena, rs: seq<Sub>)
    requires WellFormed(s, rs)
    ensures ReleasedBytes(s, rs, |s.descriptors|) == Total(SubExtents(s, rs))
  {
    if rs == [] {
      NoBytesReleased(s, |s.descriptors|);
    } else {
      var rest, last := rs[..|rs| - 1], rs[|rs| - 1];
      WellFormedPrefix(s, rs);
      ReleasedBytesAreExtents(s, rest);
      ReleasedBytesStep(s, rs, |s.descriptors|);
      assert SubExtents(s, rs) == SubExtents(s, rest) + [ExtentOf(s, last)];
      TotalConcat(SubExtents(s, rest), [ExtentOf(s, last)]);
      OneTotal(ExtentOf(s, last));
    }
  }

  lemma {:induction false} NoBytesReleased(s: Arena, n: nat)
    requires n <= |s.descriptors|
    ensures ReleasedBytes(s, [], n) == 0
  {
    if n > 0 { NoBytesReleased(s, n - 1); }
  }

  /** Placed targets take at least one smallest page each. */
  lemma {:induction false} PlacedTargetsNeedBytes(layouts: seq<HostPageLayout>, free: seq<Run>, qs: seq<Request>)
    requires LayoutsOk(layouts) && layouts != [] && Normal(free) && PlaceAll(layouts, free, qs).Some?
    ensures |qs| * Smallest(layouts) + Total(PlaceAll(layouts, free, qs).value.free) <= Total(free)
  {
    hide LayoutsOk, PlaceOne, Normal, Smallest;
    if qs != [] {
      var rest := qs[..|qs| - 1];
      PlacedTargetsNeedBytes(layouts, free, rest);
      PlaceOneNormal(layouts, PlaceAll(layouts, free, rest).value.free, qs[|qs| - 1]);
      MulSum(|rest|, 1, Smallest(layouts));
    }
  }

  lemma CapacityCount(targets: nat, kept: nat, m: nat, capacity: nat)
    requires m > 0 && targets * m + kept * m <= capacity
    ensures targets + kept <= capacity / m
  {
    MulSum(targets, kept, m);
    DivisionGuard(targets + kept, m, capacity);
  }

  /** What the code's two counters come to once every release has been looked at. */
  ghost predicate CountAdmits(s: Arena, rs: seq<Sub>, qs: seq<Request>) {
    |qs| + WeightSum(s, rs, |rs|, |s.descriptors|) <= |s.descriptors|
  }

  /** The descriptor count never refuses a placement that the predicted free list admits. */
  lemma CountNeverRefuses(s: Arena, rs: seq<Sub>, qs: seq<Request>)
    requires Valid(s) && CanAllocateAfter(s, rs, qs)
    ensures CountAdmits(s, rs, qs)
  {
    var n := |s.descriptors|;
    if s.capacity == 0 {
      EmptyArenaPlacesNothing(s, rs, qs);
    } else {
      var m, w := Smallest(s.layouts), WeightSum(s, rs, |rs|, n);
      assert m > 0 && s.occupied == SumBytes(s.descriptors) && s.occupied + Total(s.free) == s.capacity;
      assert n == s.capacity / m;
      hide Valid;
      FreeListFacts(s);
      SubFreeCorrect(s, rs);
      PlacedTargetsNeedBytes(s.layouts, SubFree(s, rs), qs);
      TableBudget(s, rs, n);
      assert s.descriptors[..n] == s.descriptors;
      ReleasedBytesAreExtents(s, rs);
      CapacityCount(|qs|, w, m, s.capacity);
    }
  }

  lemma EmptyArenaPlacesNothing(s: Arena, rs: seq<Sub>, qs: seq<Request>)
    requires Valid(s) && s.capacity == 0 && CanAllocateAfter(s, rs, qs)
    ensures qs == [] && |s.descriptors| == 0
  {
    assert forall i :: 0 <= i < |rs| ==> !InRange(s, rs[i]);
    assert rs == [];
    LengthAtMostTotal(s.free);
    if qs != [] {
      PlaceFailureSticks(s.layouts, s.free, qs, 1);
    }
  }
}
