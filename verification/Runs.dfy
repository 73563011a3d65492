/** Half-open intervals and sorted lists of them.

    The host arena's free extents and the device pool's free page runs are both kept as lists of
    intervals that are nonempty, in ascending order and never touching.  This module states that
    normal form, proves that it is the only such list with a given set of cells, and proves what
    the two list edits (insert with coalescing, take out of one run) do to it.
 */
module Runs {
  datatype Run = Run(begin: nat, count: nat) {
    function End(): nat { begin + count }
    predicate Has(x: int) { begin <= x < begin + count }
  }

  /** Nonempty runs, ascending, with at least one cell missing between neighbours. */
  ghost predicate Normal(rs: seq<Run>) {
    && (forall i :: 0 <= i < |rs| ==> rs[i].count > 0)
    && (forall i, j :: 0 <= i < j < |rs| ==> rs[i].End() < rs[j].begin)
  }

  ghost predicate Covers(rs: seq<Run>, x: int) {
    exists i :: 0 <= i < |rs| && rs[i].Has(x)
  }

  ghost predicate SameCells(a: seq<Run>, b: seq<Run>) {
    forall x :: Covers(a, x) <==> Covers(b, x)
  }

  /** No cell of r is in rs. */
  ghost predicate Apart(rs: seq<Run>, r: Run) {
    forall x :: r.Has(x) ==> !Covers(rs, x)
  }

  function Total(rs: seq<Run>): nat {
    if rs == [] then 0 else rs[0].count + Total(rs[1..])
  }

  /** std::lower_bound on the begin of each run. */
  function LowerBound(rs: seq<Run>, x: nat): (p: nat)
    ensures p <= |rs|
    ensures forall i :: 0 <= i < p ==> rs[i].begin < x
    ensures p < |rs| ==> rs[p].begin >= x
  {
    if rs == [] || rs[0].begin >= x then 0 else 1 + LowerBound(rs[1..], x)
  }

  /** The first run with at least n cells, or |rs|. */
  function FirstFit(rs: seq<Run>, n: nat): (k: nat)
    ensures k <= |rs|
    ensures forall i :: 0 <= i < k ==> rs[i].count < n
    ensures k < |rs| ==> rs[k].count >= n
  {
    if rs == [] || rs[0].count >= n then 0 else 1 + FirstFit(rs[1..], n)
  }

  /** rs with the runs at [lo, hi) replaced by mid. */
  function Splice(rs: seq<Run>, lo: nat, hi: nat, mid: seq<Run>): seq<Run>
    requires lo <= hi <= |rs|
  {
    rs[..lo] + mid + rs[hi..]
  }

  predicate JoinsLeft(rs: seq<Run>, p: nat, r: Run) {
    0 < p <= |rs| && rs[p - 1].End() == r.begin
  }

  predicate JoinsRight(rs: seq<Run>, p: nat, r: Run) {
    p < |rs| && r.End() == rs[p].begin
  }

  /** r together with the runs around index p that touch it. */
  function Merged(rs: seq<Run>, p: nat, r: Run): Run {
    Run(if JoinsLeft(rs, p, r) then rs[p - 1].begin else r.begin,
        (if JoinsLeft(rs, p, r) then rs[p - 1].count else 0) + r.count
        + (if JoinsRight(rs, p, r) then rs[p].count else 0))
  }

  function InsertFrom(rs: seq<Run>, r: Run): (lo: nat)
    ensures lo <= LowerBound(rs, r.begin)
  {
    var p := LowerBound(rs, r.begin);
    if JoinsLeft(rs, p, r) then p - 1 else p
  }

  function InsertTo(rs: seq<Run>, r: Run): (hi: nat)
    ensures LowerBound(rs, r.begin) <= hi <= |rs|
  {
    var p := LowerBound(rs, r.begin);
    if JoinsRight(rs, p, r) then p + 1 else p
  }

  /** The list after r is inserted at its place and merged with a touching neighbour on either side. */
  function Insert(rs: seq<Run>, r: Run): seq<Run> {
    Splice(rs, InsertFrom(rs, r), InsertTo(rs, r), [Merged(rs, LowerBound(rs, r.begin), r)])
  }

  predicate CanTake(rs: seq<Run>, k: nat, begin: nat, count: nat) {
    k < |rs| && count > 0 && rs[k].begin <= begin && begin + count <= rs[k].End()
  }

  /** What is left of r without [begin, begin + count). */
  function Rest(r: Run, begin: nat, count: nat): seq<Run>
    requires count > 0 && r.begin <= begin && begin + count <= r.End()
  {
    (if begin == r.begin then [] else [Run(r.begin, begin - r.begin)])
    + (if begin + count == r.End() then [] else [Run(begin + count, r.End() - (begin + count))])
  }

  /** The list after the cells [begin, begin + count) are removed from run k. */
  function Take(rs: seq<Run>, k: nat, begin: nat, count: nat): seq<Run>
    requires CanTake(rs, k, begin, count)
  {
    Splice(rs, k, k + 1, Rest(rs[k], begin, count))
  }

  lemma {:induction false} TotalConcat(a: seq<Run>, b: seq<Run>)
    ensures Total(a + b) == Total(a) + Total(b)
  {
    if a == [] {
      assert a + b == b;
    } else {
      TotalConcat(a[1..], b);
      assert (a + b)[1..] == a[1..] + b;
    }
  }

  lemma {:induction false} RunAtMostTotal(rs: seq<Run>, k: nat)
    requires k < |rs|
    ensures rs[k].count <= Total(rs)
  {
    if k > 0 { RunAtMostTotal(rs[1..], k - 1); }
  }

  /** A list of nonempty runs has no more runs than cells. */
  lemma {:induction false} LengthAtMostTotal(rs: seq<Run>)
    requires Normal(rs)
    ensures |rs| <= Total(rs)
  {
    if rs != [] { LengthAtMostTotal(rs[1..]); }
  }

  lemma CoversTail(rs: seq<Run>, x: int)
    requires rs != []
    ensures Covers(rs, x) <==> rs[0].Has(x) || Covers(rs[1..], x)
  {
    if Covers(rs, x) && !rs[0].Has(x) {
      var i :| 0 <= i < |rs| && rs[i].Has(x);
      assert rs[1..][i - 1].Has(x);
    }
    if Covers(rs[1..], x) {
      var i :| 0 <= i < |rs[1..]| && rs[1..][i].Has(x);
      assert rs[i + 1].Has(x);
    }
  }

  lemma CoversConcat(a: seq<Run>, b: seq<Run>, x: int)
    ensures Covers(a + b, x) <==> Covers(a, x) || Covers(b, x)
  {
    if Covers(a, x) {
      var i :| 0 <= i < |a| && a[i].Has(x);
      assert (a + b)[i].Has(x);
    }
    if Covers(b, x) {
      var i :| 0 <= i < |b| && b[i].Has(x);
      assert (a + b)[|a| + i].Has(x);
    }
  }

  lemma CoversOne(r: Run, x: int)
    ensures Covers([r], x) <==> r.Has(x)
  {
    if r.Has(x) { assert [r][0].Has(x); }
  }

  /** A normal list covers its first run, and not the cell after it. */
  lemma HeadCells(rs: seq<Run>)
    requires Normal(rs) && rs != []
    ensures forall x :: rs[0].Has(x) ==> Covers(rs, x)
    ensures forall x :: x < rs[0].begin ==> !Covers(rs, x)
    ensures !Covers(rs, rs[0].End())
    ensures Covers(rs, rs[0].begin)
  {
    assert rs[0].Has(rs[0].begin);
  }

  /** A run of a normal list starts after a cell the list does not cover. */
  lemma RunEdge(rs: seq<Run>, k: nat)
    requires Normal(rs) && k < |rs|
    ensures Covers(rs, rs[k].begin) && !Covers(rs, rs[k].begin - 1)
  {
    assert rs[k].Has(rs[k].begin);
  }

  /** The normal form is unique: two normal lists with the same cells are equal. */
  lemma {:induction false} NormalUnique(a: seq<Run>, b: seq<Run>)
    requires Normal(a) && Normal(b) && SameCells(a, b)
    ensures a == b
  {
    if a != [] { HeadCells(a); }
    if b != [] { HeadCells(b); }
    if a != [] && b != [] {
      assert a[0].begin == b[0].begin;
      assert a[0] == b[0];
      forall x ensures Covers(a[1..], x) <==> Covers(b[1..], x) {
        CoversTail(a, x);
        CoversTail(b, x);
      }
      NormalUnique(a[1..], b[1..]);
    }
  }

  lemma SpliceCovers(rs: seq<Run>, lo: nat, hi: nat, mid: seq<Run>, x: int)
    requires lo <= hi <= |rs|
    ensures Covers(Splice(rs, lo, hi, mid), x) <==> Covers(rs[..lo], x) || Covers(mid, x) || Covers(rs[hi..], x)
  {
    CoversConcat(rs[..lo] + mid, rs[hi..], x);
    CoversConcat(rs[..lo], mid, x);
  }

  lemma SpliceTotal(rs: seq<Run>, lo: nat, hi: nat, mid: seq<Run>)
    requires lo <= hi <= |rs|
    ensures Total(Splice(rs, lo, hi, mid)) == Total(rs) - Total(rs[lo..hi]) + Total(mid)
  {
    TotalConcat(rs[..lo] + mid, rs[hi..]);
    TotalConcat(rs[..lo], mid);
    assert rs[..hi] == rs[..lo] + rs[lo..hi];
    TotalConcat(rs[..lo], rs[lo..hi]);
    assert rs == rs[..hi] + rs[hi..];
    TotalConcat(rs[..hi], rs[hi..]);
  }

  /** The replaced runs of a normal list are exactly the covered cells the replacement must account for. */
  lemma SpliceCells(rs: seq<Run>, lo: nat, hi: nat, mid: seq<Run>)
    requires Normal(rs) && lo <= hi <= |rs|
    ensures forall x :: Covers(Splice(rs, lo, hi, mid), x)
                   <==> (Covers(rs, x) && !Covers(rs[lo..hi], x)) || Covers(mid, x)
  {
    assert rs[..hi] == rs[..lo] + rs[lo..hi];
    assert rs == rs[..hi] + rs[hi..];
    assert rs == Splice(rs, lo, hi, rs[lo..hi]);
    forall x ensures Covers(Splice(rs, lo, hi, mid), x)
                <==> (Covers(rs, x) && !Covers(rs[lo..hi], x)) || Covers(mid, x)
    {
      SpliceCovers(rs, lo, hi, mid, x);
      SpliceCovers(rs, lo, hi, rs[lo..hi], x);
      if Covers(rs[lo..hi], x) { KeptApart(rs, lo, hi, x); }
    }
  }

  lemma KeptApart(rs: seq<Run>, lo: nat, hi: nat, x: int)
    requires Normal(rs) && lo <= hi <= |rs| && Covers(rs[lo..hi], x)
    ensures !Covers(rs[..lo], x) && !Covers(rs[hi..], x)
  {
    var i :| 0 <= i < hi - lo && rs[lo..hi][i].Has(x);
    forall j | 0 <= j < lo ensures !rs[..lo][j].Has(x) { assert rs[j].End() < rs[lo + i].begin; }
    forall j | 0 <= j < |rs| - hi ensures !rs[hi..][j].Has(x) { assert rs[lo + i].End() < rs[hi + j].begin; }
  }

  /** A normal replacement that stays clear of both neighbours keeps the list normal. */
  lemma SpliceNormal(rs: seq<Run>, lo: nat, hi: nat, mid: seq<Run>)
    requires Normal(rs) && Normal(mid) && lo <= hi <= |rs|
    requires lo > 0 ==> forall i :: 0 <= i < |mid| ==> rs[lo - 1].End() < mid[i].begin
    requires hi < |rs| ==> forall i :: 0 <= i < |mid| ==> mid[i].End() < rs[hi].begin
    ensures Normal(Splice(rs, lo, hi, mid))
  {
    var s := Splice(rs, lo, hi, mid);
    forall i, j | 0 <= i < j < |s| ensures s[i].End() < s[j].begin {
      var e := lo + |mid|;
      if i < lo && lo <= j < e { assert rs[i].End() <= rs[lo - 1].End(); }
      if lo <= i < e && e <= j { assert rs[hi].begin <= rs[hi + (j - e)].begin; }
    }
  }

  /** The merged run is the inserted one plus the runs it replaces. */
  lemma MergedCells(rs: seq<Run>, p: nat, r: Run)
    requires p <= |rs|
    ensures var lo, hi := if JoinsLeft(rs, p, r) then p - 1 else p, if JoinsRight(rs, p, r) then p + 1 else p;
            && (forall x :: Merged(rs, p, r).Has(x) <==> Covers(rs[lo..hi], x) || r.Has(x))
            && Merged(rs, p, r).count == Total(rs[lo..hi]) + r.count
  {
    var left, right := if JoinsLeft(rs, p, r) then [rs[p - 1]] else [], if JoinsRight(rs, p, r) then [rs[p]] else [];
    var lo, hi := if JoinsLeft(rs, p, r) then p - 1 else p, if JoinsRight(rs, p, r) then p + 1 else p;
    assert rs[lo..hi] == left + right;
    TotalConcat(left, right);
    forall x ensures Merged(rs, p, r).Has(x) <==> Covers(rs[lo..hi], x) || r.Has(x) {
      CoversConcat(left, right, x);
      if left != [] { CoversOne(left[0], x); }
      if right != [] { CoversOne(right[0], x); }
    }
  }

  lemma InsertNormal(rs: seq<Run>, r: Run)
    requires Normal(rs) && r.count > 0 && Apart(rs, r)
    ensures Normal(Insert(rs, r))
  {
    InsertPlace(rs, r);
    hide Covers, LowerBound, Splice;
    SpliceNormal(rs, InsertFrom(rs, r), InsertTo(rs, r), [Merged(rs, LowerBound(rs, r.begin), r)]);
  }

  lemma InsertCells(rs: seq<Run>, r: Run)
    requires Normal(rs)
    ensures forall x :: Covers(Insert(rs, r), x) <==> Covers(rs, x) || r.Has(x)
    ensures Total(Insert(rs, r)) == Total(rs) + r.count
  {
    hide Covers, LowerBound, Splice, Normal;
    var lo, hi, mid := InsertFrom(rs, r), InsertTo(rs, r), Merged(rs, LowerBound(rs, r.begin), r);
    MergedCells(rs, LowerBound(rs, r.begin), r);
    hide Merged;
    SpliceTotal(rs, lo, hi, [mid]);
    SpliceCells(rs, lo, hi, [mid]);
    forall x ensures Covers([mid], x) <==> mid.Has(x) { CoversOne(mid, x); }
    OneTotal(mid);
    SliceCovers(rs, lo, hi);
  }

  /** Inserting a run apart from a normal list keeps it normal and adds exactly that run's cells. */
  lemma InsertCorrect(rs: seq<Run>, r: Run)
    requires Normal(rs) && r.count > 0 && Apart(rs, r)
    ensures Normal(Insert(rs, r))
    ensures forall x :: Covers(Insert(rs, r), x) <==> Covers(rs, x) || r.Has(x)
    ensures Total(Insert(rs, r)) == Total(rs) + r.count
  {
    hide *;
    InsertNormal(rs, r);
    InsertCells(rs, r);
  }

  lemma OneTotal(r: Run)
    ensures Total([r]) == r.count
  {
    assert [r][1..] == [];
  }

  lemma SliceCovers(rs: seq<Run>, lo: nat, hi: nat)
    requires lo <= hi <= |rs|
    ensures forall x :: Covers(rs[lo..hi], x) ==> Covers(rs, x)
  {
    forall x | Covers(rs[lo..hi], x) ensures Covers(rs, x) {
      var i :| 0 <= i < hi - lo && rs[lo..hi][i].Has(x);
      assert rs[lo + i].Has(x);
    }
  }

  /** The neighbours of the insertion point end before, and begin after, a run apart from the list. */
  lemma InsertPlace(rs: seq<Run>, r: Run)
    requires Normal(rs) && r.count > 0 && Apart(rs, r)
    ensures var p := LowerBound(rs, r.begin);
            && (p > 0 ==> rs[p - 1].End() <= r.begin)
            && (p < |rs| ==> r.End() <= rs[p].begin)
  {
    var p := LowerBound(rs, r.begin);
    assert r.Has(r.begin);
    if p > 0 { assert rs[p - 1].Has(r.begin) ==> Covers(rs, r.begin); }
    if p < |rs| {
      assert rs[p].Has(rs[p].begin) && Covers(rs, rs[p].begin);
      assert !r.Has(rs[p].begin);
    }
  }

  /** Taking cells out of one run keeps the list normal and removes exactly those cells. */
  lemma TakeCorrect(rs: seq<Run>, k: nat, begin: nat, count: nat)
    requires Normal(rs) && CanTake(rs, k, begin, count)
    ensures Normal(Take(rs, k, begin, count))
    ensures forall x :: Covers(Take(rs, k, begin, count), x) <==> Covers(rs, x) && !Run(begin, count).Has(x)
    ensures Total(Take(rs, k, begin, count)) == Total(rs) - count
  {
    var rest := Rest(rs[k], begin, count);
    RestCells(rs[k], begin, count);
    assert rs[k..k + 1] == [rs[k]];
    SpliceNormal(rs, k, k + 1, rest);
    SpliceTotal(rs, k, k + 1, rest);
    SpliceCells(rs, k, k + 1, rest);
    forall x ensures Covers(Take(rs, k, begin, count), x) <==> Covers(rs, x) && !Run(begin, count).Has(x) {
      CoversOne(rs[k], x);
    }
  }

  lemma RestCells(r: Run, begin: nat, count: nat)
    requires count > 0 && r.begin <= begin && begin + count <= r.End()
    ensures Normal(Rest(r, begin, count))
    ensures forall x :: Covers(Rest(r, begin, count), x) <==> r.Has(x) && !Run(begin, count).Has(x)
    ensures Total(Rest(r, begin, count)) == r.count - count
  {
    var left := if begin == r.begin then [] else [Run(r.begin, begin - r.begin)];
    var right := if begin + count == r.End() then [] else [Run(begin + count, r.End() - (begin + count))];
    TotalConcat(left, right);
    forall x ensures Covers(Rest(r, begin, count), x) <==> r.Has(x) && !Run(begin, count).Has(x) {
      CoversConcat(left, right, x);
      if left != [] { CoversOne(left[0], x); }
      if right != [] { CoversOne(right[0], x); }
    }
  }

  /** Every cell of [begin, begin + count) is in the list. */
  ghost predicate Within(rs: seq<Run>, begin: int, count: nat) {
    forall x :: begin <= x < begin + count ==> Covers(rs, x)
  }

  /** The cell after a run of a normal list is not in the list. */
  lemma AfterRun(rs: seq<Run>, k: nat)
    requires Normal(rs) && k < |rs|
    ensures !Covers(rs, rs[k].End())
  {
  }

  /** Neighbouring cells lie in one run. */
  lemma WithinOneRun(rs: seq<Run>, begin: int, count: nat) returns (k: nat)
    requires Normal(rs) && Within(rs, begin, count) && count > 0
    ensures k < |rs| && rs[k].begin <= begin && begin + count <= rs[k].End()
  {
    hide Normal;
    assert Covers(rs, begin);
    k :| 0 <= k < |rs| && rs[k].Has(begin);
    AfterRun(rs, k);
  }

  /** The first run that is long enough begins at the lowest place where count cells lie side by side. */
  lemma FirstFitLowest(rs: seq<Run>, count: nat)
    requires Normal(rs) && count > 0
    ensures var k := FirstFit(rs, count);
            if k == |rs| then forall b :: !Within(rs, b, count)
            else Within(rs, rs[k].begin, count) && forall b :: Within(rs, b, count) ==> rs[k].begin <= b
  {
    var k := FirstFit(rs, count);
    if k < |rs| {
      forall x | rs[k].begin <= x < rs[k].begin + count ensures Covers(rs, x) { assert rs[k].Has(x); }
    }
    forall b | Within(rs, b, count) ensures k < |rs| && rs[k].begin <= b {
      var j := WithinOneRun(rs, b, count);
      if k < j { assert rs[k].End() < rs[j].begin; }
    }
  }

  /** Insert undoes Take, at whatever place inside the run the cells were taken. */
  lemma InsertUndoesTake(rs: seq<Run>, k: nat, begin: nat, count: nat)
    requires Normal(rs) && CanTake(rs, k, begin, count)
    ensures Insert(Take(rs, k, begin, count), Run(begin, count)) == rs
  {
    TakeCorrect(rs, k, begin, count);
    InsertCorrect(Take(rs, k, begin, count), Run(begin, count));
    forall x | Run(begin, count).Has(x) ensures Covers(rs, x) { assert rs[k].Has(x); }
    NormalUnique(Insert(Take(rs, k, begin, count), Run(begin, count)), rs);
  }

  /** Two inserts commute. */
  lemma InsertCommutes(rs: seq<Run>, a: Run, b: Run)
    requires Normal(rs) && a.count > 0 && b.count > 0 && Apart(rs, a) && Apart(rs, b)
    requires a.End() <= b.begin || b.End() <= a.begin
    ensures Insert(Insert(rs, a), b) == Insert(Insert(rs, b), a)
  {
    InsertCorrect(rs, a);
    InsertCorrect(rs, b);
    InsertCorrect(Insert(rs, a), b);
    InsertCorrect(Insert(rs, b), a);
    NormalUnique(Insert(Insert(rs, a), b), Insert(Insert(rs, b), a));
  }

  /** The free list after the extents are inserted one by one. */
  function InsertAll(free: seq<Run>, extents: seq<Run>): seq<Run> {
    if extents == [] then free else Insert(InsertAll(free, extents[..|extents| - 1]), extents[|extents| - 1])
  }

  lemma InsertAllSnoc(rs: seq<Run>, extents: seq<Run>, last: Run)
    ensures InsertAll(rs, extents + [last]) == Insert(InsertAll(rs, extents), last)
  {
    assert (extents + [last])[..|extents|] == extents;
  }

  /** Nonempty extents apart from the list and from each other. */
  ghost predicate Insertable(rs: seq<Run>, extents: seq<Run>) {
    && (forall i :: 0 <= i < |extents| ==> extents[i].count > 0 && Apart(rs, extents[i]))
    && (forall i, j :: 0 <= i < j < |extents| ==>
          extents[i].End() <= extents[j].begin || extents[j].End() <= extents[i].begin)
  }

  lemma LastApart(rs: seq<Run>, rest: seq<Run>, last: Run)
    requires Insertable(rs, rest + [last])
    ensures Insertable(rs, rest) && last.count > 0
    ensures forall x :: last.Has(x) ==> !Covers(rs, x) && !Covers(rest, x)
  {
    var all := rest + [last];
    assert all[|rest|] == last;
    forall i | 0 <= i < |rest| ensures rest[i] == all[i] {}
  }

  lemma CoversSnoc(rest: seq<Run>, last: Run, x: int)
    ensures Covers(rest + [last], x) <==> Covers(rest, x) || last.Has(x)
  {
    CoversConcat(rest, [last], x);
    CoversOne(last, x);
  }

  lemma {:induction false} InsertAllCorrect(rs: seq<Run>, extents: seq<Run>)
    requires Normal(rs) && Insertable(rs, extents)
    ensures Normal(InsertAll(rs, extents))
    ensures forall x :: Covers(InsertAll(rs, extents), x) <==> Covers(rs, x) || Covers(extents, x)
    ensures Total(InsertAll(rs, extents)) == Total(rs) + Total(extents)
  {
    hide Normal, Covers, Insert, Insertable;
    if extents == [] {
      forall x ensures !Covers(extents, x) { CoversNone(x); }
    } else {
      var rest, last := extents[..|extents| - 1], extents[|extents| - 1];
      assert extents == rest + [last];
      LastApart(rs, rest, last);
      InsertAllCorrect(rs, rest);
      InsertCorrect(InsertAll(rs, rest), last);
      forall x ensures Covers(extents, x) <==> Covers(rest, x) || last.Has(x) { CoversSnoc(rest, last, x); }
      TotalConcat(rest, [last]);
      OneTotal(last);
    }
  }

  lemma CoversNone(x: int)
    ensures !Covers([], x)
  {
  }
}
