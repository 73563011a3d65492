/** Predicting the effect of releasing page runs inside allocations, without releasing them. */
module ArenaSuballocation {
  import opened Common
  import opened Runs
  import opened ArenaState
  import opened ArenaTheorems
  import opened ArenaPlans

  /** A page run of a live allocation that the caller proposes to release. */
  datatype Sub = Sub(ticket: Ticket, begin: nat, count: nat) {
    function End(): nat { begin + count }
    predicate Has(page: nat) { begin <= page < begin + count }
  }

  predicate InRange(s: Arena, r: Sub) {
    Live(s, r.ticket) && r.count > 0 && r.End() <= s.descriptors[r.ticket.descriptor].pages
  }

  predicate Clash(a: Sub, b: Sub) {
    a.ticket == b.ticket && a.begin < b.End() && b.begin < a.End()
  }

  ghost predicate WellFormed(s: Arena, rs: seq<Sub>) {
    && (forall i :: 0 <= i < |rs| ==> InRange(s, rs[i]))
    && (forall i, j :: 0 <= i < j < |rs| ==> !Clash(rs[i], rs[j]))
  }

  /** Page runs are well formed exactly when each is a nonempty run of pages of a live allocation and no page is in two
      of them. */
  lemma WellFormedMeans(s: Arena, rs: seq<Sub>)
    ensures WellFormed(s, rs) <==>
              && (forall i :: 0 <= i < |rs| ==>
                    Live(s, rs[i].ticket) && 0 < rs[i].count
                    && rs[i].begin + rs[i].count <= s.descriptors[rs[i].ticket.descriptor].pages)
              && (forall i, j, page: nat :: 0 <= i < j < |rs| && rs[i].ticket == rs[j].ticket ==>
                    !(rs[i].Has(page) && rs[j].Has(page)))
  {
    forall i, j | 0 <= i < j < |rs| && 0 < rs[i].count && 0 < rs[j].count
      ensures Clash(rs[i], rs[j]) <==>
                rs[i].ticket == rs[j].ticket && exists page: nat :: rs[i].Has(page) && rs[j].Has(page)
    {
      var first: nat := Max(rs[i].begin, rs[j].begin);
      assert Clash(rs[i], rs[j]) ==> rs[i].Has(first) && rs[j].Has(first);
    }
  }

  /** The page stride of a descriptor, zero when it names none. */
  function StrideOf(s: Arena, i: nat): nat {
    if i < |s.descriptors| && s.descriptors[i].layout < |s.layouts| then s.layouts[s.descriptors[i].layout].pageStride
    else 0
  }

  function ExtentOf(s: Arena, r: Sub): Run {
    if r.ticket.descriptor >= |s.descriptors| then Run(0, 0) else
    Run(s.descriptors[r.ticket.descriptor].offset + r.begin * StrideOf(s, r.ticket.descriptor),
        r.count * StrideOf(s, r.ticket.descriptor))
  }

  function SubExtents(s: Arena, rs: seq<Sub>): (es: seq<Run>)
    ensures |es| == |rs|
    ensures forall i :: 0 <= i < |rs| ==> es[i] == ExtentOf(s, rs[i])
  {
    seq(|rs|, i requires 0 <= i < |rs| => ExtentOf(s, rs[i]))
  }

  /** The free list that releasing the page runs would leave. */
  function SubFree(s: Arena, rs: seq<Sub>): seq<Run> {
    InsertAll(s.free, SubExtents(s, rs))
  }

  lemma DescriptorFacts(s: Arena, t: Ticket)
    requires Valid(s) && Live(s, t)
    ensures var d := s.descriptors[t.descriptor];
            && d.layout < |s.layouts| && d.pages > 0
            && StrideOf(s, t.descriptor) == s.layouts[d.layout].pageStride > 0
            && d.bytes == d.pages * StrideOf(s, t.descriptor)
            && Smallest(s.layouts) <= StrideOf(s, t.descriptor)
  {
    assert Sized(s.layouts, s.capacity, s.descriptors[t.descriptor]);
  }

  /** No byte of a live allocation is free. */
  lemma HeldNotFree(s: Arena, t: Ticket)
    requires Valid(s) && Live(s, t)
    ensures forall x :: s.descriptors[t.descriptor].Holds(x) ==> !Covers(s.free, x)
  {
    hide Valid, Covers;
    FreeListFacts(s);
    forall x | s.descriptors[t.descriptor].Holds(x) ensures !Covers(s.free, x) { assert Owned(s.descriptors, x); }
  }

  /** The extent of a page run is nonempty and lies inside its allocation. */
  lemma ExtentInside(s: Arena, r: Sub)
    requires Valid(s) && InRange(s, r)
    ensures var d := s.descriptors[r.ticket.descriptor];
            && ExtentOf(s, r).count > 0
            && d.offset <= ExtentOf(s, r).begin && ExtentOf(s, r).End() <= d.offset + d.bytes
            && forall x :: ExtentOf(s, r).Has(x) ==> d.Holds(x) && !Covers(s.free, x)
  {
    hide Valid, Covers, StrideOf;
    DescriptorFacts(s, r.ticket);
    var d := s.descriptors[r.ticket.descriptor];
    PagesInside(r.begin, r.count, d.pages, StrideOf(s, r.ticket.descriptor));
    HeldNotFree(s, r.ticket);
  }

  lemma PagesInside(begin: nat, count: nat, pages: nat, stride: nat)
    requires begin + count <= pages && count > 0 && stride > 0
    ensures count * stride > 0 && begin * stride + count * stride <= pages * stride
  {
    MulSum(begin, count, stride);
    MulMonotone(begin + count, pages, stride);
    MulAtLeast(count, stride);
  }

  lemma DistinctDescriptorsApart(s: Arena, a: Ticket, b: Ticket)
    requires Valid(s) && Live(s, a) && Live(s, b) && a != b
    ensures var d, e := s.descriptors[a.descriptor], s.descriptors[b.descriptor];
            d.offset + d.bytes <= e.offset || e.offset + e.bytes <= d.offset
  {
  }

  /** Page runs that do not clash have disjoint extents. */
  lemma ExtentsApart(s: Arena, a: Sub, b: Sub)
    requires Valid(s) && InRange(s, a) && InRange(s, b) && !Clash(a, b)
    ensures ExtentOf(s, a).End() <= ExtentOf(s, b).begin || ExtentOf(s, b).End() <= ExtentOf(s, a).begin
  {
    hide Valid;
    ExtentInside(s, a);
    ExtentInside(s, b);
    if a.ticket == b.ticket {
      var stride := StrideOf(s, a.ticket.descriptor);
      MulSum(a.begin, a.count, stride);
      MulSum(b.begin, b.count, stride);
      if a.End() <= b.begin { MulMonotone(a.End(), b.begin, stride); } else { MulMonotone(b.End(), a.begin, stride); }
    } else {
      DistinctDescriptorsApart(s, a.ticket, b.ticket);
    }
  }

  /** The predicted free list is in normal form and frees exactly the proposed page runs. */
  lemma SubFreeCorrect(s: Arena, rs: seq<Sub>)
    requires Valid(s) && WellFormed(s, rs)
    ensures Normal(SubFree(s, rs))
    ensures forall x :: Covers(SubFree(s, rs), x) <==> Covers(s.free, x) || Covers(SubExtents(s, rs), x)
    ensures Total(SubFree(s, rs)) == Total(s.free) + Total(SubExtents(s, rs))
  {
    hide Valid;
    FreeListFacts(s);
    var es := SubExtents(s, rs);
    forall i | 0 <= i < |es| ensures es[i].count > 0 && Apart(s.free, es[i]) { ExtentInside(s, rs[i]); }
    forall i, j | 0 <= i < j < |es| ensures es[i].End() <= es[j].begin || es[j].End() <= es[i].begin {
      ExtentsApart(s, rs[i], rs[j]);
    }
    InsertAllCorrect(s.free, es);
  }

  lemma NoSubs(s: Arena)
    ensures WellFormed(s, []) && SubFree(s, []) == s.free
  {
  }

  lemma WellFormedStep(s: Arena, rs: seq<Sub>, i: nat)
    requires i < |rs| && WellFormed(s, rs[..i]) && InRange(s, rs[i])
    requires forall k :: 0 <= k < i ==> !Clash(rs[k], rs[i])
    ensures WellFormed(s, rs[..i + 1])
    ensures SubFree(s, rs[..i + 1]) == Insert(SubFree(s, rs[..i]), ExtentOf(s, rs[i]))
  {
    hide Insert;
    var before, after := rs[..i], rs[..i + 1];
    assert after == before + [rs[i]];
    forall k | 0 <= k < i ensures before[k] == rs[k] {}
    assert SubExtents(s, after) == SubExtents(s, before) + [ExtentOf(s, rs[i])];
    InsertAllSnoc(s.free, SubExtents(s, before), ExtentOf(s, rs[i]));
  }

  lemma WellFormedAt(s: Arena, rs: seq<Sub>, i: nat)
    requires WellFormed(s, rs) && i < |rs|
    ensures InRange(s, rs[i])
  {
  }

  lemma NotWellFormed(s: Arena, rs: seq<Sub>, k: nat, i: nat)
    requires k <= i < |rs| && (!InRange(s, rs[i]) || (k < i && Clash(rs[k], rs[i])))
    ensures !WellFormed(s, rs)
  {
  }

  /** The answer of can_allocate_after_suballocation_releases, in which no descriptor is counted. */
  ghost predicate CanAllocateAfter(s: Arena, rs: seq<Sub>, qs: seq<Request>)
    requires Valid(s)
  {
    && WellFormed(s, rs)
    && (SubFreeCorrect(s, rs); FreeListFacts(s); PlaceAll(s.layouts, SubFree(s, rs), qs).Some?)
  }

  /** In any state that has given back exactly those page runs, whatever the order and however the
      allocations were cut up, allocating the targets in order succeeds exactly when predicted. */
  lemma PredictionIsExact(s: Arena, rs: seq<Sub>, qs: seq<Request>, after: Arena)
    requires Valid(s) && WellFormed(s, rs)
    requires Valid(after) && after.layouts == s.layouts
    requires forall x :: Covers(after.free, x) <==> Covers(s.free, x) || Covers(SubExtents(s, rs), x)
    ensures AllocateAll(after, qs).Some? <==> CanAllocateAfter(s, rs, qs)
  {
    hide Valid, Covers;
    SubFreeCorrect(s, rs);
    FreeListFacts(after);
    NormalUnique(after.free, SubFree(s, rs));
    AllocateAllAsPlaced(after, qs);
  }

  // ----- The releases can actually be carried out

  /** Cuts and drops that all succeed, one after another. */
  function Perform(s: Arena, es: seq<Event>): Option<Arena>
    requires Valid(s)
    decreases es
  {
    if es == [] then Some(s) else
    match es[0]
    case Alloc(_, _) => None
    case Drop(t) =>
      if !Live(s, t) then None else
      ReleaseValid(s, t);
      Perform(Release(s, t), es[1..])
    case Cut(t, at) =>
      if !CanSplit(s, t, at) then None else
      SplitValid(s, t, at);
      Perform(Split(s, t, at).arena, es[1..])
  }

  lemma {:induction false} PerformConcat(s: Arena, a: seq<Event>, b: seq<Event>)
    requires Valid(s) && Perform(s, a).Some? && Valid(Perform(s, a).value)
    ensures Perform(s, a + b) == Perform(Perform(s, a).value, b)
    decreases a
  {
    hide Valid;
    if a == [] {
      assert a + b == b;
    } else {
      assert (a + b)[1..] == a[1..] + b;
      match a[0]
      case Drop(t) =>
        ReleaseValid(s, t);
        PerformConcat(Release(s, t), a[1..], b);
      case Cut(t, at) =>
        SplitValid(s, t, at);
        PerformConcat(Split(s, t, at).arena, a[1..], b);
    }
  }

  /** Bytes [begin, begin + pages * stride) of some allocation, on its page boundaries. */
  datatype Piece = Piece(layout: nat, begin: nat, pages: nat)

  function PieceRun(s: Arena, p: Piece): Run {
    Run(p.begin, p.pages * (if p.layout < |s.layouts| then s.layouts[p.layout].pageStride else 0))
  }

  /** Piece p is pages [at, at + p.pages) of the live allocation t. */
  predicate PieceAt(s: Arena, p: Piece, t: Ticket, at: nat) {
    && Live(s, t)
    && s.descriptors[t.descriptor].layout == p.layout
    && s.descriptors[t.descriptor].offset + at * StrideOf(s, t.descriptor) == p.begin
    && at + p.pages <= s.descriptors[t.descriptor].pages
  }

  ghost predicate Cuttable(s: Arena, p: Piece) {
    p.pages > 0 && exists t: Ticket, at: nat :: PieceAt(s, p, t, at)
  }

  ghost predicate PiecesApart(s: Arena, p: Piece, q: Piece) {
    PieceRun(s, p).End() <= q.begin || PieceRun(s, q).End() <= p.begin
  }

  /** Cutting an allocation anywhere but inside a piece leaves the piece in one allocation. */
  lemma SplitKeepsPiece(s: Arena, t: Ticket, at: nat, p: Piece)
    requires Valid(s) && CanSplit(s, t, at) && Cuttable(s, p)
    requires var x := s.descriptors[t.descriptor].offset + at * StrideOf(s, t.descriptor);
             x <= p.begin || PieceRun(s, p).End() <= x
    ensures Valid(Split(s, t, at).arena) && Cuttable(Split(s, t, at).arena, p)
  {
    hide Valid;
    SplitValid(s, t, at);
    SplitTiles(s, t, at);
    var h := Split(s, t, at);
    assert h.arena.layouts == s.layouts;
    hide Split;
    var u: Ticket, b: nat :| PieceAt(s, p, u, b);
    DescriptorFacts(s, t);
    DescriptorFacts(s, u);
    if u == t {
      var stride := StrideOf(s, t.descriptor);
      PieceSide(at, b, p.pages, stride);
      if b + p.pages <= at {
        assert PieceAt(h.arena, p, h.left, b);
      } else {
        MulSum(at, b - at, stride);
        assert PieceAt(h.arena, p, h.right, b - at);
      }
    } else {
      assert u.descriptor != t.descriptor && u.descriptor != h.right.descriptor;
      assert PieceAt(h.arena, p, u, b);
    }
  }

  lemma PieceSide(at: nat, b: nat, pages: nat, stride: nat)
    requires stride > 0 && pages > 0
    requires at * stride <= b * stride || b * stride + pages * stride <= at * stride
    ensures at <= b || b + pages <= at
  {
    MulSum(b, pages, stride);
    if b < at && at < b + pages {
      MulMonotone(b + 1, at, stride);
      MulMonotone(at + 1, b + pages, stride);
      MulSum(b, 1, stride);
      MulSum(at, 1, stride);
    }
  }

  /** Releasing an allocation leaves alone every piece outside it. */
  lemma ReleaseKeepsPiece(s: Arena, t: Ticket, p: Piece)
    requires Valid(s) && Live(s, t) && Cuttable(s, p)
    requires var d := s.descriptors[t.descriptor];
             d.offset + d.bytes <= p.begin || PieceRun(s, p).End() <= d.offset
    ensures Valid(Release(s, t)) && Cuttable(Release(s, t), p)
  {
    hide Valid;
    var u: Ticket, b: nat :| PieceAt(s, p, u, b);
    DescriptorFacts(s, u);
    PagesInside(b, p.pages, s.descriptors[u.descriptor].pages, StrideOf(s, u.descriptor));
    assert u != t;
    ReleaseKeepsOthers(s, t, u);
    assert PieceAt(Release(s, t), p, u, b);
  }

  /** Pieces apart from p that could be cut out of s can still be cut out of u. */
  ghost predicate KeepsOtherPieces(s: Arena, u: Arena, p: Piece) {
    && u.layouts == s.layouts
    && forall q :: Cuttable(s, q) && PiecesApart(s, p, q) ==> Cuttable(u, q)
  }

  lemma KeepsTransitive(s: Arena, u: Arena, v: Arena, p: Piece)
    requires KeepsOtherPieces(s, u, p) && KeepsOtherPieces(u, v, p)
    ensures KeepsOtherPieces(s, v, p) && PieceRun(s, p) == PieceRun(u, p)
  {
    hide Cuttable;
  }

  /** One cut at the front or at the back of a piece. */
  lemma CutBeside(s: Arena, p: Piece, t: Ticket, at: nat)
    requires Valid(s) && CanSplit(s, t, at)
    requires var x := s.descriptors[t.descriptor].offset + at * StrideOf(s, t.descriptor);
             x == p.begin || x == PieceRun(s, p).End()
    ensures var u := Split(s, t, at).arena;
            Valid(u) && u.free == s.free && KeepsOtherPieces(s, u, p) && Perform(s, [Cut(t, at)]) == Some(u)
  {
    hide Valid;
    SplitValid(s, t, at);
    var u := Split(s, t, at).arena;
    assert u.layouts == s.layouts;
    hide Split, Cuttable;
    forall q | Cuttable(s, q) && PiecesApart(s, p, q) ensures Cuttable(u, q) { SplitKeepsPiece(s, t, at, q); }
  }

  lemma FrontCut(s: Arena, p: Piece, t: Ticket, at: nat) returns (es: seq<Event>, u: Arena, v: Ticket)
    requires Valid(s) && PieceAt(s, p, t, at) && p.pages > 0
    ensures Valid(u) && u.free == s.free && KeepsOtherPieces(s, u, p) && Perform(s, es) == Some(u)
    ensures PieceAt(u, p, v, 0)
  {
    hide Valid, Cuttable;
    if at == 0 {
      es, u, v := [], s, t;
    } else {
      DescriptorFacts(s, t);
      CutBeside(s, p, t, at);
      SplitValid(s, t, at);
      SplitTiles(s, t, at);
      es, u, v := [Cut(t, at)], Split(s, t, at).arena, Split(s, t, at).right;
      DescriptorFacts(u, v);
    }
  }

  lemma BackCut(s: Arena, p: Piece, t: Ticket) returns (es: seq<Event>, u: Arena, v: Ticket)
    requires Valid(s) && PieceAt(s, p, t, 0) && p.pages > 0
    ensures Valid(u) && u.free == s.free && KeepsOtherPieces(s, u, p) && Perform(s, es) == Some(u)
    ensures PieceAt(u, p, v, 0) && u.descriptors[v.descriptor].pages == p.pages
  {
    hide Valid, Cuttable;
    if s.descriptors[t.descriptor].pages == p.pages {
      es, u, v := [], s, t;
    } else {
      DescriptorFacts(s, t);
      CutBeside(s, p, t, p.pages);
      SplitValid(s, t, p.pages);
      SplitTiles(s, t, p.pages);
      es, u, v := [Cut(t, p.pages)], Split(s, t, p.pages).arena, Split(s, t, p.pages).left;
      DescriptorFacts(u, v);
    }
  }

  /** A piece that is a whole allocation is released by one drop. */
  lemma DropPiece(s: Arena, p: Piece, t: Ticket)
    requires Valid(s) && PieceAt(s, p, t, 0) && p.pages > 0 && s.descriptors[t.descriptor].pages == p.pages
    ensures var u := Release(s, t);
            && Valid(u) && KeepsOtherPieces(s, u, p) && Perform(s, [Drop(t)]) == Some(u)
            && forall x :: Covers(u.free, x) <==> Covers(s.free, x) || PieceRun(s, p).Has(x)
  {
    hide Valid, Covers;
    ReleaseValid(s, t);
    ReleaseFree(s, t);
    DescriptorFacts(s, t);
    var d, u := s.descriptors[t.descriptor], Release(s, t);
    assert u.layouts == s.layouts;
    hide Release, Cuttable;
    forall x ensures PieceRun(s, p).Has(x) <==> d.Holds(x) {}
    forall q | Cuttable(s, q) && PiecesApart(s, p, q) ensures Cuttable(u, q) { ReleaseKeepsPiece(s, t, q); }
  }

  /** Any piece of a live allocation can be cut out and released: two cuts at most, and one drop. */
  lemma CutOut(s: Arena, p: Piece) returns (es: seq<Event>, u: Arena)
    requires Valid(s) && Cuttable(s, p)
    ensures Valid(u) && KeepsOtherPieces(s, u, p) && Perform(s, es) == Some(u)
    ensures forall x :: Covers(u.free, x) <==> Covers(s.free, x) || PieceRun(s, p).Has(x)
  {
    var t: Ticket, at: nat :| PieceAt(s, p, t, at);
    hide Valid, Covers, Cuttable, PieceAt, Perform, KeepsOtherPieces, Release;
    var front, s1, t1 := FrontCut(s, p, t, at);
    var back, s2, t2 := BackCut(s1, p, t1);
    PerformConcat(s, front, back);
    DropPiece(s2, p, t2);
    PerformConcat(s, front + back, [Drop(t2)]);
    es, u := front + back + [Drop(t2)], Release(s2, t2);
    KeepsTransitive(s, s1, s2, p);
    KeepsTransitive(s, s2, u, p);
  }

  function PieceRuns(s: Arena, ps: seq<Piece>): (rs: seq<Run>)
    ensures |rs| == |ps| && forall i :: 0 <= i < |ps| ==> rs[i] == PieceRun(s, ps[i])
  {
    seq(|ps|, i requires 0 <= i < |ps| => PieceRun(s, ps[i]))
  }

  ghost predicate AllApart(s: Arena, ps: seq<Piece>) {
    forall i, j :: 0 <= i < j < |ps| ==> PiecesApart(s, ps[i], ps[j])
  }

  lemma {:induction false} CutOutAll(s: Arena, ps: seq<Piece>) returns (es: seq<Event>, u: Arena)
    requires Valid(s) && AllApart(s, ps) && forall i :: 0 <= i < |ps| ==> Cuttable(s, ps[i])
    ensures Valid(u) && u.layouts == s.layouts && Perform(s, es) == Some(u)
    ensures forall x :: Covers(u.free, x) <==> Covers(s.free, x) || Covers(PieceRuns(s, ps), x)
    decreases |ps|
  {
    hide Valid, Covers, Cuttable, Perform;
    if ps == [] {
      es, u := [], s;
      forall x ensures !Covers(PieceRuns(s, ps), x) { CoversNone(x); }
      PerformNothing(s);
    } else {
      var first, s1 := CutOut(s, ps[0]);
      var rest, s2 := CutOutAll(s1, ps[1..]);
      PerformConcat(s, first, rest);
      es, u := first + rest, s2;
      var all := PieceRuns(s, ps);
      assert all[1..] == PieceRuns(s1, ps[1..]);
      forall x ensures Covers(all, x) <==> PieceRun(s, ps[0]).Has(x) || Covers(PieceRuns(s1, ps[1..]), x) {
        CoversTail(all, x);
      }
    }
  }

  lemma PerformNothing(s: Arena)
    requires Valid(s)
    ensures Perform(s, []) == Some(s)
  {
  }

  function PieceOf(s: Arena, r: Sub): Piece
    requires r.ticket.descriptor < |s.descriptors|
  {
    Piece(s.descriptors[r.ticket.descriptor].layout, ExtentOf(s, r).begin, r.count)
  }

  /** The page runs can be split out and released by operations that all succeed, and from there the
      targets can be allocated in order exactly when the prediction says so. */
  lemma PredictionIsAchieved(s: Arena, rs: seq<Sub>, qs: seq<Request>) returns (es: seq<Event>, after: Arena)
    requires Valid(s) && WellFormed(s, rs)
    ensures Perform(s, es) == Some(after) && Valid(after)
    ensures forall x :: Covers(after.free, x) <==> Covers(s.free, x) || Covers(SubExtents(s, rs), x)
    ensures AllocateAll(after, qs).Some? <==> CanAllocateAfter(s, rs, qs)
  {
    hide Valid, Covers, Perform;
    var ps := seq(|rs|, i requires 0 <= i < |rs| => PieceOf(s, rs[i]));
    forall i | 0 <= i < |rs| ensures Cuttable(s, ps[i]) && PieceRun(s, ps[i]) == ExtentOf(s, rs[i]) {
      DescriptorFacts(s, rs[i].ticket);
      assert PieceAt(s, ps[i], rs[i].ticket, rs[i].begin);
    }
    forall i, j | 0 <= i < j < |ps| ensures PiecesApart(s, ps[i], ps[j]) { ExtentsApart(s, rs[i], rs[j]); }
    es, after := CutOutAll(s, ps);
    assert PieceRuns(s, ps) == SubExtents(s, rs);
    PredictionIsExact(s, rs, qs, after);
  }
}
