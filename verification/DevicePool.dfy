/** The device page pool as the objects that the program updates in place. */
module DevicePool {
  import opened Common
  import opened Runs
  import opened PagePool

  datatype DeviceKVPageHandle = DeviceKVPageHandle(owner: DeviceKVPagePool?, index: int, generation: nat)

  /** A growable vector of leases with a fixed reserved capacity. */
  class LeaseVector {
    const capacity: nat
    var leases: seq<DeviceKVPageHandle>

    constructor (capacity: nat)
      ensures this.capacity == capacity && leases == []
    {
      this.capacity, leases := capacity, [];
    }
  }

  /** Leases for the pages at the given generations. */
  function LeasesFor(pool: DeviceKVPagePool, generations: seq<nat>, pages: seq<nat>): (hs: seq<DeviceKVPageHandle>)
    requires forall i :: 0 <= i < |pages| ==> pages[i] < |generations|
    ensures |hs| == |pages|
    ensures forall i :: 0 <= i < |pages| ==> hs[i] == DeviceKVPageHandle(pool, pages[i], generations[pages[i]])
  {
    seq(|pages|, i requires 0 <= i < |pages| => DeviceKVPageHandle(pool, pages[i], generations[pages[i]]))
  }

  function IndexesOf(leases: seq<DeviceKVPageHandle>): (pages: seq<nat>)
    ensures |pages| == |leases|
    ensures forall i :: 0 <= i < |leases| ==> pages[i] == (if leases[i].index >= 0 then leases[i].index else 0)
  {
    seq(|leases|, i requires 0 <= i < |leases| => if leases[i].index >= 0 then leases[i].index else 0)
  }

  /** The tickets of a list of leases. */
  function TicketsOf(leases: seq<DeviceKVPageHandle>): (r: set<Ticket>) {
    set i | 0 <= i < |leases| && leases[i].index >= 0 :: (leases[i].index, leases[i].generation)
  }

  /** Where the pages for new leases lie: right behind the predecessor that the caller names, or behind the last lease
      when none is named, if that span is free; else in the lowest span that fits; else on the lowest free pages. */
  ghost predicate PlacedAfter(p: Pool, predecessor: Option<DeviceKVPageHandle>, leases: seq<DeviceKVPageHandle>,
                              count: nat, pages: seq<nat>)
  {
    && |pages| == count
    && (predecessor.Some? && FreeSpan(p, predecessor.value.index + 1, count) ==>
          Follows(pages, predecessor.value.index + 1))
    && (predecessor.None? && leases != [] && FreeSpan(p, leases[|leases| - 1].index + 1, count) ==>
          Follows(pages, leases[|leases| - 1].index + 1))
    && (!(predecessor.Some? && FreeSpan(p, predecessor.value.index + 1, count))
        && !(predecessor.None? && leases != [] && FreeSpan(p, leases[|leases| - 1].index + 1, count)) ==>
          if exists b :: FreeSpan(p, b, count) then LowestSpan(p, count, pages) else LowestPages(p, pages))
  }

  lemma NoTickets()
    ensures TicketsOf([]) == {}
  {
  }

  lemma TicketsSnoc(leases: seq<DeviceKVPageHandle>, h: DeviceKVPageHandle)
    requires h.index >= 0
    ensures TicketsOf(leases + [h]) == TicketsOf(leases) + {(h.index, h.generation)}
  {
    var all := leases + [h];
    forall t | t in TicketsOf(leases) + {(h.index, h.generation)} ensures t in TicketsOf(all) {
      if t in TicketsOf(leases) {
        var i :| 0 <= i < |leases| && leases[i].index >= 0 && t == (leases[i].index, leases[i].generation);
        assert all[i] == leases[i];
      } else {
        assert all[|leases|] == h;
      }
    }
  }

  /** The leases are current in the pool. */
  predicate AllCurrent(p: Pool, leases: seq<DeviceKVPageHandle>) {
    forall i :: 0 <= i < |leases| ==>
      leases[i].index >= 0 && Current(p.used, p.generations, (leases[i].index, leases[i].generation))
  }

  /** Returning the pages of current leases ends exactly those leases. */
  lemma TicketsReturned(v: World, w: World, leases: seq<DeviceKVPageHandle>)
    requires AllCurrent(v.pool, leases) && Freed(v.pool, w.pool, IndexesOf(leases))
    requires w.owners == v.owners - TicketsOf(leases) && w.minted == v.minted
    ensures Returned(v, w, IndexesOf(leases)) && Step(v, w)
  {
    hide Freed;
    var pages := IndexesOf(leases);
    assert forall i :: 0 <= i < |leases| ==> pages[i] == leases[i].index;
    forall t: Ticket ensures t in Pairs(v.pool.generations, pages) <==> t in TicketsOf(leases) {
      if t in TicketsOf(leases) {
        var i :| 0 <= i < |leases| && leases[i].index >= 0 && t == (leases[i].index, leases[i].generation);
        assert pages[i] == t.0;
      }
      if t in Pairs(v.pool.generations, pages) {
        assert t.0 in pages;
        var i :| 0 <= i < |pages| && pages[i] == t.0;
        assert leases[i].index == t.0 && leases[i].generation == t.1;
      }
    }
    assert Pairs(v.pool.generations, pages) == TicketsOf(leases);
  }

  lemma TicketReturned(v: World, w: World, h: DeviceKVPageHandle)
    requires AllCurrent(v.pool, [h]) && h.index >= 0 && Freed(v.pool, w.pool, [h.index])
    requires w.owners == v.owners - {(h.index, h.generation)} && w.minted == v.minted
    ensures Returned(v, w, [h.index]) && Step(v, w)
  {
    hide Freed;
    assert IndexesOf([h]) == [h.index] && [] + [h] == [h];
    TicketsSnoc([], h);
    TicketsReturned(v, w, [h]);
  }

  lemma TicketsHanded(v: World, w: World, pages: seq<nat>)
    requires Valid(v.pool) && Taken(v.pool, w.pool, pages)
    requires forall i :: 0 <= i < |pages| ==> FreeAt(v.pool, pages[i]) && pages[i] < |v.pool.generations|
    requires w.owners == v.owners + Pairs(v.pool.generations, pages)
    requires w.minted == v.minted + Pairs(v.pool.generations, pages)
    ensures Handed(v, w, pages) && Step(v, w)
  {
    hide Taken;
  }

  lemma StandsStill(w: World)
    requires Valid(w.pool)
    ensures Step(w, w)
  {
  }

  lemma LeasesConcat(pool: DeviceKVPagePool, generations: seq<nat>, a: seq<nat>, b: seq<nat>)
    requires forall i :: 0 <= i < |a| ==> a[i] < |generations|
    requires forall i :: 0 <= i < |b| ==> b[i] < |generations|
    ensures forall i :: 0 <= i < |a + b| ==> (a + b)[i] < |generations|
    ensures LeasesFor(pool, generations, a + b) == LeasesFor(pool, generations, a) + LeasesFor(pool, generations, b)
  {
  }

  // ----- The sum of outstanding reservations

  ghost function SumBook(book: map<DeviceKVPageReservation, nat>): nat
    decreases |book|
  {
    if book == map[] then 0 else
    var r :| r in book;
    book[r] + SumBook(book - {r})
  }

  lemma {:induction false} SumBookRemove(book: map<DeviceKVPageReservation, nat>, r: DeviceKVPageReservation)
    requires r in book
    ensures SumBook(book) == book[r] + SumBook(book - {r})
    decreases |book|
  {
    var s :| s in book && SumBook(book) == book[s] + SumBook(book - {s});
    if s != r {
      SumBookRemove(book - {s}, r);
      SumBookRemove(book - {r}, s);
      assert book - {s} - {r} == book - {r} - {s};
    }
  }

  /** Setting one entry changes the sum by the difference. */
  lemma SumBookUpdate(book: map<DeviceKVPageReservation, nat>, r: DeviceKVPageReservation, pages: nat)
    ensures SumBook(book[r := pages]) + (if r in book then book[r] else 0) == SumBook(book) + pages
  {
    SumBookRemove(book[r := pages], r);
    if r in book {
      SumBookRemove(book, r);
      assert book[r := pages] - {r} == book - {r};
    } else {
      assert book[r := pages] - {r} == book;
    }
  }

  lemma EntryAtMostSum(book: map<DeviceKVPageReservation, nat>, r: DeviceKVPageReservation)
    requires r in book
    ensures book[r] <= SumBook(book)
  {
    SumBookRemove(book, r);
  }

  /** Move-only entitlement to pages that have no physical index yet. */
  class DeviceKVPageReservation {
    var owner: DeviceKVPagePool?
    var pages: nat

    constructor (owner: DeviceKVPagePool, pages: nat)
      ensures this.owner == owner && this.pages == pages
    {
      this.owner, this.pages := owner, pages;
    }

    /** Gives the entitlement back but stays bound to the pool. */
    method Clear()
      requires owner != null ==> owner.Valid() && owner.Holds(this)
      modifies this, if owner == null then {} else {owner}
      ensures owner == old(owner)
      ensures owner != null ==>
                && owner.Valid() && owner.Holds(this) && pages == 0
                && owner.State() == old(owner.State()).(reservedPages := owner.reservedPages)
                && owner.reservedPages + old(pages) == old(owner.reservedPages)
                && owner.book == old(owner.book)[this := 0] && Promised(old(owner.Leased()), owner.Leased())
    {
      if owner == null || pages == 0 { return; }
      owner.ReleaseReservation(this, pages);
      pages := 0;
    }

    /** Gives the entitlement back and lets go of the pool. */
    method Release()
      requires owner != null ==> owner.Valid() && owner.Holds(this)
      modifies this, if owner == null then {} else {owner}
      ensures owner == null
      ensures old(owner) != null ==>
                && pages == 0 && old(owner).Valid() && this in old(owner).book && old(owner).book[this] == 0
                && old(owner).State() == old(owner.State()).(reservedPages := old(owner).reservedPages)
                && old(owner).reservedPages + old(pages) == old(owner.reservedPages)
                && old(owner).book == old(owner.book)[this := 0]
                && Promised(old(owner.Leased()), old(owner).Leased())
    {
      if owner == null { return; }
      owner.ReleaseReservation(this, pages);
      owner, pages := null, 0;
    }
  }

  class DeviceKVPagePool {
    const capacity: nat
    var freeRuns: seq<Run>
    var used: seq<bool>
    var generations: seq<nat>
    var allocatedPages: nat
    var reservedPages: nat
    /** Outstanding reservations and the pages each still promises. */
    ghost var book: map<DeviceKVPageReservation, nat>
    /** Every (page, generation) pair a lease was ever made for. */
    ghost var minted: set<Ticket>
    /** The pairs whose lease has not been returned. */
    ghost var owners: set<Ticket>

    function State(): Pool
      reads this
    {
      Pool(capacity, freeRuns, used, generations, allocatedPages, reservedPages)
    }

    ghost predicate Valid()
      reads this
    {
      && PagePool.Valid(State())
      && capacity <= INT32_MAX
      && reservedPages == SumBook(book)
      && HandlesSound(owners, minted, used, generations)
    }

    /** The pool with its leases, as a value. */
    ghost function Leased(): World
      reads this
    {
      World(State(), owners, minted)
    }

    /** The reservation is one of ours and the books agree with it. */
    ghost predicate Holds(r: DeviceKVPageReservation)
      reads this, r
    {
      r.owner == this && r in book && book[r] == r.pages
    }

    predicate ValidHandle(h: DeviceKVPageHandle)
      reads this`used, this`generations
    {
      h.owner == this && 0 <= h.index < |used| && 0 <= h.index < |generations|
      && used[h.index] && generations[h.index] == h.generation
    }

    constructor (capacity: nat)
      requires 0 < capacity <= INT32_MAX
      ensures Valid() && book == map[] && minted == owners == {}
      ensures State() == Pool(capacity, [Run(0, capacity)], seq(capacity, _ => false), seq(capacity, _ => 1), 0, 0)
    {
      this.capacity := capacity;
      freeRuns := [Run(0, capacity)];
      used := seq(capacity, _ => false);
      generations := seq(capacity, _ => 1);
      allocatedPages, reservedPages := 0, 0;
      book, minted, owners := map[], {}, {};
      new;
      NothingUsed(used);
      OneTotal(Run(0, capacity));
      forall x ensures Covers(freeRuns, x) <==> FreeAt(State(), x) { CoversOne(Run(0, capacity), x); }
    }

    static lemma {:induction false} NothingUsed(bs: seq<bool>)
      requires forall i :: 0 <= i < |bs| ==> !bs[i]
      ensures CountTrue(bs) == 0
    {
      if bs != [] { NothingUsed(bs[1..]); }
    }

    function AvailablePages(): int
      reads this
    {
      capacity - allocatedPages - reservedPages
    }

    // ----- Reservations

    method Reserve(pages: nat) returns (r: DeviceKVPageReservation?)
      requires Valid()
      modifies this
      ensures Valid() && Promised(old(Leased()), Leased())
      ensures r == null <==> pages == 0 || old(allocatedPages + reservedPages) + pages > capacity
      ensures r == null ==> unchanged(this)
      ensures r != null ==>
                && fresh(r) && Holds(r) && r.pages == pages
                && State() == old(State()).(reservedPages := old(reservedPages) + pages)
                && book == old(book)[r := pages]
    {
      hide PagePool.Valid, HandlesSound;
      if pages == 0 || pages > AvailablePages() { return null; }
      r := new DeviceKVPageReservation(this, pages);
      assert r !in book;
      SumBookUpdate(book, r, pages);
      PoolValid();
      ReserveValid(State(), pages);
      reservedPages := reservedPages + pages;
      book := book[r := pages];
    }


    predicate CanResize(reservation: DeviceKVPageReservation, pages: nat)
      reads this, reservation
    {
      && reservation.owner == this && reservation.pages <= reservedPages
      && allocatedPages + (reservedPages - reservation.pages) + pages <= capacity
    }

    method ResizeReservation(reservation: DeviceKVPageReservation, pages: nat) returns (r: Result<()>)
      requires Valid() && (reservation.owner == this ==> Holds(reservation))
      modifies this, reservation
      ensures Valid() && Promised(old(Leased()), Leased())
      ensures r == if old(reservation.owner == this
                          && allocatedPages + reservedPages - reservation.pages + pages <= capacity)
                   then Ok(()) else Err(BadAlloc)
      ensures r.Err? ==> unchanged(this) && unchanged(reservation)
      ensures r.Ok? ==>
                && Holds(reservation) && reservation.pages == pages
                && State() == old(State()).(reservedPages := reservedPages)
                && reservedPages + old(reservation.pages) == old(reservedPages) + pages
                && book == old(book)[reservation := pages]
    {
      hide PagePool.Valid, HandlesSound;
      if reservation.owner == this { EntryAtMostSum(book, reservation); }
      if !CanResize(reservation, pages) { return Err(BadAlloc); }
      SumBookUpdate(book, reservation, pages);
      PoolValid();
      ResizeValid(State(), reservation.pages, pages);
      reservedPages := reservedPages - reservation.pages + pages;
      reservation.pages := pages;
      book := book[reservation := pages];
      r := Ok(());
    }

    method ReleaseReservation(reservation: DeviceKVPageReservation, pages: nat)
      requires Valid() && Holds(reservation) && reservation.pages == pages
      modifies this
      ensures Valid() && Promised(old(Leased()), Leased())
      ensures State() == old(State()).(reservedPages := reservedPages)
      ensures reservedPages + pages == old(reservedPages)
      ensures book == old(book)[reservation := 0]
    {
      hide PagePool.Valid, HandlesSound;
      EntryAtMostSum(book, reservation);
      if pages > reservedPages {
        // std::terminate in the program.
        assert false;
      }
      SumBookUpdate(book, reservation, 0);
      PoolValid();
      ResizeValid(State(), pages, 0);
      reservedPages := reservedPages - pages;
      book := book[reservation := 0];
    }

    lemma PoolValid()
      requires Valid()
      ensures PagePool.Valid(State()) && allocatedPages + reservedPages <= capacity
    {
    }

    static lemma ReserveValid(p: Pool, pages: nat)
      requires PagePool.Valid(p) && p.allocatedPages + p.reservedPages + pages <= p.capacity
      ensures PagePool.Valid(p.(reservedPages := p.reservedPages + pages))
    {
    }

    static lemma ResizeValid(p: Pool, before: nat, after: nat)
      requires PagePool.Valid(p) && before <= p.reservedPages
      requires p.allocatedPages + (p.reservedPages - before) + after <= p.capacity
      ensures PagePool.Valid(p.(reservedPages := p.reservedPages - before + after))
    {
    }

    // ----- Physical pages

    /** Where the run comes from: the preferred place if it is free, else the lowest place that fits. */
    method ChooseRun(preferred: Option<int>, count: nat) returns (selected: nat, begin: nat)
      requires Valid() && count > 0
      ensures selected <= |freeRuns|
      ensures selected < |freeRuns| ==> CanTake(freeRuns, selected, begin, count)
      ensures selected < |freeRuns| ==>
                PlacementRule(State(), preferred, count, Span(begin, count))
      ensures selected == |freeRuns| ==> forall b :: !FreeSpan(State(), b, count)
    {
      hide PagePool.Valid, HandlesSound, FreeSpan, PlacementRule, UpperBound, FirstFit, Normal;
      PoolValid();
      selected, begin := |freeRuns|, 0;
      if preferred.Some? && preferred.value >= 0 {
        SpanInCandidate(State(), preferred.value, count);
        var upper := UpperBound(RunBegin, freeRuns, preferred.value);
        if upper != 0 {
          var candidate := freeRuns[upper - 1];
          if preferred.value >= candidate.begin && preferred.value + count <= candidate.End() {
            selected, begin := upper - 1, preferred.value;
            PreferredObeys(State(), begin, count);
            RunNonempty(State(), selected);
          }
        }
      }
      if selected == |freeRuns| {
        FirstFitIsLowest(State(), count);
        NegativeNotFree(State(), preferred, count);
        selected := FirstFit(freeRuns, count);
        if selected != |freeRuns| {
          begin := freeRuns[selected].begin;
          LowestObeys(State(), preferred, begin, count);
        }
      }
    }

    static lemma RunNonempty(p: Pool, k: nat)
      requires PagePool.Valid(p) && k < |p.free|
      ensures p.free[k].count > 0 && p.free[k].begin >= 0
    {
    }

    static lemma PreferredObeys(p: Pool, begin: nat, count: nat)
      requires FreeSpan(p, begin, count)
      ensures PlacementRule(p, Some(begin), count, Span(begin, count))
    {
    }

    static lemma NegativeNotFree(p: Pool, preferred: Option<int>, count: nat)
      requires count > 0
      ensures preferred.Some? && preferred.value < 0 ==> !FreeSpan(p, preferred.value, count)
    {
      assert preferred.Some? && preferred.value < 0 ==> !FreeAt(p, preferred.value);
    }

    static lemma LowestObeys(p: Pool, preferred: Option<int>, begin: nat, count: nat)
      requires preferred.Some? ==> !FreeSpan(p, preferred.value, count)
      requires FreeSpan(p, begin, count) && forall b :: FreeSpan(p, b, count) ==> begin <= b
      ensures PlacementRule(p, preferred, count, Span(begin, count))
    {
      hide FreeSpan;
    }

    /** append_page over a span: the lease and its bit, page by page. */
    method AppendSpan(destination: LeaseVector, begin: nat, count: nat)
      requires begin + count <= |used| == |generations|
      requires |destination.leases| + count <= destination.capacity
      modifies this`used, destination`leases
      ensures used == Mark(old(used), Span(begin, count))
      ensures destination.leases == old(destination.leases) + LeasesFor(this, generations, Span(begin, count))
    {
      for offset := 0 to count
        invariant used == Mark(old(used), Span(begin, offset))
        invariant destination.leases == old(destination.leases) + LeasesFor(this, generations, Span(begin, offset))
      {
        var page := begin + offset;
        assert Span(begin, offset + 1) == Span(begin, offset) + [page];
        destination.leases := destination.leases + [DeviceKVPageHandle(this, page, generations[page])];
        used := used[page := true];
      }
    }

    /** Neither terminate is reachable, and the four cases together remove exactly the span. */
    method ConsumeFreeRun(k: nat, begin: nat, count: nat)
      requires CanTake(freeRuns, k, begin, count)
      modifies this`freeRuns
      ensures freeRuns == Take(old(freeRuns), k, begin, count)
    {
      if k >= |freeRuns| || count == 0 {
        assert false;
      }
      var run := freeRuns[k];
      var runEnd, consumedEnd := run.begin + run.count, begin + count;
      if begin < run.begin || consumedEnd > runEnd {
        assert false;
      }
      if begin == run.begin && consumedEnd == runEnd {
        freeRuns := freeRuns[..k] + freeRuns[k + 1..];
        return;
      }
      if begin == run.begin {
        freeRuns := freeRuns[k := Run(run.begin + count, run.count - count)];
        return;
      }
      if consumedEnd == runEnd {
        freeRuns := freeRuns[k := Run(run.begin, begin - run.begin)];
        return;
      }
      var right := Run(consumedEnd, runEnd - consumedEnd);
      freeRuns := freeRuns[k := Run(run.begin, begin - run.begin)];
      freeRuns := freeRuns[..k + 1] + [right] + freeRuns[k + 1..];
    }

    lemma NothingPlaced(bits: seq<bool>)
      ensures Mark(bits, []) == bits && LeasesFor(this, generations, []) == []
    {
    }

    /** Nonempty runs that end inside the pool. */
    static ghost predicate RunsInside(rs: seq<Run>, limit: nat) {
      forall i :: 0 <= i < |rs| ==> rs[i].End() <= limit && rs[i].count > 0
    }

    static lemma InsideAt(rs: seq<Run>, limit: nat, i: nat)
      requires RunsInside(rs, limit) && i < |rs|
      ensures rs[i].End() <= limit && rs[i].count > 0
    {
    }

    /** The scatter fallback: whole runs from the bottom, then the front of one.  There are always
        enough runs. */
    method Scatter(destination: LeaseVector, count: nat)
      requires |used| == |generations| && Total(freeRuns) >= count
      requires RunsInside(freeRuns, |used|)
      requires |destination.leases| + count <= destination.capacity
      modifies this`used, this`freeRuns, destination`leases
      ensures |CellsOf(old(freeRuns))| >= count
      ensures forall i :: 0 <= i < count ==> CellsOf(old(freeRuns))[i] < |generations|
      ensures freeRuns == DropCells(old(freeRuns), count)
      ensures used == Mark(old(used), CellsOf(old(freeRuns))[..count])
      ensures destination.leases == old(destination.leases)
              + LeasesFor(this, generations, CellsOf(old(freeRuns))[..count])
    {
      hide Total, CellsOf, DropCells, ScatterAt, Mark, LeasesFor, RunsInside;
      NothingPlaced(used);
      ghost var runs, bits := freeRuns, used;
      ScatterStart(runs, count);
      var remaining: nat, consumed: nat, index: nat := count, 0, 0;
      ghost var pages: seq<nat> := [];
      assert CellsOf(runs)[..0] == [];
      if count == 0 { ScatterEnd(runs, count, 0); }
      while remaining != 0
        invariant index <= |runs| && remaining <= count
        invariant pages == CellsOf(runs)[..count - remaining]
        invariant forall i :: 0 <= i < |pages| ==> pages[i] < |generations|
        invariant used == Mark(bits, pages)
        invariant destination.leases == old(destination.leases) + LeasesFor(this, generations, pages)
        invariant remaining > 0 ==> freeRuns == runs && consumed == index && ScatterAt(runs, count, index, remaining)
        invariant remaining == 0 ==> consumed <= |freeRuns| && freeRuns[consumed..] == DropCells(runs, count)
        decreases remaining
      {
        ScatterStep(runs, count, index, remaining);
        InsideAt(runs, |used|, index);
        var run := freeRuns[index];
        var take: nat := Min(remaining, run.count);
        MarkMark(bits, pages, Span(run.begin, take));
        AppendSpan(destination, run.begin, take);
        LeasesConcat(this, generations, pages, Span(run.begin, take));
        pages := pages + Span(run.begin, take);
        remaining := remaining - take;
        if take == run.count {
          consumed := consumed + 1;
          if remaining == 0 { ScatterEnd(runs, count, index + 1); }
        } else {
          freeRuns := freeRuns[index := Run(run.begin + take, run.count - take)];
          assert freeRuns[index..] == [freeRuns[index]] + runs[index + 1..];
        }
        index := index + 1;
      }
      freeRuns := freeRuns[consumed..];
    }

    // ----- Materialize and dematerialize

    ghost predicate AllValid(leases: seq<DeviceKVPageHandle>)
      reads this`used, this`generations
    {
      forall i :: 0 <= i < |leases| ==> ValidHandle(leases[i])
    }

    /** The page after the preferred predecessor, else after the last lease. */
    static function PreferredPage(predecessor: Option<DeviceKVPageHandle>,
                                  leases: seq<DeviceKVPageHandle>): Option<int>
    {
      if predecessor.Some? then Some(predecessor.value.index + 1)
      else if leases != [] then Some(leases[|leases| - 1].index + 1)
      else None
    }

    lemma PlacedAfterPreferred(predecessor: Option<DeviceKVPageHandle>, leases: seq<DeviceKVPageHandle>, p: Pool,
                               count: nat, pages: seq<nat>)
      ensures PlacedAfter(p, predecessor, leases, count, pages) <==>
                PlacementRule(p, PreferredPage(predecessor, leases), count, pages)
    {
    }

    /** What materialize asks of its arguments. */
    ghost predicate MaterializeAccepts(reservation: DeviceKVPageReservation, target: nat, destination: LeaseVector,
                                       predecessor: Option<DeviceKVPageHandle>)
      reads this, reservation, destination
    {
      && reservation.owner == this
      && |destination.leases| <= target <= destination.capacity
      && target - |destination.leases| <= reservation.pages
      && AllValid(destination.leases)
      && (target > |destination.leases| && predecessor.Some? ==> ValidHandle(predecessor.value))
    }

    method CheckLeases(leases: seq<DeviceKVPageHandle>) returns (ok: bool)
      ensures ok <==> AllValid(leases)
    {
      for i := 0 to |leases|
        invariant forall k :: 0 <= k < i ==> ValidHandle(leases[k])
      {
        if !ValidHandle(leases[i]) { return false; }
      }
      ok := true;
    }

    /** Picks the pages, appends their leases and takes them off the free runs. */
    method PlacePages(destination: LeaseVector, preferred: Option<int>, count: nat) returns (ghost pages: seq<nat>)
      requires Valid() && 0 < count <= reservedPages
      requires |destination.leases| + count <= destination.capacity
      modifies this`used, this`freeRuns, destination`leases
      ensures PlacementRule(old(State()), preferred, count, pages) && |pages| == count
      ensures forall i :: 0 <= i < count ==> FreeAt(old(State()), pages[i]) && pages[i] < |generations|
      ensures used == Mark(old(used), pages)
      ensures destination.leases == old(destination.leases) + LeasesFor(this, generations, pages)
      ensures Taken(old(State()), AfterTake(old(State()), pages, freeRuns), pages)
    {
      hide PagePool.Valid, HandlesSound, PlacementRule, Taken, Normal, Covers, Take, DropCells, CellsOf, Total;
      var selected, begin := ChooseRun(preferred, count);
      ghost var before := State();
      RunFacts(before);
      if selected != |freeRuns| {
        pages := Span(begin, count);
        TakeSpanValid(before, selected, begin, count);
        AppendSpan(destination, begin, count);
        ConsumeFreeRun(selected, begin, count);
      } else {
        TakeLowestValid(before, preferred, count);
        pages := CellsOf(freeRuns)[..count];
        Scatter(destination, count);
      }
    }

    lemma AcceptedCount(reservation: DeviceKVPageReservation, target: nat, destination: LeaseVector,
                        predecessor: Option<DeviceKVPageHandle>)
      requires MaterializeAccepts(reservation, target, destination, predecessor)
      ensures reservation.owner == this && |destination.leases| <= target <= destination.capacity
      ensures target - |destination.leases| <= reservation.pages && AllValid(destination.leases)
    {
    }

    method CheckMaterialize(reservation: DeviceKVPageReservation, target: nat, destination: LeaseVector,
                            predecessor: Option<DeviceKVPageHandle>)
      returns (ok: bool)
      ensures ok <==> MaterializeAccepts(reservation, target, destination, predecessor)
    {
      hide AllValid;
      if reservation.owner != this || target < |destination.leases| { return false; }
      var count := target - |destination.leases|;
      if count > reservation.pages || target > destination.capacity { return false; }
      var current := CheckLeases(destination.leases);
      if !current { return false; }
      ok := count == 0 || predecessor.None? || ValidHandle(predecessor.value);
    }

    /** Turns part of a reservation into leases of physical pages.  The invariant error cannot occur;
        the pages are the ones the placement rule names; nobody ever held these leases before. */
    method Materialize(reservation: DeviceKVPageReservation, target: nat, destination: LeaseVector,
                       predecessor: Option<DeviceKVPageHandle>)
      returns (r: Result<()>, ghost pages: seq<nat>)
      requires Valid() && (reservation.owner == this ==> Holds(reservation))
      requires |destination.leases| <= destination.capacity
      modifies this, reservation, destination
      ensures Valid() && Step(old(Leased()), Leased())
      ensures r == if old(MaterializeAccepts(reservation, target, destination, predecessor)) then Ok(())
                   else Err(InvalidArgument)
      ensures r.Err? || target == old(|destination.leases|) ==>
                unchanged(this) && unchanged(reservation) && unchanged(destination)
      ensures r.Ok? && target > old(|destination.leases|) ==>
                && PlacedAfter(old(State()), predecessor, old(destination.leases),
                               target - old(|destination.leases|), pages)
                && Handed(old(Leased()), Leased(), pages)
                && destination.leases == old(destination.leases) + LeasesFor(this, old(generations), pages)
                && reservedPages + |pages| == old(reservedPages)
                && Holds(reservation) && reservation.pages + |pages| == old(reservation.pages)
                && book == old(book)[reservation := reservation.pages]
                && old(minted) !! Pairs(old(generations), pages)
    {
      hide PagePool.Valid, HandlesSound, PlacementRule, PlacedAfter, Taken, AllValid, MaterializeAccepts, Handed, Step,
           PreferredPage;
      StandsStill(Leased());
      pages := [];
      var accepted := CheckMaterialize(reservation, target, destination, predecessor);
      if !accepted { return Err(InvalidArgument), []; }
      AcceptedCount(reservation, target, destination, predecessor);
      var count := target - |destination.leases|;
      if count == 0 { return Ok(()), []; }
      EntryAtMostSum(book, reservation);
      PoolValid();
      if count > capacity - allocatedPages {
        // The invariant error of the program.
        assert false;
        return Err(LogicError), [];
      }
      ghost var before := State();
      ghost var leases := destination.leases;
      pages := PlacePages(destination, PreferredPage(predecessor, destination.leases), count);
      PlacedAfterPreferred(predecessor, leases, before, count, pages);
      Settle(reservation, count, before, pages);
      r := Ok(());
    }

    /** The counters after pages were placed: from the reservation to the allocated side. */
    method Settle(reservation: DeviceKVPageReservation, count: nat, ghost before: Pool, ghost pages: seq<nat>)
      requires Holds(reservation) && count == |pages| <= reservation.pages && capacity <= INT32_MAX
      requires count <= before.reservedPages == reservedPages == SumBook(book)
               && allocatedPages == before.allocatedPages
      requires AfterTake(before, pages, freeRuns)
            == State().(allocatedPages := allocatedPages + count, reservedPages := reservedPages - count)
      requires Taken(before, AfterTake(before, pages, freeRuns), pages)
      requires PagePool.Valid(before) && forall i :: 0 <= i < |pages| ==> FreeAt(before, pages[i])
      requires HandlesSound(owners, minted, before.used, before.generations)
      modifies this`allocatedPages, this`reservedPages, this`book, this`minted, this`owners, reservation`pages
      ensures Valid() && Holds(reservation)
      ensures Handed(World(before, old(owners), old(minted)), Leased(), pages)
      ensures Step(World(before, old(owners), old(minted)), Leased())
      ensures reservedPages + count == old(reservedPages) && reservation.pages + count == old(reservation.pages)
      ensures book == old(book)[reservation := reservation.pages]
      ensures forall i :: 0 <= i < |pages| ==> pages[i] < |generations|
      ensures minted == old(minted) + Pairs(generations, pages) && old(minted) !! Pairs(generations, pages)
      ensures owners == old(owners) + Pairs(generations, pages)
    {
      hide PagePool.Valid, HandlesSound, Taken, Handed, Step, AfterTake, SumBook;
      SettledWorld(before, pages, freeRuns, owners, minted);
      AfterTakeCounts(before, pages, freeRuns);
      SumBookUpdate(book, reservation, reservation.pages - count);
      allocatedPages := allocatedPages + count;
      reservedPages := reservedPages - count;
      reservation.pages := reservation.pages - count;
      book := book[reservation := reservation.pages];
      minted, owners := minted + Pairs(generations, pages), owners + Pairs(generations, pages);
    }

    static lemma AfterTakeCounts(p: Pool, pages: seq<nat>, free: seq<Run>)
      requires |pages| <= p.reservedPages
      ensures var q := AfterTake(p, pages, free); q.generations == p.generations && q.capacity == p.capacity
    {
    }

    /** The world after pages were taken and their leases minted. */
    static lemma SettledWorld(before: Pool, pages: seq<nat>, free: seq<Run>, owners: set<Ticket>, minted: set<Ticket>)
      requires |pages| <= before.reservedPages && Taken(before, AfterTake(before, pages, free), pages)
      requires PagePool.Valid(before) && forall i :: 0 <= i < |pages| ==> FreeAt(before, pages[i])
      requires HandlesSound(owners, minted, before.used, before.generations)
      ensures forall i :: 0 <= i < |pages| ==> pages[i] < |before.generations|
      ensures var dealt, q := Pairs(before.generations, pages), AfterTake(before, pages, free);
              var v, w := World(before, owners, minted), World(q, owners + dealt, minted + dealt);
              && Handed(v, w, pages) && Step(v, w) && minted !! dealt
              && PagePool.Valid(q) && HandlesSound(w.owners, w.minted, q.used, q.generations)
    {
      hide PagePool.Valid, HandlesSound, Taken, Handed, Step;
      PairsInRange(before, pages, owners, minted);
      MintSound(owners, minted, before.used, before.generations, pages);
      var dealt, q := Pairs(before.generations, pages), AfterTake(before, pages, free);
      TakenValid(before, q, pages);
      TicketsHanded(World(before, owners, minted), World(q, owners + dealt, minted + dealt), pages);
    }

    static lemma PairsInRange(p: Pool, pages: seq<nat>, owners: set<Ticket>, minted: set<Ticket>)
      requires HandlesSound(owners, minted, p.used, p.generations)
      requires forall i :: 0 <= i < |pages| ==> pages[i] < |p.used|
      ensures forall i :: 0 <= i < |pages| ==> pages[i] < |p.generations|
    {
    }

    static lemma TakenValid(p: Pool, q: Pool, pages: seq<nat>)
      requires Taken(p, q, pages)
      ensures PagePool.Valid(q)
    {
    }

    static ghost function AfterTake(p: Pool, pages: seq<nat>, free: seq<Run>): Pool
      requires |pages| <= p.reservedPages
    {
      p.(used := Mark(p.used, pages), free := free,
         allocatedPages := p.allocatedPages + |pages|, reservedPages := p.reservedPages - |pages|)
    }

    static lemma TakeSpanValid(p: Pool, k: nat, begin: nat, count: nat)
      requires PagePool.Valid(p) && CanTake(p.free, k, begin, count) && count <= p.reservedPages
      ensures begin + count <= p.capacity
      ensures forall i :: 0 <= i < count ==> FreeAt(p, Span(begin, count)[i])
      ensures Taken(p, AfterTake(p, Span(begin, count), Take(p.free, k, begin, count)), Span(begin, count))
    {
      hide PagePool.Valid, Normal, Covers, Total, Take, Taken;
      RunFacts(p);
      RunIsFreeSpan(p, k, begin, count);
      TakeCorrect(p.free, k, begin, count);
      assert FreeAt(p, begin + count - 1);
      forall x ensures Run(begin, count).Has(x) <==> x in Span(begin, count) {
        if Run(begin, count).Has(x) { assert Span(begin, count)[x - begin] == x; }
      }
      TakeValid(p, Span(begin, count), Take(p.free, k, begin, count));
    }

    static lemma TakeLowestValid(p: Pool, preferred: Option<int>, count: nat)
      requires PagePool.Valid(p) && 0 < count <= p.reservedPages && forall b :: !FreeSpan(p, b, count)
      ensures count <= Total(p.free) == |CellsOf(p.free)|
      ensures RunsInside(p.free, p.capacity)
      ensures forall i :: 0 <= i < count ==> FreeAt(p, CellsOf(p.free)[..count][i])
      ensures Taken(p, AfterTake(p, CellsOf(p.free)[..count], DropCells(p.free, count)), CellsOf(p.free)[..count])
      ensures PlacementRule(p, preferred, count, CellsOf(p.free)[..count])
    {
      hide PagePool.Valid, Covers, Total, CellsOf, DropCells, Taken;
      RunFacts(p);
      LowestCells(p, count);
      forall i | 0 <= i < |p.free| ensures p.free[i].count > 0 && p.free[i].End() <= p.capacity {
        RunInside(p, i);
      }
      TakeValid(p, CellsOf(p.free)[..count], DropCells(p.free, count));
    }

    static lemma RunInside(p: Pool, i: nat)
      requires PagePool.Valid(p) && i < |p.free|
      ensures p.free[i].count > 0 && p.free[i].End() <= p.capacity
    {
      assert p.free[i].Has(p.free[i].End() - 1) && Covers(p.free, p.free[i].End() - 1);
    }

    /** The lowest free page.  The invariant error cannot occur. */
    method MaterializeOne(reservation: DeviceKVPageReservation) returns (r: Result<DeviceKVPageHandle>)
      requires Valid() && (reservation.owner == this ==> Holds(reservation))
      modifies this, reservation
      ensures Valid() && Step(old(Leased()), Leased())
      ensures r.Ok? <==> old(reservation.owner == this && reservation.pages > 0)
      ensures r.Err? ==> r == Err(InvalidArgument) && unchanged(this) && unchanged(reservation)
      ensures r.Ok? ==>
                && ValidHandle(r.value)
                && LowestPages(old(State()), [r.value.index]) && Handed(old(Leased()), Leased(), [r.value.index])
                && reservedPages + 1 == old(reservedPages)
                && Holds(reservation) && reservation.pages + 1 == old(reservation.pages)
                && book == old(book)[reservation := reservation.pages]
                && (r.value.index, r.value.generation) !in old(minted)
                && minted == old(minted) + {(r.value.index, r.value.generation)}
                && owners == old(owners) + {(r.value.index, r.value.generation)}
    {
      hide PagePool.Valid, HandlesSound, Taken, Normal, Covers, Take, LowestPages, Handed, Step,
           SumBook;
      StandsStill(Leased());
      if reservation.owner != this || reservation.pages == 0 { return Err(InvalidArgument); }
      EntryAtMostSum(book, reservation);
      PoolValid();
      ghost var before := State();
      RunFacts(before);
      if freeRuns == [] {
        // The invariant error of the program.
        assert false;
        return Err(LogicError);
      }
      var page := freeRuns[0].begin;
      FrontPage(before);
      TakeSpanValid(before, 0, page, 1);
      assert Span(page, 1) == [page];
      if freeRuns[0].count == 1 {
        freeRuns := freeRuns[1..];
      } else {
        freeRuns := freeRuns[0 := Run(page + 1, freeRuns[0].count - 1)];
      }
      assert freeRuns == Take(before.free, 0, page, 1) by { TakeFirst(before.free); }
      used := used[page := true];
      assert used == Mark(before.used, [page]);
      Settle(reservation, 1, before, [page]);
      HandedTaken(World(before, old(owners), old(minted)), Leased(), page);
      TakenOne(before, State(), page);
      OnePair(generations, page);
      r := Ok(DeviceKVPageHandle(this, page, generations[page]));
    }

    static lemma TakeFirst(free: seq<Run>)
      requires free != [] && free[0].count > 0
      ensures Take(free, 0, free[0].begin, 1)
           == if free[0].count == 1 then free[1..] else free[0 := Run(free[0].begin + 1, free[0].count - 1)]
    {
    }

    static lemma FrontPage(p: Pool)
      requires PagePool.Valid(p) && p.free != []
      ensures p.free[0].count > 0 && LowestPages(p, [p.free[0].begin])
    {
      HeadCells(p.free);
    }

    static lemma HandedTaken(v: World, w: World, page: nat)
      requires Handed(v, w, [page])
      ensures Taken(v.pool, w.pool, [page]) && v.pool.generations == w.pool.generations
    {
    }

    static lemma OnePair(generations: seq<nat>, page: nat)
      requires page < |generations|
      ensures Pairs(generations, [page]) == {(page, generations[page])}
    {
    }

    static lemma TakenOne(p: Pool, q: Pool, page: nat)
      requires PagePool.Valid(p) && Taken(p, q, [page]) && page < p.capacity
      ensures |q.used| == |q.generations| == p.capacity && q.used[page]
    {
    }

    /** Joins the page to the run on its left, on its right, on both sides, or to none. */
    method ReleaseFreePage(index: nat)
      modifies this`freeRuns
      ensures freeRuns == Insert(old(freeRuns), Run(index, 1))
    {
      var next := LowerBound(freeRuns, index);
      var joinsRight := next != |freeRuns| && index + 1 == freeRuns[next].begin;
      var joinsLeft := next != 0 && freeRuns[next - 1].begin + freeRuns[next - 1].count == index;
      if joinsLeft && joinsRight {
        freeRuns := freeRuns[next - 1 :=
                             Run(freeRuns[next - 1].begin, freeRuns[next - 1].count + 1 + freeRuns[next].count)];
        freeRuns := freeRuns[..next] + freeRuns[next + 1..];
      } else if joinsLeft {
        freeRuns := freeRuns[next - 1 := Run(freeRuns[next - 1].begin, freeRuns[next - 1].count + 1)];
      } else if joinsRight {
        freeRuns := freeRuns[next := Run(index, freeRuns[next].count + 1)];
      } else {
        freeRuns := freeRuns[..next] + [Run(index, 1)] + freeRuns[next..];
      }
    }

    /** Ends a lease: the page is free again and every copy of the handle is outdated. */
    method ReleasePage(handle: DeviceKVPageHandle) returns (released: bool)
      requires Valid()
      modifies this`freeRuns, this`used, this`generations, this`allocatedPages, this`owners
      ensures Valid() && Step(old(Leased()), Leased())
      ensures released <==> old(ValidHandle(handle))
      ensures !released ==> unchanged(this)
      ensures released ==> Freed(old(State()), State(), [handle.index]) && !ValidHandle(handle)
      ensures released ==> owners == old(owners) - {(handle.index, handle.generation)}
    {
      hide PagePool.Valid, HandlesSound, Freed, Insert, Returned, Step;
      StandsStill(Leased());
      if !ValidHandle(handle) { return false; }
      var index: nat := handle.index;
      PoolValid();
      RunFacts(State());
      UnmarkValid(State(), index);
      RetireSound(owners, minted, used, generations, index);
      ghost var next := Unmark(State(), index);
      used := used[index := false];
      generations := generations[index := generations[index] + 1];
      ReleaseFreePage(index);
      allocatedPages := allocatedPages - 1;
      owners := owners - {(index, handle.generation)};
      TicketReturned(old(Leased()), Leased(), handle);
      released := true;
    }

    /** What is regained was allocated, so the reservation cannot overflow. */
    lemma ReleasedFit(reservation: DeviceKVPageReservation, leases: seq<DeviceKVPageHandle>, target: nat)
      requires Valid() && Holds(reservation) && target <= |leases| && AllValid(leases)
      requires forall i, j :: 0 <= i < j < |leases| ==> leases[i] != leases[j]
      ensures |leases| - target <= allocatedPages && reservation.pages + (|leases| - target) <= capacity <= INT32_MAX
      ensures forall i :: 0 <= i < |leases| ==> leases[i].index >= 0
    {
      EntryAtMostSum(book, reservation);
      var pages := IndexesOf(leases[target..]);
      forall i | 0 <= i < |pages|
        ensures pages[i] < |used| && used[pages[i]]
      {
        assert ValidHandle(leases[target + i]);
      }
      forall i, j | 0 <= i < j < |pages| ensures pages[i] != pages[j] {
        assert ValidHandle(leases[target + i]) && ValidHandle(leases[target + j]);
      }
      DistinctUsedPages(used, pages);
    }

    lemma LeasesCurrent(leases: seq<DeviceKVPageHandle>, target: nat)
      requires AllValid(leases) && target <= |leases|
      ensures AllCurrent(State(), leases[target..]) && forall i :: 0 <= i < |leases| ==> leases[i].owner == this
    {
    }

    /** Shrinking the vector destroys its trailing leases, each of which returns its page. */
    method ReleaseTail(leases: seq<DeviceKVPageHandle>, target: nat)
      requires Valid() && target <= |leases| && AllValid(leases)
      requires forall i, j :: 0 <= i < j < |leases| ==> leases[i] != leases[j]
      modifies this`freeRuns, this`used, this`generations, this`allocatedPages, this`owners
      ensures Valid() && Freed(old(State()), State(), IndexesOf(leases[target..]))
      ensures owners == old(owners) - TicketsOf(leases[target..])
      ensures AllValid(leases[..target])
    {
      hide PagePool.Valid, HandlesSound, Freed, Remaining, ValidHandle, AllValid, TicketsOf, Step;
      ghost var before := State();
      PoolValid();
      FreedNothing(before);
      NoTickets();
      AllRemain(leases, target);
      assert leases[target..target] == [];
      for i := target to |leases|
        invariant Valid() && Freed(before, State(), IndexesOf(leases[target..i]))
        invariant owners == old(owners) - TicketsOf(leases[target..i])
        invariant Remaining(State(), leases, target, i)
      {
        ghost var middle := State();
        RemainingLease(leases, target, i);
        LeaseNotGone(before, middle, leases[target..i], leases[i]);
        var released := ReleasePage(leases[i]);
        OneLeaseFewer(middle, State(), leases, target, i);
        FreedSnoc(before, middle, State(), IndexesOf(leases[target..i]), leases[i].index);
        TailGrows(leases, target, i);
      }
      TailRemains(leases, target);
      assert leases[target..|leases|] == leases[target..];
    }

    /** The lease is ours and current in that state of the pool. */
    predicate ValidIn(p: Pool, h: DeviceKVPageHandle) {
      h.owner == this && h.index >= 0 && Current(p.used, p.generations, (h.index, h.generation))
    }

    /** The leases before the target and from i on are still valid. */
    ghost predicate Remaining(p: Pool, leases: seq<DeviceKVPageHandle>, target: nat, i: nat) {
      forall k :: 0 <= k < |leases| && (k < target || i <= k) ==> ValidIn(p, leases[k])
    }

    lemma AllRemain(leases: seq<DeviceKVPageHandle>, target: nat)
      requires AllValid(leases)
      ensures Remaining(State(), leases, target, target)
    {
    }

    lemma RemainingLease(leases: seq<DeviceKVPageHandle>, target: nat, i: nat)
      requires Remaining(State(), leases, target, i) && target <= i < |leases|
      ensures ValidHandle(leases[i]) && 0 <= leases[i].index < |used| && used[leases[i].index]
    {
    }

    lemma TailRemains(leases: seq<DeviceKVPageHandle>, target: nat)
      requires Remaining(State(), leases, target, |leases|) && target <= |leases|
      ensures AllValid(leases[..target])
    {
    }

    static lemma TailGrows(leases: seq<DeviceKVPageHandle>, target: nat, i: nat)
      requires target <= i < |leases| && leases[i].index >= 0
      ensures IndexesOf(leases[target..i + 1]) == IndexesOf(leases[target..i]) + [leases[i].index]
      ensures TicketsOf(leases[target..i + 1])
           == TicketsOf(leases[target..i]) + {(leases[i].index, leases[i].generation)}
    {
      hide TicketsOf;
      assert leases[target..i + 1] == leases[target..i] + [leases[i]];
      TicketsSnoc(leases[target..i], leases[i]);
    }

    /** Returning one lease leaves the others valid: no two of them are for the same page. */
    lemma OneLeaseFewer(p: Pool, q: Pool, leases: seq<DeviceKVPageHandle>, target: nat, i: nat)
      requires Remaining(p, leases, target, i) && target <= i < |leases| && leases[i].index >= 0
      requires forall j, k :: 0 <= j < k < |leases| ==> leases[j] != leases[k]
      requires Freed(p, q, [leases[i].index])
      ensures Remaining(q, leases, target, i + 1)
    {
      hide Freed;
      FreedKeeps(p, q, leases[i].index);
      forall k | 0 <= k < |leases| && (k < target || i < k) ensures ValidIn(q, leases[k]) {
        assert ValidIn(p, leases[k]) && ValidIn(p, leases[i]) && leases[k] != leases[i];
      }
    }

    static lemma LeaseNotGone(p: Pool, q: Pool, gone: seq<DeviceKVPageHandle>, lease: DeviceKVPageHandle)
      requires Freed(p, q, IndexesOf(gone)) && 0 <= lease.index < |q.used| && q.used[lease.index]
      ensures lease.index !in IndexesOf(gone)
    {
    }

    static lemma FreedKeeps(p: Pool, q: Pool, x: nat)
      requires Freed(p, q, [x])
      ensures |q.used| == |p.used| && |q.generations| == |p.generations|
      ensures forall y :: 0 <= y < |p.used| && y != x ==> q.used[y] == p.used[y]
      ensures forall y :: 0 <= y < |p.generations| && y != x ==> q.generations[y] == p.generations[y]
    {
    }

    static lemma Regained(p: Pool, q: Pool, pages: seq<nat>, n: nat)
      requires Freed(p, q, pages) && n == |pages| && PagePool.Valid(p) && q.reservedPages == p.reservedPages
      ensures Freed(p, q.(reservedPages := q.reservedPages + n), pages)
      ensures PagePool.Valid(q.(reservedPages := q.reservedPages + n))
    {
    }

    /** Trailing leases go back to the same entitlement. */
    method Dematerialize(reservation: DeviceKVPageReservation, target: nat, source: LeaseVector) returns (r: Result<()>)
      requires Valid() && (reservation.owner == this ==> Holds(reservation))
      requires forall i, j :: 0 <= i < j < |source.leases| ==> source.leases[i] != source.leases[j]
      modifies this, reservation, source
      ensures Valid() && Step(old(Leased()), Leased())
      ensures r == if old(reservation.owner == this && target <= |source.leases| && AllValid(source.leases)) then Ok(())
                   else Err(InvalidArgument)
      ensures r.Err? || target == old(|source.leases|) ==>
                unchanged(this) && unchanged(reservation) && unchanged(source)
      ensures r.Ok? ==>
                && source.leases == old(source.leases)[..target]
                && AllValid(source.leases)
                && (forall i :: target <= i < |old(source.leases)| ==> old(source.leases)[i].index >= 0)
                && Freed(old(State()), State(), IndexesOf(old(source.leases)[target..]))
                && owners == old(owners) - TicketsOf(old(source.leases)[target..]) && minted == old(minted)
                && reservedPages == old(reservedPages) + |old(source.leases)| - target
                && reservation.pages == old(reservation.pages) + |old(source.leases)| - target
                && Holds(reservation) && book == old(book)[reservation := reservation.pages]
    {
      hide PagePool.Valid, HandlesSound, Freed, Step, Returned, TicketsOf, AllCurrent, SumBook,
           ValidHandle, AllValid;
      StandsStill(Leased());
      if reservation.owner != this || target > |source.leases| { return Err(InvalidArgument); }
      var current := CheckLeases(source.leases);
      if !current { return Err(InvalidArgument); }
      ghost var leases := source.leases;
      var released := |source.leases| - target;
      ReleasedFit(reservation, source.leases, target);
      if released == 0 {
        PoolValid();
        FreedNothing(State());
        assert source.leases[target..] == [] && source.leases[..target] == source.leases;
        assert book[reservation := reservation.pages] == book;
        NoTickets();
        return Ok(());
      }
      if released > UINT32_MAX - reservation.pages {
        // The overflow error of the program.
        assert false;
        return Err(OverflowError);
      }
      LeasesCurrent(leases, target);
      ReleaseTail(source.leases, target);
      source.leases := source.leases[..target];
      SumBookUpdate(book, reservation, reservation.pages + released);
      PoolValid();
      Regained(old(State()), State(), IndexesOf(leases[target..]), released);
      reservedPages := reservedPages + released;
      reservation.pages := reservation.pages + released;
      book := book[reservation := reservation.pages];
      TicketsReturned(old(Leased()), Leased(), leases[target..]);
      r := Ok(());
    }

    lemma PageCurrent(h: DeviceKVPageHandle)
      requires ValidHandle(h)
      ensures h.index >= 0 && AllCurrent(State(), [h])
    {
    }

    /** One lease goes back to the entitlement. */
    method DematerializeOne(reservation: DeviceKVPageReservation, page: DeviceKVPageHandle) returns (r: Result<()>)
      requires Valid() && (reservation.owner == this ==> Holds(reservation))
      modifies this, reservation
      ensures Valid() && Step(old(Leased()), Leased())
      ensures r == if old(reservation.owner == this && ValidHandle(page)) then Ok(()) else Err(InvalidArgument)
      ensures r.Err? ==> unchanged(this) && unchanged(reservation)
      ensures r.Ok? ==>
                && page.index >= 0 && Freed(old(State()), State(), [page.index]) && !ValidHandle(page)
                && owners == old(owners) - {(page.index, page.generation)} && minted == old(minted)
                && reservedPages == old(reservedPages) + 1
                && Holds(reservation) && reservation.pages == old(reservation.pages) + 1
                && book == old(book)[reservation := reservation.pages]
    {
      hide PagePool.Valid, HandlesSound, Freed, Step, Returned, TicketsOf, AllCurrent, SumBook, ValidHandle;
      StandsStill(Leased());
      if reservation.owner == this {
        EntryAtMostSum(book, reservation);
        PoolValid();
      }
      if reservation.owner != this || !ValidHandle(page) || reservation.pages == UINT32_MAX {
        return Err(InvalidArgument);
      }
      PageCurrent(page);
      var released := ReleasePage(page);
      if !released {
        // The lost lease error of the program.
        assert false;
        return Err(LogicError);
      }
      SumBookUpdate(book, reservation, reservation.pages + 1);
      PoolValid();
      FreedKeeps(old(State()), State(), page.index);
      Regained(old(State()), State(), [page.index], 1);
      reservedPages := reservedPages + 1;
      reservation.pages := reservation.pages + 1;
      book := book[reservation := reservation.pages];
      TicketReturned(old(Leased()), Leased(), page);
      r := Ok(());
    }

    /** The handle test is ownership: true exactly for the leases not yet returned. */
    lemma LiveExactly(h: DeviceKVPageHandle)
      requires Valid()
      ensures Sound(Leased())
      ensures ValidHandle(h) <==> h.owner == this && h.index >= 0 && (h.index, h.generation) in owners
    {
      hide PagePool.Valid;
      if h.index >= 0 {
        assert (h.index, h.generation) in owners <==> Current(used, generations, (h.index, h.generation));
      }
    }

    /** Leases given straight back: everything is as it was, but for the generations of the pages used. */
    method MaterializeAndReturn(reservation: DeviceKVPageReservation, target: nat, destination: LeaseVector,
                                predecessor: Option<DeviceKVPageHandle>)
      returns (r: Result<()>)
      requires Valid() && (reservation.owner == this ==> Holds(reservation))
      requires |destination.leases| <= destination.capacity
      requires forall i, j :: 0 <= i < j < |destination.leases| ==> destination.leases[i] != destination.leases[j]
      modifies this, reservation, destination
      ensures Valid()
      ensures r == if old(MaterializeAccepts(reservation, target, destination, predecessor)) then Ok(())
                   else Err(InvalidArgument)
      ensures State() == old(State()).(generations := generations) && owners == old(owners)
      ensures |generations| == |old(generations)|
      ensures forall x :: 0 <= x < |generations| && x < |old(used)| && old(used)[x] ==>
                generations[x] == old(generations)[x]
      ensures reservation.pages == old(reservation.pages) && book == old(book)
      ensures destination.leases == old(destination.leases)
    {
      hide PagePool.Valid, HandlesSound, PlacementRule, Taken, Freed, Step, Handed, AllCurrent, TicketsOf,
           MaterializeAccepts, AllValid, DeviceKVPagePool.Valid, ValidHandle, SumBook, PreferredPage, Promised,
           Returned, PlacedAfter;
      ghost var before, leases := Leased(), destination.leases;
      var n := |destination.leases|;
      PoolValid();
      OwnedMinted();
      if MaterializeAccepts(reservation, target, destination, predecessor) {
        AcceptedCount(reservation, target, destination, predecessor);
        LeasesCurrent(leases, 0);
        assert leases[0..] == leases;
      }
      ghost var pages;
      r, pages := Materialize(reservation, target, destination, predecessor);
      if r.Err? { return; }
      ghost var middle := Leased();
      if target > n {
        PlacedAfterPreferred(predecessor, leases, before.pool, target - n, pages);
        HandedPages(before, middle, PreferredPage(predecessor, leases), target - n, pages);
        NewLeasesValid(before, leases, pages);
      }
      r := Dematerialize(reservation, n, destination);
      if target > n {
        ghost var dealt := LeasesFor(this, before.pool.generations, pages);
        assert (leases + dealt)[n..] == dealt && (leases + dealt)[..n] == leases;
        assert IndexesOf(dealt) == pages;
        GivenBack(before, middle, Leased(), pages);
      } else {
        assert leases[n..] == [] && leases[..n] == leases;
        NoTickets();
      }
    }

    lemma OwnedMinted()
      requires Valid()
      ensures owners <= minted
    {
    }

    static lemma HandedPages(v: World, w: World, preferred: Option<int>, count: nat, pages: seq<nat>)
      requires Handed(v, w, pages) && PlacementRule(v.pool, preferred, count, pages) && count > 0
      ensures Taken(v.pool, w.pool, pages) && |pages| == count
      ensures forall i :: 0 <= i < |pages| ==> FreeAt(v.pool, pages[i]) && pages[i] < |v.pool.generations|
      ensures forall i, j :: 0 <= i < j < |pages| ==> pages[i] < pages[j]
      ensures w.owners == v.owners + Pairs(v.pool.generations, pages)
      ensures w.pool.generations == v.pool.generations && |w.pool.used| == |v.pool.used|
      ensures forall x :: 0 <= x < |v.pool.used| ==> (w.pool.used[x] <==> v.pool.used[x] || x in pages)
    {
      PlacedPagesAreFree(v.pool, preferred, count, pages);
    }

    /** Old and new leases are all current, and no two are the same. */
    lemma NewLeasesValid(v: World, leases: seq<DeviceKVPageHandle>, pages: seq<nat>)
      requires generations == v.pool.generations && |used| == |v.pool.used| == |generations|
      requires forall i :: 0 <= i < |pages| ==> FreeAt(v.pool, pages[i]) && pages[i] < |v.pool.generations|
      requires forall i, j :: 0 <= i < j < |pages| ==> pages[i] < pages[j]
      requires forall x :: 0 <= x < |v.pool.used| ==> (used[x] <==> v.pool.used[x] || x in pages)
      requires AllCurrent(v.pool, leases) && forall i :: 0 <= i < |leases| ==> leases[i].owner == this
      requires forall i, j :: 0 <= i < j < |leases| ==> leases[i] != leases[j]
      ensures var all := leases + LeasesFor(this, v.pool.generations, pages);
              AllValid(all) && forall i, j :: 0 <= i < j < |all| ==> all[i] != all[j]
    {
      var dealt := LeasesFor(this, v.pool.generations, pages);
      var all := leases + dealt;
      forall i | 0 <= i < |all| ensures ValidHandle(all[i]) {
        if i >= |leases| { assert pages[i - |leases|] in pages; }
      }
      forall i, j | 0 <= i < j < |all| ensures all[i] != all[j] {
        if i < |leases| <= j { assert FreeAt(v.pool, pages[j - |leases|]); }
      }
    }

    lemma GivenBack(u: World, v: World, w: World, pages: seq<nat>)
      requires PagePool.Valid(u.pool) && Taken(u.pool, v.pool, pages) && Freed(v.pool, w.pool, pages)
      requires forall i :: 0 <= i < |pages| ==> FreeAt(u.pool, pages[i]) && pages[i] < |u.pool.generations|
      requires v.owners == u.owners + Pairs(u.pool.generations, pages)
      requires w.owners == v.owners - TicketsOf(LeasesFor(this, u.pool.generations, pages))
      requires u.owners !! Pairs(u.pool.generations, pages) && w.minted == v.minted
      ensures w.owners == u.owners
      ensures w.pool == u.pool.(generations := w.pool.generations, reservedPages := w.pool.reservedPages)
      ensures |w.pool.generations| == |u.pool.generations|
      ensures forall x :: 0 <= x < |u.pool.used| && u.pool.used[x] && x < |w.pool.generations| ==>
                w.pool.generations[x] == u.pool.generations[x]
    {
      hide PagePool.Valid, Step;
      var dealt := LeasesFor(this, u.pool.generations, pages);
      TakenThenFreed(u.pool, v.pool, w.pool, pages);
      RunFacts(u.pool);
      assert IndexesOf(dealt) == pages;
      forall i | 0 <= i < |pages| ensures v.pool.used[pages[i]] { assert pages[i] in pages; }
      TicketsReturned(v, w, dealt);
    }
  }

  // ----- Several pools at once

  datatype DeviceKVPageReservationRequest = DeviceKVPageReservationRequest(pool: DeviceKVPagePool?, pages: nat)

  /** Every request names another pool, and each pool can promise what is asked of it. */
  ghost predicate BundleFits(requests: seq<DeviceKVPageReservationRequest>)
    reads set i | 0 <= i < |requests| :: requests[i].pool
  {
    && (forall i :: 0 <= i < |requests| ==>
          var pool, pages := requests[i].pool, requests[i].pages;
          pool != null && pages > 0 && pool.allocatedPages + pool.reservedPages + pages <= pool.capacity)
    && (forall i, j :: 0 <= i < j < |requests| ==> requests[i].pool != requests[j].pool)
  }

  /** The first pass: nothing is reserved yet. */
  method CheckBundle(requests: seq<DeviceKVPageReservationRequest>) returns (r: Result<()>)
    requires forall i :: 0 <= i < |requests| && requests[i].pool != null ==> requests[i].pool.Valid()
    ensures r.Ok? <==> BundleFits(requests)
  {
    hide DeviceKVPagePool.Valid;
    for index := 0 to |requests|
      invariant BundleFits(requests[..index])
    {
      var request := requests[index];
      if request.pool == null || request.pages == 0 { return Err(InvalidArgument); }
      for previous := 0 to index
        invariant forall k :: 0 <= k < previous ==> requests[k].pool != request.pool
      {
        if requests[previous].pool == request.pool { return Err(InvalidArgument); }
      }
      if request.pages > request.pool.AvailablePages() { return Err(BadAlloc); }
      assert forall k :: 0 <= k <= index ==> requests[..index + 1][k] == requests[k];
      assert forall k :: 0 <= k < index ==> requests[..index][k] == requests[k];
    }
    assert requests[..|requests|] == requests;
    r := Ok(());
  }

  /** The pool has promised the pages to the new reservation, and nothing else of it changed. */
  twostate predicate Booked(pool: DeviceKVPagePool, new r: DeviceKVPageReservation, pages: nat)
    reads pool, r
  {
    && pool.Valid() && pool.Holds(r) && r.pages == pages
    && Promised(old(pool.Leased()), pool.Leased())
    && pool.State() == old(pool.State()).(reservedPages := old(pool.reservedPages) + pages)
    && pool.book == old(pool.book)[r := pages]
  }

  /** Reserves in every pool or in none; the second pass cannot meet a refusal. */
  method ReserveBundle(requests: seq<DeviceKVPageReservationRequest>)
    returns (r: Result<seq<DeviceKVPageReservation>>)
    requires forall i :: 0 <= i < |requests| && requests[i].pool != null ==> requests[i].pool.Valid()
    modifies set i | 0 <= i < |requests| :: requests[i].pool
    ensures r.Ok? <==> old(BundleFits(requests))
    ensures r.Err? ==> forall i :: 0 <= i < |requests| && requests[i].pool != null ==> unchanged(requests[i].pool)
    ensures r.Ok? ==> |r.value| == |requests|
    ensures r.Ok? ==> forall i :: 0 <= i < |requests| ==>
              requests[i].pool != null && fresh(r.value[i]) && Booked(requests[i].pool, r.value[i], requests[i].pages)
  {
    hide PagePool.Valid, HandlesSound, Promised, SumBook;
    var checked := CheckBundle(requests);
    if checked.Err? { return Err(checked.error); }
    var reservations: seq<DeviceKVPageReservation> := [];
    for index := 0 to |requests|
      invariant |reservations| == index
      invariant forall k :: index <= k < |requests| ==> unchanged(requests[k].pool)
      invariant forall k :: 0 <= k < index ==>
                  fresh(reservations[k]) && Booked(requests[k].pool, reservations[k], requests[k].pages)
    {
      var reservation := requests[index].pool.Reserve(requests[index].pages);
      if reservation == null {
        // The unstable prevalidation error of the program.
        assert false;
        return Err(LogicError);
      }
      reservations := reservations + [reservation];
    }
    r := Ok(reservations);
  }
}
