/** The SLOB allocator: first fit with splitting, and freeing with coalescing on both sides. */
module Slob {
  import opened Common
  import opened SlobList

  /** sizeof(slob_t), and the units of a page. */
  const SLOB_UNIT := 16
  const PAGE_SIZE := 4096
  const PAGE_UNITS := 256

  /** The fewest units that hold this many bytes. */
  function SlobUnits(size: int): (n: int)
    ensures SLOB_UNIT * (n - 1) < size <= SLOB_UNIT * n
  {
    (size + SLOB_UNIT - 1) / SLOB_UNIT
  }

  ghost function LiveCells(live: map<int, int>): set<int> {
    set a, x | a in live && x in Cells(a, live[a]) :: x
  }

  ghost function PageCells(pages: set<int>): set<int> {
    set p, x | p in pages && x in Cells(p, PAGE_UNITS) :: x
  }

  /** Live blocks have their size in their header and do not overlap. */
  ghost predicate LiveOk(units: Field, live: map<int, int>) {
    (forall a | a in live :: live[a] > 0 && a in units && units[a] == live[a]) &&
    (forall a, b | a in live && b in live && a < b :: a + live[a] <= b)
  }

  /** The arena block lies off all pages and is always free. */
  ghost predicate ArenaOk(units: Field, fl: seq<int>, arena: int, pages: set<int>) {
    arena in fl && arena in units && units[arena] == 1 && PagesApart(pages) &&
    forall x | x in PageCells(pages) :: x != arena - 1 && x != arena && x != arena + 1
  }

  ghost predicate PagesApart(pages: set<int>) {
    (forall p | p in pages :: p > 0) && forall p, q | p in pages && q in pages && p < q :: p + PAGE_UNITS <= q
  }

  /** Every unit of the arena and of the pages is in exactly one block, free or live. */
  ghost predicate Tiled(units: Field, fl: seq<int>, live: map<int, int>, arena: int, pages: set<int>)
    requires Sized(units, fl)
  {
    FreeCells(units, fl) !! LiveCells(live) && FreeCells(units, fl) + LiveCells(live) == {arena} + PageCells(pages)
  }

  lemma {:induction false} InLive(live: map<int, int>, a: int, x: int)
    requires a in live && a <= x < a + live[a]
    ensures x in LiveCells(live)
  {
    assert x in Cells(a, live[a]);
  }

  lemma {:induction false} LiveAt(live: map<int, int>, x: int)
    returns (a: int)
    requires x in LiveCells(live)
    ensures a in live && a <= x < a + live[a]
  {
    a :| a in live && x in Cells(a, live[a]);
  }

  /** Only the arena block contains the unit of the arena. */
  lemma {:induction false} LiveInPages(
    units: Field, fl: seq<int>, live: map<int, int>, arena: int, pages: set<int>, a: int)
    requires Sized(units, fl) && LiveOk(units, live) && ArenaOk(units, fl, arena, pages) &&
      Tiled(units, fl, live, arena, pages)
    requires a in live
    ensures forall x | a <= x < a + live[a] :: x in PageCells(pages) && x !in FreeCells(units, fl)
  {
    hide PageCells;
    var i :| 0 <= i < |fl| && fl[i] == arena;
    InFree(units, fl, i, arena);
    forall x | a <= x < a + live[a] ensures x in PageCells(pages) && x !in FreeCells(units, fl) {
      InLive(live, a, x);
    }
  }

  class Heap {
    const arena: int
    var units: Field
    var next: Field
    var slobfree: int
    /** The free blocks in order, the blocks handed out with their sizes, and the pages obtained. */
    ghost var fl: seq<int>
    ghost var live: map<int, int>
    ghost var pages: set<int>

    ghost predicate Valid()
      reads this
    {
      Listed(units, next, fl) && slobfree in fl && LiveOk(units, live) && ArenaOk(units, fl, arena, pages) &&
      Tiled(units, fl, live, arena, pages)
    }

    constructor (arena: int)
      ensures Valid() && this.arena == arena && live == map[] && pages == {} && fl == [arena] && Free() == {arena}
    {
      this.arena := arena;
      units, next, slobfree := map[arena := 1], map[arena := arena], arena;
      fl, live, pages := [arena], map[], {};
      new;
      Initial(units, next, arena);
    }

    /** The free units. */
    ghost function Free(): set<int>
      reads this
    {
      if Sized(units, fl) then FreeCells(units, fl) else {}
    }

    /** The block after slobfree, where the search begins. */
    ghost function First(): int
      reads this
    {
      if slobfree in next then next[slobfree] else 0
    }

    /** The search of slob_alloc: the first block after slobfree with room, and the one before it. */
    method Scan(need: int)
      returns (found: bool, prev: int, cur: int, ghost s: int, ghost t: int)
      requires Listed(units, next, fl) && slobfree in fl
      ensures 0 <= s < |fl| && slobfree == fl[s] && 0 <= t < |fl| && AllSmall(units, fl, s, t, need)
      ensures found ==>
        prev == fl[Step(s, t, |fl|)] && cur == fl[Step(s, t + 1, |fl|)] && cur in units && units[cur] >= need
      ensures !found ==> AllSmall(units, fl, s, |fl|, need)
      ensures need <= 1 ==> found && cur == First()
    {
      hide Circle, Spaced;
      s :| 0 <= s < |fl| && slobfree == fl[s];
      ghost var n := |fl|;
      SpacedSized(units, fl);
      t := 0;
      prev := slobfree;
      LinkOf(next, fl, s);
      cur := next[prev];
      while true
        invariant 0 <= t < n && prev == fl[Step(s, t, n)] && cur == fl[Step(s, t + 1, n)]
        invariant AllSmall(units, fl, s, t, need) && (need <= 1 ==> cur == First())
        decreases n - t
      {
        if units[cur] >= need {
          return true, prev, cur, s, t;
        }
        Ordered(units, fl, Step(s, t + 1, n), s);
        LinkOf(next, fl, Step(s, t + 1, n));
        if cur == slobfree {
          return false, prev, cur, s, t;
        }
        prev, cur, t := cur, next[cur], t + 1;
      }
    }

    /** The rest of slob_alloc once a block with room is found: unlink it or cut off its head. */
    method Carve(prev: int, cur: int, need: int)
      requires cur in units && cur in next
      modifies this`units, this`next, this`slobfree
      ensures units == CarvedUnits(old(units), cur, need) && next == CarvedNext(old(units), old(next), prev, cur, need)
      ensures slobfree == prev
    {
      if units[cur] == need {
        next := next[prev := next[cur]];
      } else {
        next := next[prev := cur + need];
        units := units[cur + need := units[cur] - need];
        next := next[cur + need := next[cur]];
        units := units[cur := need];
      }
      slobfree := prev;
    }

    /** What that does to the heap: the invariant is kept unless the block is the arena, or nothing was
        asked for. */
    method Take(prev: int, cur: int, need: int, ghost j: int)
      requires Valid() && need >= 0 && 0 <= j < |fl| && cur == fl[j] && prev == fl[Before(j, |fl|)]
      requires cur in units && units[cur] >= need
      modifies this
      ensures pages == old(pages) && slobfree == prev
      ensures Valid() <==> need > 0 && cur != arena
      ensures need > 0 ==> cur !in old(live) && live == old(live)[cur := need]
      ensures need > 0 && cur != arena ==> Handed(old(Free()), cur, need, Free())
      ensures need > 0 && cur + need in old(Free()) ==> First() == cur + need
      ensures need > 0 ==> Listed(units, next, fl) && slobfree in fl && (|old(fl)| == 1 ==> fl == old(fl))
    {
      hide Circle, Spaced, Tiled, LiveOk, ArenaOk, FreeCells, LiveCells, PageCells;
      SpacedSized(units, fl);
      LinkOf(next, fl, j);
      ghost var fl', live' := fl, live;
      if need == 0 {
        EmptyRequest(CarvedUnits(units, cur, need), fl, j);
      } else {
        TakenTiled(units, fl, live, arena, pages, j, need);
        TakenCells(units, fl, j, need);
        RunEnds(units, fl, j);
        live' := live[cur := need];
        if |fl| == 1 {
          OnlyArena(units, fl, arena, pages);
          SoleBlockTaken(units, next, fl, live, arena, pages);
        } else {
          NotTouching(units, fl, j, Before(j, |fl|));
          CarvedListed(units, next, fl, j, need);
          fl' := TakenList(units, fl, j, need);
        }
      }
      Carve(prev, cur, need);
      fl, live := fl', live';
    }

    /** The search of slob_free: the block after which b belongs. */
    method FindPlace(b: int)
      returns (cur: int, ghost k: int)
      requires Valid() && b !in fl
      ensures Slot(fl, b, k) && cur == fl[Before(k, |fl|)]
    {
      hide Circle, Spaced, Tiled, LiveOk, ArenaOk, Stops;
      k := Position(fl, b);
      PositionSlot(units, fl, b);
      ghost var s :| 0 <= s < |fl| && slobfree == fl[s];
      ghost var n, t := |fl|, 0;
      cur := slobfree;
      LinkOf(next, fl, s);
      StopsIff(units, fl, b, k, s);
      while !Stops(cur, next[cur], b)
        invariant 0 <= t < n && cur == fl[Step(s, t, n)] && cur in next && next[cur] == fl[After(Step(s, t, n), n)]
        invariant Stops(cur, next[cur], b) <==> Step(s, t, n) == Before(k, n)
        invariant forall q | 0 <= q < t :: Step(s, q, n) != Before(k, n)
        decreases n - t
      {
        StepReaches(s, t, n, Before(k, n));
        cur, t := next[cur], t + 1;
        LinkOf(next, fl, Step(s, t, n));
        StopsIff(units, fl, b, k, Step(s, t, n));
      }
    }

    /** slob_free; address 0 is NULL. */
    method SlobFree(b: int, size: int)
      requires Valid() && (b != 0 ==> b in live && (size == 0 || SlobUnits(size) == live[b]))
      modifies this
      ensures Valid() && pages == old(pages)
      ensures live == if b == 0 then old(live) else old(live) - {b}
      ensures b != 0 ==> Free() == old(Free()) + Cells(b, old(live)[b])
    {
      hide Circle, Spaced, Tiled, LiveOk, ArenaOk, FreeCells, LiveCells, PageCells, Cells;
      hide FreedList, FreedUnits, FreedNext, Rest, Gap;
      if b == 0 {
        return;
      }
      SpacedSized(units, fl);
      TiledApart(units, fl, live, arena, pages);
      NotOnList(units, fl, live, b);
      if size != 0 {
        units := units[b := SlobUnits(size)];
        assert units == old(units);
      }
      var cur, k := FindPlace(b);
      SpacedLen(next, fl);
      LiveGap(units, fl, live, arena, pages, b, k);
      FreedListed(units, next, fl, b, live[b], k);
      SpacedSized(FreedUnits(units, fl, b, live[b], k), FreedList(units, fl, b, live[b], k));
      FreedTiled(units, fl, live, arena, pages, b, k);
      Join(b, cur, k);
      live := live - {b};
    }

    /** The end of slob_free: coalesce with the block after b, then with the one before. */
    method Join(b: int, cur: int, ghost k: int)
      requires Circle(next, fl) && Spaced(units, fl) && b in units && Gap(units, fl, b, units[b], k)
      requires cur == fl[Before(k, |fl|)] && k <= |Rest(fl, b, units[b], k)|
      modifies this`units, this`next, this`slobfree, this`fl
      ensures units == FreedUnits(old(units), old(fl), b, old(units)[b], k)
      ensures next == FreedNext(old(units), old(next), old(fl), b, old(units)[b], k)
      ensures fl == FreedList(old(units), old(fl), b, old(units)[b], k) && slobfree == cur
    {
      hide Circle, Spaced, FreedList, Rest, After, Gap;
      SpacedSized(units, fl);
      SpacedLen(next, fl);
      GapSlot(units, fl, b, units[b], k);
      LinkOf(next, fl, Before(k, |fl|));
      NextIs(fl, b, units[b], k);
      ghost var fl' := FreedList(units, fl, b, units[b], k);
      var nx := next[cur];
      if b + units[b] == nx {
        LinkOf(next, fl, k);
        units := units[b := units[b] + units[nx]];
        next := next[b := next[nx]];
      } else {
        next := next[b := nx];
      }
      if cur + units[cur] == b {
        units := units[cur := units[cur] + units[b]];
        next := next[cur := next[b]];
      } else {
        next := next[cur := b];
      }
      fl := fl';
      slobfree := cur;
    }

    /** A page from the page allocator, as one block. */
    method AddPage(p: int)
      requires Valid() && NewPage(p, arena, pages)
      modifies this`units, this`live, this`pages
      ensures Valid() && pages == old(pages) + {p} && live == old(live)[p := PAGE_UNITS] && p !in old(live)
      ensures Free() == old(Free())
    {
      hide Circle, Spaced, Tiled, LiveOk, ArenaOk, FreeCells, LiveCells, PageCells, Cells;
      SpacedSized(units, fl);
      PageTiled(units, next, fl, live, arena, pages, p);
      units := units[p := PAGE_UNITS];
      live := live[p := PAGE_UNITS];
      pages := pages + {p};
    }

    /** slob_alloc without alignment; page is what the page allocator would deliver.  The invariant is
        kept unless the request is for one unit and the search begins at the arena, or for nothing. */
    method SlobAlloc(size: int, page: Option<int>)
      returns (r: Option<int>)
      requires Valid() && 0 <= size && size + SLOB_UNIT < PAGE_SIZE
      requires page.Some? ==> NewPage(page.value, arena, pages)
      modifies this
      ensures var need := SlobUnits(size); Valid() <==> need >= 2 || (need == 1 && old(First()) != arena)
      ensures size > 0 && r.Some? ==> r.value !in old(live) && live == old(live)[r.value := SlobUnits(size)]
      ensures r.None? ==>
        page.None? && live == old(live) && fl == old(fl) && units == old(units) && Free() == old(Free())
      ensures pages == old(pages) || (page.Some? && pages == old(pages) + {page.value})
      ensures r.None? || pages != old(pages) ==>
        Sized(old(units), old(fl)) && NoRoom(old(units), old(fl), SlobUnits(size))
      ensures r.Some? && size > 0 ==>
        var all := Offered(old(Free()), old(pages), pages, page);
        (Valid() ==> Handed(all, r.value, SlobUnits(size), Free())) &&
        (r.value + SlobUnits(size) in all ==> First() == r.value + SlobUnits(size))
      ensures SlobUnits(size) <= 1 ==> r == Some(old(First())) && pages == old(pages)
      ensures SlobUnits(size) == 1 ==> Listed(units, next, fl) && slobfree in fl && (|old(fl)| == 1 ==> fl == old(fl))
    {
      hide Circle, Spaced, Tiled, LiveOk, ArenaOk, FreeCells, LiveCells, PageCells, Cells, AllSmall, NewPage;
      var need := SlobUnits(size);
      var found, prev, cur, s, t := Scan(need);
      SpacedSized(units, fl);
      if !found {
        AllSmallEverywhere(units, fl, s, need);
        if page.None? {
          return None;
        }
        PageNotNull(page.value, arena, pages);
        AddPage(page.value);
        SlobFree(page.value, PAGE_SIZE);
        SpacedSized(units, fl);
        PageHasRoom(units, fl, page.value, need);
        found, prev, cur, s, t := Scan(need);
        if !found {
          AllSmallEverywhere(units, fl, s, need);
          assert false;
        }
      }
      StepBefore(s, t, |fl|);
      ArenaIsOne(units, fl, arena, pages);
      Take(prev, cur, need, Step(s, t + 1, |fl|));
      return Some(cur);
    }

    /** The small-object path of __kmalloc: the block begins one unit after its header.  A request for
        no bytes breaks the invariant if the search begins at the arena. */
    method Kmalloc(size: int, page: Option<int>)
      returns (r: Outcome)
      requires Valid() && 0 <= size < PAGE_SIZE - SLOB_UNIT
      requires page.Some? ==> NewPage(page.value, arena, pages)
      modifies this
      ensures Valid() <==> size > 0 || old(First()) != arena
      ensures r.Panic? <==> size >= PAGE_SIZE - 2 * SLOB_UNIT
      ensures !r.Block? ==>
        live == old(live) && pages == old(pages) && fl == old(fl) && units == old(units) && Free() == old(Free())
      ensures r.Block? ==>
        var m := r.addr - 1;
        m !in old(live) && live == old(live)[m := SlobUnits(size) + 1] &&
        (pages == old(pages) || (page.Some? && pages == old(pages) + {page.value})) &&
        var all, n := Offered(old(Free()), old(pages), pages, page), SlobUnits(size) + 1;
        (Valid() ==> Handed(all, m, n, Free())) && (m + n in all ==> First() == m + n)
      ensures r.Null? ==> size > 0 && page.None? && Sized(units, fl) && NoRoom(units, fl, SlobUnits(size) + 1)
      ensures size == 0 ==>
        r == Block(old(First()) + 1) && Listed(units, next, fl) && slobfree in fl && (|old(fl)| == 1 ==> fl == old(fl))
    {
      hide Circle, Tiled, LiveOk, ArenaOk, FreeCells, LiveCells, PageCells, Cells, NewPage;
      var inner := size + SLOB_UNIT;
      if inner + SLOB_UNIT >= PAGE_SIZE {
        return Panic;
      }
      assert SlobUnits(inner) == SlobUnits(size) + 1;
      var m := SlobAlloc(inner, page);
      return if m.None? then Null else Block(m.value + 1);
    }

    lemma {:induction false} LivePositive(a: int)
      requires Valid() && a in live
      ensures a > 0
    {
      hide Circle, Spaced, Tiled, FreeCells, LiveCells;
      SpacedSized(units, fl);
      LiveInPages(units, fl, live, arena, pages, a);
      assert a in PageCells(pages);
      var p :| p in pages && a in Cells(p, PAGE_UNITS);
    }
  }

  /** Panic is the failed assertion at the start of slob_alloc. */
  datatype Outcome = Panic | Null | Block(addr: int)

  /** n units from a on were taken off the free ones, from the beginning of a run. */
  ghost predicate Handed(free: set<int>, a: int, n: int, free': set<int>) {
    Cells(a, n) <= free && a - 1 !in free && free' == free - Cells(a, n)
  }

  /** The free units with those of the page, if that was obtained. */
  ghost function Offered(free: set<int>, pages: set<int>, pages': set<int>, page: Option<int>): set<int> {
    if pages' != pages && page.Some? then free + Cells(page.value, PAGE_UNITS) else free
  }

  /** A page off the arena and its neighbours that was not obtained before. */
  ghost predicate NewPage(p: int, arena: int, pages: set<int>) {
    p > 0 && p !in pages && !(p <= arena + 1 && arena - 1 < p + PAGE_UNITS) &&
    forall x | x in Cells(p, PAGE_UNITS) :: x !in PageCells(pages)
  }

  lemma {:induction false} PageNotNull(p: int, arena: int, pages: set<int>)
    requires NewPage(p, arena, pages)
    ensures p != 0 && p !in pages
  {
  }

  ghost predicate NoRoom(units: Field, fl: seq<int>, need: int)
    requires Sized(units, fl)
  {
    forall i | 0 <= i < |fl| :: units[fl[i]] < need
  }

  lemma {:induction false} StepBefore(s: int, t: int, n: int)
    requires 0 <= s < n && 0 <= t < n
    ensures 0 <= Step(s, t + 1, n) < n && Before(Step(s, t + 1, n), n) == Step(s, t, n)
  {
  }

  /** The t blocks after position s are too small. */
  ghost predicate AllSmall(units: Field, fl: seq<int>, s: int, t: int, need: int)
    requires Sized(units, fl) && 0 <= s < |fl| && t <= |fl|
  {
    forall q | 1 <= q <= t :: units[fl[Step(s, q, |fl|)]] < need
  }

  lemma {:induction false} AllSmallEverywhere(units: Field, fl: seq<int>, s: int, need: int)
    requires Sized(units, fl) && 0 <= s < |fl| && AllSmall(units, fl, s, |fl|, need)
    ensures forall i | 0 <= i < |fl| :: units[fl[i]] < need
  {
    forall i | 0 <= i < |fl| ensures units[fl[i]] < need {
      var q := if i > s then i - s else i - s + |fl|;
      assert units[fl[Step(s, q, |fl|)]] < need;
    }
  }

  lemma {:induction false} Initial(units: Field, next: Field, arena: int)
    requires units == map[arena := 1] && next == map[arena := arena]
    ensures Listed(units, next, [arena]) && FreeCells(units, [arena]) == {arena} && LiveCells(map[]) == {} &&
      PageCells({}) == {}
  {
    var fl := [arena];
    assert Linked(next, fl, 0);
    forall x ensures x in FreeCells(units, fl) <==> x == arena {
      if x == arena {
        InFree(units, fl, 0, x);
      }
    }
  }

  lemma {:induction false} ArenaIsOne(units: Field, fl: seq<int>, arena: int, pages: set<int>)
    requires ArenaOk(units, fl, arena, pages)
    ensures arena in units && units[arena] == 1
  {
  }

  /** The fields after Carve. */
  function CarvedUnits(units: Field, cur: int, need: int): Field
    requires cur in units
  {
    if units[cur] == need then units else units[cur + need := units[cur] - need][cur := need]
  }

  function CarvedNext(units: Field, next: Field, prev: int, cur: int, need: int): Field
    requires cur in units && cur in next
  {
    if units[cur] == need then next[prev := next[cur]]
    else
      var next' := next[prev := cur + need];
      next'[cur + need := next'[cur]]
  }

  /** Where the list has another block, carving takes the block off it or keeps its tail. */
  lemma {:induction false} CarvedListed(units: Field, next: Field, fl: seq<int>, j: int, n: int)
    requires Listed(units, next, fl) && |fl| >= 2 && 0 <= j < |fl| && 0 < n <= units[fl[j]] && fl[j] in next
    ensures
      var c, p := fl[j], fl[Before(j, |fl|)];
      var fl' := TakenList(units, fl, j, n);
      Listed(CarvedUnits(units, c, n), CarvedNext(units, next, p, c, n), fl') && p in fl'
  {
    hide Circle, Spaced;
    SpacedSized(units, fl);
    var p := Before(j, |fl|);
    Ordered(units, fl, j, p);
    if units[fl[j]] == n {
      UnlinkListed(units, next, fl, j);
      assert Without(fl, j)[if p < j then p else p - 1] == fl[p];
    } else {
      SplitListed(units, next, fl, j, n);
      assert fl[j := fl[j] + n][p] == fl[p];
    }
  }

  /** A request for nothing leaves a free block of no units behind. */
  lemma {:induction false} EmptyRequest(units: Field, fl: seq<int>, j: int)
    requires 0 <= j < |fl| && fl[j] in units && units[fl[j]] == 0
    ensures !Spaced(units, fl)
  {
  }

  lemma {:induction false} OnlyArena(units: Field, fl: seq<int>, arena: int, pages: set<int>)
    requires ArenaOk(units, fl, arena, pages) && |fl| == 1
    ensures fl == [arena] && arena in units && units[arena] == 1
  {
  }

  /** Taking the only block, which is the arena, leaves it on the list, so that it is both free and live. */
  lemma {:induction false} SoleBlockTaken(
    units: Field, next: Field, fl: seq<int>, live: map<int, int>, arena: int, pages: set<int>)
    requires Listed(units, next, fl) && fl == [arena] && arena in units && units[arena] == 1
    ensures arena in next && CarvedUnits(units, arena, 1) == units && CarvedNext(units, next, arena, arena, 1) == next
    ensures !Tiled(units, fl, live[arena := 1], arena, pages)
  {
    hide FreeCells, LiveCells, PageCells;
    LinkOf(next, fl, 0);
    InFree(units, fl, 0, arena);
    InLive(live[arena := 1], arena, arena);
  }

  /** The state after a block of n units was taken from position j, whichever way. */
  ghost function TakenUnits(units: Field, fl: seq<int>, j: int, n: int): Field
    requires 0 <= j < |fl| && fl[j] in units
  {
    if units[fl[j]] == n then units else SplitUnits(units, fl[j], n)
  }

  ghost function TakenList(units: Field, fl: seq<int>, j: int, n: int): seq<int>
    requires 0 <= j < |fl| && fl[j] in units
  {
    if units[fl[j]] == n then Without(fl, j) else fl[j := fl[j] + n]
  }

  lemma {:induction false} TakenCells(units: Field, fl: seq<int>, j: int, n: int)
    requires Spaced(units, fl) && 0 <= j < |fl| && fl[j] in units && 0 < n <= units[fl[j]]
    ensures
      var units', fl' := TakenUnits(units, fl, j, n), TakenList(units, fl, j, n);
      Sized(units', fl') && FreeCells(units', fl') == FreeCells(units, fl) - Cells(fl[j], n)
    ensures forall x | x in Cells(fl[j], n) :: x in FreeCells(units, fl)
  {
    hide FreeCells, Spaced;
    SpacedSized(units, fl);
    forall x | x in Cells(fl[j], n) ensures x in FreeCells(units, fl) {
      InFree(units, fl, j, x);
    }
    if units[fl[j]] == n {
      UnlinkCells(units, fl, j);
    } else {
      SplitCells(units, fl, j, n);
    }
  }

  lemma {:induction false} LiveMore(live: map<int, int>, a: int, n: int)
    requires a !in live
    ensures LiveCells(live[a := n]) == LiveCells(live) + Cells(a, n)
  {
    hide LiveCells;
    forall x ensures x in LiveCells(live[a := n]) <==> x in LiveCells(live) || x in Cells(a, n) {
      if x in LiveCells(live[a := n]) {
        var b := LiveAt(live[a := n], x);
        if b != a {
          InLive(live, b, x);
        }
      }
      if x in LiveCells(live) {
        var b := LiveAt(live, x);
        InLive(live[a := n], b, x);
      }
      if x in Cells(a, n) {
        InLive(live[a := n], a, x);
      }
    }
  }

  /** A block that starts in a free block is not live, nor overlaps a live one. */
  lemma {:induction false} FreeNotLive(units: Field, fl: seq<int>, live: map<int, int>, a: int, n: int, b: int)
    requires Sized(units, fl) && LiveOk(units, live) && FreeCells(units, fl) !! LiveCells(live)
    requires n > 0 && (forall x | x in Cells(a, n) :: x in FreeCells(units, fl)) && b in live
    ensures a + n <= b || b + live[b] <= a
  {
    hide FreeCells, LiveCells;
    var x := if a < b then b else a;
    if a <= x < a + n && b <= x < b + live[b] {
      assert x in Cells(a, n);
      InLive(live, b, x);
      assert false;
    }
  }

  lemma {:induction false} TakenLive(units: Field, fl: seq<int>, live: map<int, int>, j: int, n: int)
    requires Spaced(units, fl) && LiveOk(units, live) && FreeCells(units, fl) !! LiveCells(live)
    requires 0 <= j < |fl| && 0 < n <= units[fl[j]]
    ensures fl[j] !in live && LiveOk(TakenUnits(units, fl, j, n), live[fl[j] := n])
  {
    hide FreeCells, LiveCells, Spaced;
    SpacedSized(units, fl);
    TakenCells(units, fl, j, n);
    TakenCells(units, fl, j, units[fl[j]]);
    forall b | b in live ensures b != fl[j] && (b != fl[j] + n || units[fl[j]] == n) {
      FreeNotLive(units, fl, live, fl[j], units[fl[j]], b);
    }
    forall b | b in live ensures fl[j] + n <= b || b + live[b] <= fl[j] {
      FreeNotLive(units, fl, live, fl[j], n, b);
    }
  }

  lemma {:induction false} TakenArena(units: Field, fl: seq<int>, arena: int, pages: set<int>, j: int, n: int)
    requires Spaced(units, fl) && ArenaOk(units, fl, arena, pages)
    requires 0 <= j < |fl| && 0 < n <= units[fl[j]]
    ensures ArenaOk(TakenUnits(units, fl, j, n), TakenList(units, fl, j, n), arena, pages) <==> fl[j] != arena
  {
    hide PageCells, Spaced;
    SpacedSized(units, fl);
    var i :| 0 <= i < |fl| && fl[i] == arena;
    Ordered(units, fl, i, j);
    var fl' := TakenList(units, fl, j, n);
    if i == j {
      forall k | 0 <= k < |fl'| ensures fl'[k] != arena {
        Ordered(units, fl, if k < j then k else k + 1, j);
      }
    } else {
      Apart(units, fl, i, j, arena);
      assert fl'[if units[fl[j]] != n || i < j then i else i - 1] == arena;
    }
  }

  /** Taking n units from the block at position j: the live blocks and the tiling always survive, and
      the arena stays in its place exactly if it is not the block taken. */
  lemma {:induction false} TakenTiled(
    units: Field, fl: seq<int>, live: map<int, int>, arena: int, pages: set<int>, j: int, n: int)
    requires Spaced(units, fl) && LiveOk(units, live) && ArenaOk(units, fl, arena, pages)
    requires Sized(units, fl) && Tiled(units, fl, live, arena, pages) && 0 <= j < |fl| && 0 < n <= units[fl[j]]
    ensures
      var units', fl', live' := TakenUnits(units, fl, j, n), TakenList(units, fl, j, n), live[fl[j] := n];
      fl[j] !in live && Sized(units', fl') && LiveOk(units', live') && Tiled(units', fl', live', arena, pages) &&
      (ArenaOk(units', fl', arena, pages) <==> fl[j] != arena)
  {
    hide FreeCells, LiveCells, PageCells, Spaced, LiveOk, ArenaOk;
    TakenCells(units, fl, j, n);
    TakenLive(units, fl, live, j, n);
    TakenArena(units, fl, arena, pages, j, n);
    LiveMore(live, fl[j], n);
  }

  /** While the goal was not met in the first t + 1 steps, there are more to come. */
  lemma {:induction false} StepReaches(s: int, t: int, n: int, goal: int)
    requires 0 <= s < n && 0 <= t < n && 0 <= goal < n && forall q | 0 <= q <= t :: Step(s, q, n) != goal
    ensures t + 1 < n
  {
    var q := if goal >= s then goal - s else goal - s + n;
    assert Step(s, q, n) == goal;
  }

  lemma {:induction false} NotOnList(units: Field, fl: seq<int>, live: map<int, int>, b: int)
    requires Spaced(units, fl) && LiveOk(units, live) && FreeCells(units, fl) !! LiveCells(live) && b in live
    ensures b !in fl && b in units && units[b] == live[b]
  {
    hide FreeCells, LiveCells;
    InLive(live, b, b);
    forall i | 0 <= i < |fl| ensures fl[i] != b {
      InFree(units, fl, i, fl[i]);
    }
  }

  lemma {:induction false} GapSlot(units: Field, fl: seq<int>, b: int, u: int, k: int)
    requires Sized(units, fl) && Gap(units, fl, b, u, k)
    ensures Slot(fl, b, k) && u > 0
  {
  }

  /** Past the last block the successor lies below b, so it is never taken for adjacent. */
  lemma {:induction false} NextIs(fl: seq<int>, b: int, u: int, k: int)
    requires Slot(fl, b, k) && |fl| > 0 && u > 0
    ensures b + u == fl[After(Before(k, |fl|), |fl|)] <==> k < |fl| && b + u == fl[k]
    ensures k < |fl| ==> After(Before(k, |fl|), |fl|) == k
  {
  }

  lemma {:induction false} TiledApart(units: Field, fl: seq<int>, live: map<int, int>, arena: int, pages: set<int>)
    requires Sized(units, fl) && Tiled(units, fl, live, arena, pages)
    ensures FreeCells(units, fl) !! LiveCells(live)
  {
  }

  /** A live block lies in a gap between free blocks and next to the arena on neither side. */
  lemma {:induction false} LiveGap(
    units: Field, fl: seq<int>, live: map<int, int>, arena: int, pages: set<int>, b: int, k: int)
    requires Spaced(units, fl) && LiveOk(units, live) && ArenaOk(units, fl, arena, pages)
    requires Sized(units, fl) && Tiled(units, fl, live, arena, pages) && b in live && Slot(fl, b, k)
    ensures Gap(units, fl, b, live[b], k) && b + live[b] != arena && arena + 1 != b
    ensures |fl| == 1 && k == 0 ==> b + live[b] != fl[0]
  {
    hide FreeCells, LiveCells, PageCells, Spaced, Tiled;
    LiveInPages(units, fl, live, arena, pages, b);
    assert b + live[b] - 1 in PageCells(pages) && b in PageCells(pages);
    if k > 0 && b < fl[k - 1] + units[fl[k - 1]] {
      InFree(units, fl, k - 1, b);
    }
    if k < |fl| && fl[k] < b + live[b] {
      InFree(units, fl, k, fl[k]);
    }
  }

  lemma {:induction false} FreedLive(units: Field, fl: seq<int>, live: map<int, int>, b: int, k: int)
    requires Spaced(units, fl) && LiveOk(units, live) && FreeCells(units, fl) !! LiveCells(live)
    requires b in live && Slot(fl, b, k) && |fl| > 0
    ensures LiveOk(FreedUnits(units, fl, b, live[b], k), live - {b})
  {
    hide FreeCells, LiveCells;
    forall a | a in live ensures a != fl[Before(k, |fl|)] {
      NotOnList(units, fl, live, a);
    }
  }

  lemma {:induction false} FreedArena(units: Field, fl: seq<int>, arena: int, pages: set<int>, b: int, u: int, k: int)
    requires Spaced(units, fl) && ArenaOk(units, fl, arena, pages) && Slot(fl, b, k)
    requires b + u != arena && arena + 1 != b && k <= |Rest(fl, b, u, k)|
    ensures ArenaOk(FreedUnits(units, fl, b, u, k), FreedList(units, fl, b, u, k), arena, pages)
  {
    hide PageCells, Spaced, Rest, Inserted, Slot;
    SpacedSized(units, fl);
    ArenaNotPut(fl, arena, b, k);
    ArenaStays(fl, arena, b, u, k);
    var i :| 0 <= i < |fl| && fl[i] == arena;
    assert units[fl[i]] == 1;
  }

  lemma {:induction false} ArenaNotPut(fl: seq<int>, arena: int, b: int, k: int)
    requires Slot(fl, b, k) && arena in fl
    ensures b != arena && 0 <= k <= |fl|
  {
  }

  lemma {:induction false} ArenaStays(fl: seq<int>, arena: int, b: int, u: int, k: int)
    requires arena in fl && 0 <= k <= |fl| && b + u != arena && k <= |Rest(fl, b, u, k)|
    ensures arena in Rest(fl, b, u, k) && arena in Inserted(Rest(fl, b, u, k), b, k)
  {
    var i :| 0 <= i < |fl| && fl[i] == arena;
    var rest := Rest(fl, b, u, k);
    var i' := if |rest| == |fl| || i < k then i else i - 1;
    assert rest[i'] == arena;
    assert Inserted(rest, b, k)[if i' < k then i' else i' + 1] == arena;
  }

  lemma {:induction false} LiveLess(units: Field, live: map<int, int>, b: int)
    requires LiveOk(units, live) && b in live
    ensures LiveCells(live - {b}) == LiveCells(live) - Cells(b, live[b])
  {
    hide LiveCells;
    forall x ensures x in LiveCells(live - {b}) <==> x in LiveCells(live) && x !in Cells(b, live[b]) {
      if x in LiveCells(live - {b}) {
        var a := LiveAt(live - {b}, x);
        InLive(live, a, x);
      }
      if x in LiveCells(live) && x !in Cells(b, live[b]) {
        var a := LiveAt(live, x);
        InLive(live - {b}, a, x);
      }
    }
  }

  lemma {:induction false} FreedTiled(
    units: Field, fl: seq<int>, live: map<int, int>, arena: int, pages: set<int>, b: int, k: int)
    requires Spaced(units, fl) && LiveOk(units, live) && ArenaOk(units, fl, arena, pages)
    requires Sized(units, fl) && Tiled(units, fl, live, arena, pages) && b in live && Gap(units, fl, b, live[b], k)
    requires b + live[b] != arena && arena + 1 != b && |fl| > 0 && k <= |Rest(fl, b, live[b], k)|
    requires |fl| == 1 && k == 0 ==> b + live[b] != fl[0]
    requires
      var units', fl' := FreedUnits(units, fl, b, live[b], k), FreedList(units, fl, b, live[b], k);
      Sized(units', fl') && FreeCells(units', fl') == FreeCells(units, fl) + Cells(b, live[b])
    ensures
      var units', fl', live' := FreedUnits(units, fl, b, live[b], k), FreedList(units, fl, b, live[b], k), live - {b};
      LiveOk(units', live') && ArenaOk(units', fl', arena, pages) && Tiled(units', fl', live', arena, pages) &&
      fl[Before(k, |fl|)] in fl'
  {
    hide FreeCells, LiveCells, PageCells, Spaced, LiveOk, ArenaOk, FreedUnits;
    FreedLive(units, fl, live, b, k);
    FreedArena(units, fl, arena, pages, b, live[b], k);
    LiveLess(units, live, b);
    forall x | x in Cells(b, live[b]) ensures x in LiveCells(live) {
      InLive(live, b, x);
    }
    PrevStays(fl, b, live[b], k);
  }

  lemma {:induction false} PrevStays(fl: seq<int>, b: int, u: int, k: int)
    requires Slot(fl, b, k) && |fl| > 0 && u > 0 && (|fl| == 1 && k == 0 ==> b + u != fl[0])
    ensures fl[Before(k, |fl|)] in Rest(fl, b, u, k) && k <= |Rest(fl, b, u, k)|
    ensures fl[Before(k, |fl|)] in Inserted(Rest(fl, b, u, k), b, k)
  {
    var p, rest := fl[Before(k, |fl|)], Rest(fl, b, u, k);
    var i := Before(k, |rest|);
    assert rest[i] == p;
    assert Inserted(rest, b, k)[if i < k then i else i + 1] == p;
  }

  lemma {:induction false} PageMore(pages: set<int>, p: int)
    ensures PageCells(pages + {p}) == PageCells(pages) + Cells(p, PAGE_UNITS)
  {
    hide Cells;
    forall x ensures x in PageCells(pages + {p}) <==> x in PageCells(pages) || x in Cells(p, PAGE_UNITS) {
      if x in PageCells(pages) {
        var q :| q in pages && x in Cells(q, PAGE_UNITS);
        assert q in pages + {p};
      }
      if x in Cells(p, PAGE_UNITS) {
        assert p in pages + {p};
      }
    }
  }

  lemma {:induction false} PageApart(pages: set<int>, p: int)
    requires PagesApart(pages) && p > 0 && p !in pages && forall x | x in Cells(p, PAGE_UNITS) :: x !in PageCells(pages)
    ensures PagesApart(pages + {p})
  {
    forall q | q in pages ensures p + PAGE_UNITS <= q || q + PAGE_UNITS <= p {
      var x := if q < p then p else q;
      assert x in Cells(q, PAGE_UNITS) ==> x in PageCells(pages);
      assert x in Cells(p, PAGE_UNITS) ==> x !in PageCells(pages);
    }
  }

  lemma {:induction false} PageLive(
    units: Field, fl: seq<int>, live: map<int, int>, arena: int, pages: set<int>, p: int)
    requires Sized(units, fl) && LiveOk(units, live) && ArenaOk(units, fl, arena, pages) &&
      Tiled(units, fl, live, arena, pages)
    requires NewPage(p, arena, pages)
    ensures p !in live && LiveOk(units[p := PAGE_UNITS], live[p := PAGE_UNITS])
  {
    hide FreeCells, LiveCells, PageCells, ArenaOk, Tiled;
    forall a | a in live ensures p + PAGE_UNITS <= a || a + live[a] <= p {
      LiveInPages(units, fl, live, arena, pages, a);
      var x := if a < p then p else a;
      assert a <= x < a + live[a] ==> x in PageCells(pages);
      assert x in Cells(p, PAGE_UNITS) ==> x !in PageCells(pages);
    }
  }

  lemma {:induction false} PageList(
    units: Field, next: Field, fl: seq<int>, live: map<int, int>, arena: int, pages: set<int>, p: int)
    requires Listed(units, next, fl) && Tiled(units, fl, live, arena, pages) && NewPage(p, arena, pages)
    ensures Listed(units[p := PAGE_UNITS], next, fl) && FreeCells(units[p := PAGE_UNITS], fl) == FreeCells(units, fl)
    ensures forall i | 0 <= i < |fl| :: fl[i] != p
  {
    hide FreeCells, LiveCells, PageCells, Circle;
    SpacedSized(units, fl);
    forall i | 0 <= i < |fl| ensures fl[i] != p {
      InFree(units, fl, i, fl[i]);
      assert fl[i] in {arena} + PageCells(pages);
      assert p in Cells(p, PAGE_UNITS);
    }
    ListedDomain(units, next, fl);
    OffList(units, next, fl, units[p := PAGE_UNITS], next);
  }

  lemma {:induction false} PageTiled(
    units: Field, next: Field, fl: seq<int>, live: map<int, int>, arena: int, pages: set<int>, p: int)
    requires Listed(units, next, fl) && Sized(units, fl) && LiveOk(units, live) && ArenaOk(units, fl, arena, pages)
    requires Tiled(units, fl, live, arena, pages) && NewPage(p, arena, pages)
    ensures
      var units', live', pages' := units[p := PAGE_UNITS], live[p := PAGE_UNITS], pages + {p};
      p !in live && Listed(units', next, fl) && FreeCells(units', fl) == FreeCells(units, fl) &&
      LiveOk(units', live') &&
      ArenaOk(units', fl, arena, pages') && Tiled(units', fl, live', arena, pages')
  {
    hide FreeCells, LiveCells, PageCells, LiveOk, Circle, Spaced;
    PageLive(units, fl, live, arena, pages, p);
    PageList(units, next, fl, live, arena, pages, p);
    PageMore(pages, p);
    PageApart(pages, p);
    LiveMore(live, p, PAGE_UNITS);
    forall x | x in Cells(p, PAGE_UNITS) ensures x !in FreeCells(units, fl) {
      assert x !in {arena} + PageCells(pages);
    }
  }

  lemma {:induction false} NotTouching(units: Field, fl: seq<int>, i: int, j: int)
    requires Spaced(units, fl) && 0 <= i < |fl| && 0 <= j < |fl| && i != j
    ensures fl[i] + units[fl[i]] < fl[j] || fl[j] + units[fl[j]] < fl[i]
  {
    assert i < j || j < i;
  }

  /** Free blocks are whole runs of free units. */
  lemma {:induction false} RunEnds(units: Field, fl: seq<int>, i: int)
    requires Spaced(units, fl) && 0 <= i < |fl|
    ensures fl[i] - 1 !in FreeCells(units, fl) && fl[i] + units[fl[i]] !in FreeCells(units, fl)
  {
    hide FreeCells, Spaced;
    SpacedSized(units, fl);
    forall x | x in FreeCells(units, fl) ensures x != fl[i] - 1 && x != fl[i] + units[fl[i]] {
      var j := FreeAt(units, fl, x);
      if i != j {
        NotTouching(units, fl, i, j);
      }
    }
  }

  /** Units that are free and consecutive are in one block, because blocks are never adjacent. */
  lemma {:induction false} RunInBlock(units: Field, fl: seq<int>, a: int, n: int)
    returns (i: int)
    requires Spaced(units, fl) && n > 0 && forall x | a <= x < a + n :: x in FreeCells(units, fl)
    ensures 0 <= i < |fl| && fl[i] <= a && a + n <= fl[i] + units[fl[i]]
    decreases n
  {
    hide FreeCells, Spaced;
    SpacedSized(units, fl);
    if n == 1 {
      i := FreeAt(units, fl, a);
    } else {
      i := RunInBlock(units, fl, a, n - 1);
      var j := FreeAt(units, fl, a + n - 1);
      if i != j {
        NotTouching(units, fl, i, j);
      }
    }
  }

  lemma {:induction false} PageHasRoom(units: Field, fl: seq<int>, p: int, need: int)
    requires Spaced(units, fl) && Sized(units, fl) && need <= PAGE_UNITS
    requires forall x | x in Cells(p, PAGE_UNITS) :: x in FreeCells(units, fl)
    ensures !NoRoom(units, fl, need)
  {
    hide FreeCells;
    var i := RunInBlock(units, fl, p, PAGE_UNITS);
  }
}
