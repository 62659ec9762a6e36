/**
 kmalloc and kfree of the SLOB allocator as a whole: requests of nearly a page or more get pages of
 their own, recorded on a list of big blocks whose entries come from the heap.
 */
module SlobBig {
  import opened Common
  import opened SlobList
  import opened Slob

  const BIG_SIZE := 24

  /** struct bigblock: where it lies in the heap, its order and its pages. */
  datatype Big = Big(bb: int, order: nat, pages: int)

  ghost function Extent(order: nat): int {
    PAGE_UNITS * Pow2(order)
  }

  ghost function BigCells(b: Big): set<int> {
    Cells(b.pages, Extent(b.order))
  }

  ghost predicate BigOk(b: Big, live: map<int, int>, arena: int, pages: set<int>) {
    b.bb in live && live[b.bb] == SlobUnits(BIG_SIZE) && b.pages > 0 && b.pages % PAGE_UNITS == 0 &&
    arena !in BigCells(b) && BigCells(b) !! PageCells(pages)
  }

  ghost predicate Separate(bigs: seq<Big>) {
    forall i, j | 0 <= i < j < |bigs| :: bigs[i].bb != bigs[j].bb && BigCells(bigs[i]) !! BigCells(bigs[j])
  }

  ghost predicate AllBig(bigs: seq<Big>, live: map<int, int>, arena: int, pages: set<int>) {
    Separate(bigs) && forall i | 0 <= i < |bigs| :: BigOk(bigs[i], live, arena, pages)
  }

  /** What is left of a size_t in an int. */
  function ToInt(size: int): int {
    (size + 0x8000_0000) % 0x1_0000_0000 - 0x8000_0000
  }

  function Order(size: int): nat {
    if size <= PAGE_SIZE then 0 else 1 + Order(size / 2)
  }

  /** find_order */
  method FindOrder(size: int)
    returns (order: nat)
    ensures order == Order(size)
  {
    order := 0;
    var rest := size;
    while rest > PAGE_SIZE
      invariant order + Order(rest) == Order(size)
      decreases rest
    {
      rest := rest / 2;
      order := order + 1;
    }
  }

  /** The order is the number of halvings that bring the size down to a page. */
  lemma {:induction false} OrderQuotient(size: nat)
    ensures size / Pow2(Order(size)) <= PAGE_SIZE
    ensures Order(size) > 0 ==> size / Pow2(Order(size) - 1) > PAGE_SIZE
    decreases size
  {
    if size > PAGE_SIZE {
      OrderQuotient(size / 2);
      var k := Order(size / 2);
      HalfFirst(size, k);
      if k > 0 {
        HalfFirst(size, k - 1);
      }
    }
  }

  /** What the order says about the size, without division. */
  lemma {:induction false} OrderBounds(size: nat)
    ensures size < (PAGE_SIZE + 1) * Pow2(Order(size))
    ensures Order(size) > 0 ==> size >= (PAGE_SIZE + 1) * Pow2(Order(size) - 1)
  {
    OrderQuotient(size);
    var k := Order(size);
    hide Order, Pow2;
    QuotientBelow(size, Pow2(k), PAGE_SIZE);
    if k > 0 {
      QuotientAbove(size, Pow2(k - 1), PAGE_SIZE + 1);
    }
  }

  lemma {:induction false} QuotientBelow(n: nat, p: int, b: int)
    requires p > 0 && n / p <= b
    ensures n < (b + 1) * p
  {
    MulLe(n / p + 1, b + 1, p);
  }

  lemma {:induction false} QuotientAbove(n: nat, p: int, b: int)
    requires p > 0 && n / p >= b
    ensures n >= b * p
  {
    MulLe(b, n / p, p);
  }

  /** The size is a little more than a power of two pages, by less than one part in 4096. */
  predicate JustAbove(size: nat, k: nat) {
    PAGE_SIZE * Pow2(k) < size < (PAGE_SIZE + 1) * Pow2(k)
  }

  /** Where the size survives the conversion to int: the pages suffice exactly if it is not just above a
      power of two pages. */
  lemma {:induction false} OrderCoversInt(size: nat)
    ensures size <= PAGE_SIZE * Pow2(Order(size)) <==> forall k: nat :: !JustAbove(size, k)
  {
    OrderBounds(size);
    var o := Order(size);
    hide Order, Pow2;
    if size > PAGE_SIZE * Pow2(o) {
      assert JustAbove(size, o);
    } else {
      forall k: nat ensures !JustAbove(size, k) {
        if k >= o {
          Pow2Grows(o, k);
        } else {
          Pow2Grows(k, o - 1);
        }
      }
    }
  }

  /** kmalloc of a big block delivers enough pages exactly if the size fits an int and is not just above a
      power of two pages. */
  lemma {:induction false} OrderCovers(size: nat)
    ensures size <= PAGE_SIZE * Pow2(Order(ToInt(size))) <==>
      size < 0x8000_0000 && forall k: nat :: !JustAbove(size, k)
  {
    if size < 0x8000_0000 {
      assert ToInt(size) == size;
      OrderCoversInt(size);
    } else {
      TooLong(size);
    }
  }

  /** A size that does not fit an int gets less than half of 2^32 bytes, or a single page. */
  lemma {:induction false} TooLong(size: nat)
    requires size >= 0x8000_0000
    ensures size > PAGE_SIZE * Pow2(Order(ToInt(size)))
  {
    var n := ToInt(size);
    TwoTo19();
    ToIntRange(size);
    if n > PAGE_SIZE {
      OrderBounds(n);
      var o := Order(n);
      hide ToInt, Order, Pow2;
      if o > 19 {
        Pow2Grows(19, o - 1);
      } else {
        Pow2Grows(o, 19);
      }
    }
  }

  lemma {:induction false} ToIntRange(size: nat)
    ensures -0x8000_0000 <= ToInt(size) < 0x8000_0000 && ToInt(0x8000_0000) == -0x8000_0000
  {
  }

  lemma {:induction false} TwoTo19()
    ensures Pow2(19) == 0x8_0000
  {
    assert Pow2(5) == 32;
    Pow2Add(5, 5);
    Pow2Add(10, 5);
    Pow2Add(15, 4);
  }

  /** One input for each way to fail: 8193 bytes get two pages, 2^31 bytes get one. */
  lemma {:induction false} OrderTooSmall()
    ensures JustAbove(8193, 1) && PAGE_SIZE * Pow2(Order(ToInt(8193))) == 8192
    ensures PAGE_SIZE * Pow2(Order(ToInt(0x8000_0000))) == 4096
  {
    ToIntRange(8193);
    ToIntRange(0x8000_0000);
    assert ToInt(8193) == 8193;
    hide ToInt;
    assert Order(8193) == 1 + Order(4096);
  }

  lemma {:induction false} HalfFirst(n: nat, k: nat)
    ensures n / 2 / Pow2(k) == n / Pow2(k + 1)
  {
    if k > 0 {
      HalfFirst(n, k - 1);
      HalfOfQuotient(n / 2, k - 1);
      HalfOfQuotient(n, k);
    }
  }

  lemma {:induction false} HalfOfQuotient(n: nat, k: nat)
    ensures n / Pow2(k) / 2 == n / Pow2(k + 1)
  {
    var p := Pow2(k);
    var q, r := n / p, n % p;
    var q', b := q / 2, q % 2;
    assert n == p * q + r && q == 2 * q' + b;
    assert p * q == 2 * p * q' + p * b;
    QuotientIs(n, 2 * p, q', p * b + r);
  }

  lemma {:induction false} QuotientIs(n: int, d: int, q: int, r: int)
    requires d > 0 && n == d * q + r && 0 <= r < d
    ensures n / d == q
  {
    var q' := n / d;
    if q > q' {
      MulLe(q' + 1, q, d);
    } else if q < q' {
      MulLe(q + 1, q', d);
    }
  }

  // The list of big blocks

  /** Pages for a big block, clear of everything in use and of the page set aside for the heap. */
  ghost predicate NewRun(p: int, order: nat, bigs: seq<Big>, arena: int, pages: set<int>, page: Option<int>) {
    var cells := Cells(p, Extent(order));
    p > 0 && p % PAGE_UNITS == 0 && arena !in cells && cells !! PageCells(pages) &&
    (forall i | 0 <= i < |bigs| :: cells !! BigCells(bigs[i])) &&
    (page.Some? ==> cells !! Cells(page.value, PAGE_UNITS))
  }

  /** The page for the heap is clear of all big blocks. */
  ghost predicate OffBig(page: Option<int>, bigs: seq<Big>) {
    page.Some? ==> forall i | 0 <= i < |bigs| :: Cells(page.value, PAGE_UNITS) !! BigCells(bigs[i])
  }

  /** Only blocks other than the list's own changed in the heap, which may have got the page. */
  lemma {:induction false} BigsKept(
    bigs: seq<Big>, live: map<int, int>, live': map<int, int>, arena: int, pages: set<int>, pages': set<int>,
    page: Option<int>)
    requires AllBig(bigs, live, arena, pages) && OffBig(page, bigs)
    requires pages' == pages || (page.Some? && pages' == pages + {page.value})
    requires forall i | 0 <= i < |bigs| ::
      bigs[i].bb in live ==> bigs[i].bb in live' && live'[bigs[i].bb] == live[bigs[i].bb]
    ensures AllBig(bigs, live', arena, pages')
  {
    hide PageCells, BigCells, Cells, Separate;
    if page.Some? {
      PageMore(pages, page.value);
    }
    forall i | 0 <= i < |bigs| ensures BigOk(bigs[i], live', arena, pages') {
      assert BigOk(bigs[i], live, arena, pages);
    }
  }

  lemma {:induction false} BigAdded(bigs: seq<Big>, b: Big, live: map<int, int>, arena: int, pages: set<int>)
    requires AllBig(bigs, live, arena, pages) && BigOk(b, live, arena, pages)
    requires forall i | 0 <= i < |bigs| :: bigs[i].bb != b.bb && BigCells(b) !! BigCells(bigs[i])
    ensures AllBig([b] + bigs, live, arena, pages)
  {
    hide BigOk, BigCells;
    var more := [b] + bigs;
    assert forall i | 0 <= i < |bigs| :: more[i + 1] == bigs[i];
  }

  function Unlisted(bigs: seq<Big>, i: int): seq<Big>
    requires 0 <= i < |bigs|
  {
    bigs[..i] + bigs[i + 1..]
  }

  lemma {:induction false} BigRemoved(bigs: seq<Big>, i: int, live: map<int, int>, arena: int, pages: set<int>)
    requires AllBig(bigs, live, arena, pages) && 0 <= i < |bigs|
    ensures AllBig(Unlisted(bigs, i), live - {bigs[i].bb}, arena, pages)
  {
    hide BigCells, PageCells;
    var rest := Unlisted(bigs, i);
    assert forall j | 0 <= j < |rest| :: rest[j] == bigs[if j < i then j else j + 1];
    forall j | 0 <= j < |rest| ensures BigOk(rest[j], live - {bigs[i].bb}, arena, pages) {
      var k := if j < i then j else j + 1;
      assert BigOk(bigs[k], live, arena, pages) && bigs[k].bb != bigs[i].bb;
    }
  }

  lemma {:induction false} BigFacts(bigs: seq<Big>, i: int, live: map<int, int>, arena: int, pages: set<int>)
    requires AllBig(bigs, live, arena, pages) && 0 <= i < |bigs|
    ensures bigs[i].bb in live && live[bigs[i].bb] == SlobUnits(BIG_SIZE) && bigs[i].pages % PAGE_UNITS == 0
    ensures bigs[i].pages > 0 && bigs[i].pages in BigCells(bigs[i])
  {
    assert BigOk(bigs[i], live, arena, pages);
  }

  lemma {:induction false} ListInHeap(bigs: seq<Big>, live: map<int, int>, arena: int, pages: set<int>)
    requires AllBig(bigs, live, arena, pages)
    ensures forall i | 0 <= i < |bigs| :: bigs[i].bb in live
  {
    forall i | 0 <= i < |bigs| ensures bigs[i].bb in live {
      assert BigOk(bigs[i], live, arena, pages);
    }
  }

  lemma {:induction false} RunIsOk(
    b: Big, bigs: seq<Big>, live: map<int, int>, arena: int, pages: set<int>, pages': set<int>, page: Option<int>)
    requires NewRun(b.pages, b.order, bigs, arena, pages, page)
    requires b.bb in live && live[b.bb] == SlobUnits(BIG_SIZE)
    requires pages' == pages || (page.Some? && pages' == pages + {page.value})
    ensures BigOk(b, live, arena, pages') && forall i | 0 <= i < |bigs| :: BigCells(b) !! BigCells(bigs[i])
  {
    hide PageCells, Cells;
    if page.Some? {
      PageMore(pages, page.value);
    }
  }

  lemma {:induction false} NoneOff(bigs: seq<Big>)
    ensures OffBig(None, bigs)
  {
  }

  lemma {:induction false} HandedBack(free: set<int>, a: int, n: int, free': set<int>)
    requires Handed(free, a, n, free')
    ensures free' + Cells(a, n) == free
  {
  }

  /** A big block's pages begin at x. */
  ghost predicate Starts(bigs: seq<Big>, x: int) {
    exists i :: 0 <= i < |bigs| && bigs[i].pages == x
  }

  /** A small block is taken for a big one exactly if it is a single unit at the end of a page and the next
      page belongs to a big block. */
  lemma {:induction false} SmallTakenForBig(m: Malloc, a: int)
    requires m.Valid() && a in m.heap.live
    ensures Starts(m.bigblocks, a + 1) <==>
      m.heap.live[a] == 1 && (a + 1) % PAGE_UNITS == 0 &&
      exists i :: 0 <= i < |m.bigblocks| && a + 1 in BigCells(m.bigblocks[i])
  {
    hide Circle, Spaced, Tiled, FreeCells, LiveCells, PageCells;
    var h := m.heap;
    SpacedSized(h.units, h.fl);
    LiveInPages(h.units, h.fl, h.live, h.arena, h.pages, a);
    forall i | 0 <= i < |m.bigblocks|
      ensures m.bigblocks[i].pages == a + 1 <==> a + 1 in BigCells(m.bigblocks[i]) && h.live[a] == 1
      ensures m.bigblocks[i].pages % PAGE_UNITS == 0 && (a + 1 in BigCells(m.bigblocks[i]) ==> h.live[a] == 1)
    {
      BigFacts(m.bigblocks, i, h.live, h.arena, h.pages);
      assert BigOk(m.bigblocks[i], h.live, h.arena, h.pages);
      assert a in PageCells(h.pages);
      if h.live[a] != 1 {
        assert a + 1 in PageCells(h.pages);
      }
    }
  }

  lemma {:induction false} PagesNew()
    ensures NewPage(1024, 1, {}) && Order(ToInt(4096)) == 0 && NewRun(1280, 0, [], 1, {}, Some(1024))
    ensures OffBig(Some(1024), []) && OffBig(None, [])
  {
  }

  lemma {:induction false} EntryAtStart(pages: set<int>, a: int, free: set<int>)
    requires pages == {} || pages == {1024}
    requires Handed(Offered({1}, {}, pages, Some(1024)), a, 2, free)
    ensures a == 1024 && free == {1} + Cells(1026, 254)
  {
    hide Cells;
    assert a in Cells(a, 2) && a + 1 in Cells(a, 2);
    assert a in Cells(1024, 256) && a - 1 !in Cells(1024, 256);
  }

  lemma {:induction false} RestAtStart(a: int, free: set<int>)
    requires Handed({1} + Cells(1026, 254), a, 253, free)
    ensures a == 1026 && 1279 in {1} + Cells(1026, 254)
  {
    hide Cells;
    assert a in Cells(a, 253) && a + 1 in Cells(a, 253);
    assert a in Cells(1026, 254) && a - 1 !in Cells(1026, 254);
  }

  lemma {:induction false} RestHasRoom(h: Heap)
    requires h.Valid() && h.Free() == {1} + Cells(1026, 254)
    ensures Sized(h.units, h.fl) && !NoRoom(h.units, h.fl, 253)
  {
    hide FreeCells, Spaced, Circle, Tiled, LiveOk, ArenaOk;
    SpacedSized(h.units, h.fl);
    var i := RunInBlock(h.units, h.fl, 1026, 253);
  }

  /** Such a block: the list entry of a big block, a small block that fills the page but for one unit, and a
      block of no bytes in that unit.  Giving the last one back gives the big block back. */
  method WrongBlock()
    returns (m: Malloc, small: Outcome, given: Option<Big>)
    ensures m.Valid() && small == Block(1280) && given == Some(Big(1024, 0, 1280))
    ensures m.bigblocks == [] && m.heap.live == map[1026 := 253, 1279 := 1]
  {
    hide Heap.Valid, AllBig, Cells, Handed, Heap.Free, NewPage, NewRun, FreeCells, NoRoom, Sized, Order;
    m := new Malloc(1);
    PagesNew();
    var big := m.Kmalloc(4096, Some(1024), Some(1280));
    EntryAtStart(m.heap.pages, m.bigblocks[0].bb, m.heap.Free());
    RestHasRoom(m.heap);
    var rest := m.Kmalloc(4032, None, None);
    RestAtStart(rest.addr - 1, m.heap.Free());
    small := m.Kmalloc(0, None, None);
    given := m.Kfree(1280);
  }

  class Malloc {
    const heap: Heap
    var bigblocks: seq<Big>

    ghost predicate Valid()
      reads this, heap
    {
      heap.Valid() && AllBig(bigblocks, heap.live, heap.arena, heap.pages)
    }

    constructor (arena: int)
      ensures Valid() && fresh(heap) && heap.arena == arena && heap.live == map[] && bigblocks == []
      ensures heap.pages == {} && heap.Free() == {arena}
    {
      heap := new Heap(arena);
      bigblocks := [];
    }

    /** __kmalloc; page is what the page allocator has for the heap, run what it has for a big block. */
    method Kmalloc(size: nat, page: Option<int>, run: Option<int>)
      returns (r: Outcome)
      requires Valid() && OffBig(page, bigblocks)
      requires page.Some? ==> NewPage(page.value, heap.arena, heap.pages)
      requires run.Some? ==> NewRun(run.value, Order(ToInt(size)), bigblocks, heap.arena, heap.pages, page)
      modifies this, heap
      ensures Valid() <==> size > 0 || old(heap.First()) != heap.arena
      ensures r.Panic? <==> PAGE_SIZE - 2 * SLOB_UNIT <= size < PAGE_SIZE - SLOB_UNIT
      ensures !r.Block? ==> heap.live == old(heap.live) && bigblocks == old(bigblocks)
      ensures r.Block? && size < PAGE_SIZE - SLOB_UNIT ==>
        r.addr - 1 !in old(heap.live) && heap.live == old(heap.live)[r.addr - 1 := SlobUnits(size) + 1] &&
        bigblocks == old(bigblocks)
      ensures r.Block? && size >= PAGE_SIZE - SLOB_UNIT ==>
        run == Some(r.addr) && |bigblocks| > 0 && bigblocks[1..] == old(bigblocks) &&
        bigblocks[0] == Big(bigblocks[0].bb, Order(ToInt(size)), r.addr) &&
        bigblocks[0].bb !in old(heap.live) && heap.live == old(heap.live)[bigblocks[0].bb := SlobUnits(BIG_SIZE)]
      ensures heap.pages == old(heap.pages) || (page.Some? && heap.pages == old(heap.pages) + {page.value})
      ensures r.Block? ==>
        var all := Offered(old(heap.Free()), old(heap.pages), heap.pages, page);
        var small := size < PAGE_SIZE - SLOB_UNIT;
        var a := if small then r.addr - 1 else bigblocks[0].bb;
        var n := SlobUnits(if small then size + SLOB_UNIT else BIG_SIZE);
        (Valid() ==> Handed(all, a, n, heap.Free())) && (a + n in all ==> heap.First() == a + n)
      ensures r.Null? ==>
        heap.Free() == Offered(old(heap.Free()), old(heap.pages), heap.pages, page)
      ensures r.Null? && size < PAGE_SIZE - SLOB_UNIT ==>
        page.None? &&
        Sized(old(heap.units), old(heap.fl)) && NoRoom(old(heap.units), old(heap.fl), SlobUnits(size) + 1)
      ensures r.Null? && size >= PAGE_SIZE - SLOB_UNIT && run.Some? ==>
        page.None? && Sized(old(heap.units), old(heap.fl)) &&
        NoRoom(old(heap.units), old(heap.fl), SlobUnits(BIG_SIZE))
      ensures size == 0 ==> r == Block(old(heap.First()) + 1)
    {
      hide Heap.Valid, AllBig, NewPage, PageCells, FreeCells, Heap.Free, Handed, Heap.First, Cells, NewRun;
      hide Sized, NoRoom, OffBig, Order;
      if size < PAGE_SIZE - SLOB_UNIT {
        r := heap.Kmalloc(size, page);
        BigsKept(bigblocks, old(heap.live), heap.live, heap.arena, old(heap.pages), heap.pages, page);
        return;
      }
      var bb := heap.SlobAlloc(BIG_SIZE, page);
      ListInHeap(bigblocks, old(heap.live), heap.arena, old(heap.pages));
      BigsKept(bigblocks, old(heap.live), heap.live, heap.arena, old(heap.pages), heap.pages, page);
      if bb.None? {
        return Null;
      }
      var order := FindOrder(ToInt(size));
      if run.Some? {
        var b := Big(bb.value, order, run.value);
        RunIsOk(b, bigblocks, heap.live, heap.arena, old(heap.pages), heap.pages, page);
        BigAdded(bigblocks, b, heap.live, heap.arena, heap.pages);
        bigblocks := [b] + bigblocks;
        return Block(run.value);
      }
      ghost var live1 := heap.live;
      heap.LivePositive(bb.value);
      HandedBack(
        Offered(old(heap.Free()), old(heap.pages), heap.pages, page), bb.value, SlobUnits(BIG_SIZE), heap.Free());
      heap.SlobFree(bb.value, BIG_SIZE);
      NoneOff(bigblocks);
      BigsKept(bigblocks, live1, heap.live, heap.arena, heap.pages, heap.pages, None);
      return Null;
    }

    /** A block from the small-object path. */
    ghost predicate Small(block: int)
      reads this, heap
    {
      block - 1 in heap.live && forall i | 0 <= i < |bigblocks| :: bigblocks[i].bb != block - 1
    }

    /** kfree; given is the big block whose pages go back to the page allocator. */
    method Kfree(block: int)
      returns (given: Option<Big>)
      requires Valid()
      requires block != 0 ==> Small(block) || Starts(bigblocks, block)
      modifies this, heap
      ensures Valid() && heap.pages == old(heap.pages)
      ensures given.Some? <==> Starts(old(bigblocks), block)
      ensures given.None? ==>
        bigblocks == old(bigblocks) &&
        if block == 0 then heap.live == old(heap.live) && heap.Free() == old(heap.Free())
        else
          heap.live == old(heap.live) - {block - 1} &&
          heap.Free() == old(heap.Free()) + Cells(block - 1, old(heap.live)[block - 1])
      ensures given.Some? ==>
        given.value.pages == block && heap.live == old(heap.live) - {given.value.bb} &&
        heap.Free() == old(heap.Free()) + Cells(given.value.bb, SlobUnits(BIG_SIZE)) &&
        exists i :: 0 <= i < |old(bigblocks)| && old(bigblocks)[i] == given.value &&
          bigblocks == Unlisted(old(bigblocks), i)
    {
      hide Heap.Valid, AllBig, BigCells, Heap.Free, Cells;
      forall j | 0 <= j < |bigblocks| ensures bigblocks[j].pages > 0 && bigblocks[j].pages % PAGE_UNITS == 0 {
        BigFacts(bigblocks, j, heap.live, heap.arena, heap.pages);
      }
      if block == 0 {
        return None;
      }
      if block % PAGE_UNITS == 0 {
        var i := 0;
        while i < |bigblocks|
          invariant 0 <= i <= |bigblocks| && forall j | 0 <= j < i :: bigblocks[j].pages != block
        {
          if bigblocks[i].pages == block {
            var b := bigblocks[i];
            BigFacts(bigblocks, i, heap.live, heap.arena, heap.pages);
            BigRemoved(bigblocks, i, heap.live, heap.arena, heap.pages);
            heap.LivePositive(b.bb);
            bigblocks := Unlisted(bigblocks, i);
            heap.SlobFree(b.bb, BIG_SIZE);
            return Some(b);
          }
          i := i + 1;
        }
      }
      assert forall j | 0 <= j < |bigblocks| :: bigblocks[j].pages != block;
      heap.LivePositive(block - 1);
      heap.SlobFree(block - 1, 0);
      BigsKept(bigblocks, old(heap.live), heap.live, heap.arena, heap.pages, heap.pages, None);
      return None;
    }
  }
}
