/** What the invariant of the SLOB allocator means: units are conserved, and coalescing is complete. */
module SlobFacts {
  import opened Common
  import opened SlobList
  import opened Slob

  // Conservation

  ghost function Sum(units: Field, fl: seq<int>): int
    requires Sized(units, fl)
  {
    if fl == [] then 0 else Sum(units, fl[..|fl| - 1]) + units[fl[|fl| - 1]]
  }

  lemma {:induction false} FreeCount(units: Field, fl: seq<int>)
    requires Spaced(units, fl)
    ensures |FreeCells(units, fl)| == Sum(units, fl)
  {
    hide FreeCells, Spaced;
    SpacedSized(units, fl);
    if fl != [] {
      var n := |fl| - 1;
      var rest := fl[..n];
      assert Without(fl, n) == rest;
      WithoutSpaced(units, fl, n);
      FreeCount(units, rest);
      UnlinkCells(units, fl, n);
      forall x | x in Cells(fl[n], units[fl[n]]) ensures x in FreeCells(units, fl) {
        InFree(units, fl, n, x);
      }
      CellsCount(fl[n], units[fl[n]]);
      assert FreeCells(units, fl) == FreeCells(units, rest) + Cells(fl[n], units[fl[n]]);
    } else {
      NoBlocks(units, fl);
    }
  }

  lemma {:induction false} NoBlocks(units: Field, fl: seq<int>)
    requires fl == []
    ensures FreeCells(units, fl) == {}
  {
  }

  lemma {:induction false} PageCount(pages: set<int>)
    requires PagesApart(pages)
    ensures |PageCells(pages)| == PAGE_UNITS * |pages|
  {
    hide PageCells, Cells;
    if |pages| > 0 {
      SomePage(pages);
      var p :| p in pages;
      var rest := pages - {p};
      PageCount(rest);
      PageMore(rest, p);
      assert rest + {p} == pages;
      CellsCount(p, PAGE_UNITS);
      forall x | x in PageCells(rest) ensures x !in Cells(p, PAGE_UNITS) {
        PageOf(rest, x, p);
      }
    } else {
      NoPages(pages);
    }
  }

  lemma {:induction false} SomePage(pages: set<int>)
    requires |pages| > 0
    ensures exists p :: p in pages
  {
    if forall p :: p !in pages {
      assert false;
    }
  }

  lemma {:induction false} NoPages(pages: set<int>)
    requires |pages| == 0
    ensures PageCells(pages) == {}
  {
  }

  lemma {:induction false} PageOf(rest: set<int>, x: int, p: int)
    requires x in PageCells(rest) && p !in rest && PagesApart(rest + {p})
    ensures x !in Cells(p, PAGE_UNITS)
  {
    var q :| q in rest && x in Cells(q, PAGE_UNITS);
  }

  /** Free and live units together are the arena's one and those of all pages obtained. */
  lemma {:induction false} Conserved(units: Field, fl: seq<int>, live: map<int, int>, arena: int, pages: set<int>)
    requires Spaced(units, fl) && ArenaOk(units, fl, arena, pages) && Tiled(units, fl, live, arena, pages)
    ensures Sum(units, fl) + |LiveCells(live)| == 1 + PAGE_UNITS * |pages|
  {
    hide FreeCells, LiveCells, PageCells, Spaced;
    FreeCount(units, fl);
    PageCount(pages);
    assert arena !in PageCells(pages);
    assert |{arena} + PageCells(pages)| == 1 + |PageCells(pages)|;
  }

  // Coalescing is complete

  /** The first unit of a block is one whose predecessor is not free. */
  lemma {:induction false} StartsOf(units: Field, fl: seq<int>, x: int)
    requires Spaced(units, fl)
    ensures x in fl <==> x in FreeCells(units, fl) && x - 1 !in FreeCells(units, fl)
  {
    hide FreeCells, Spaced;
    SpacedSized(units, fl);
    if x in fl {
      var i :| 0 <= i < |fl| && fl[i] == x;
      InFree(units, fl, i, x);
      RunEnds(units, fl, i);
    } else if x in FreeCells(units, fl) {
      var i := FreeAt(units, fl, x);
      InFree(units, fl, i, x - 1);
    }
  }

  ghost predicate Increasing(l: seq<int>) {
    forall i, j | 0 <= i < j < |l| :: l[i] < l[j]
  }

  lemma {:induction false} IncreasingUnique(l: seq<int>, m: seq<int>)
    requires Increasing(l) && Increasing(m) && forall x :: x in l <==> x in m
    ensures l == m
  {
    assert |l| > 0 ==> l[0] in l && l[0] in m;
    assert |m| > 0 ==> m[0] in m && m[0] in l;
    if l != [] && m != [] {
      var a, b := l[|l| - 1], m[|m| - 1];
      assert a in m && b in l;
      assert a == b;
      var l', m' := l[..|l| - 1], m[..|m| - 1];
      forall x ensures x in l' <==> x in m' {
        assert x in l <==> x in l' || x == a;
        assert x in m <==> x in m' || x == b;
      }
      IncreasingUnique(l', m');
    }
  }

  /** The free list is determined by which units are free: one block for every maximal run. */
  lemma {:induction false} Canonical(units: Field, fl: seq<int>, units': Field, fl': seq<int>)
    requires Spaced(units, fl) && Spaced(units', fl') && FreeCells(units, fl) == FreeCells(units', fl')
    ensures fl == fl' && forall i | 0 <= i < |fl| :: units[fl[i]] == units'[fl[i]]
  {
    hide FreeCells;
    forall x ensures x in fl <==> x in fl' {
      StartsOf(units, fl, x);
      StartsOf(units', fl', x);
    }
    IncreasingUnique(fl, fl');
    forall i | 0 <= i < |fl| ensures units[fl[i]] == units'[fl[i]] {
      SizeAtMost(units, fl, units', i);
      SizeAtMost(units', fl, units, i);
    }
  }

  lemma {:induction false} SizeAtMost(units: Field, fl: seq<int>, units': Field, i: int)
    requires Spaced(units, fl) && Spaced(units', fl) && FreeCells(units, fl) == FreeCells(units', fl) && 0 <= i < |fl|
    ensures units[fl[i]] <= units'[fl[i]]
  {
    hide FreeCells, Spaced;
    SpacedSized(units, fl);
    SpacedSized(units', fl);
    forall x | fl[i] <= x < fl[i] + units[fl[i]] ensures x in FreeCells(units', fl) {
      InFree(units, fl, i, x);
    }
    var j := RunInBlock(units', fl, fl[i], units[fl[i]]);
    Ordered(units', fl, i, j);
    if i != j {
      NotTouching(units', fl, i, j);
    }
  }

  // What happens at the arena

  /** The failing request: on a fresh heap, kmalloc of no bytes hands out the arena and leaves it on the
      list, where the next request for one unit finds it again. */
  method ZeroBytes(arena: int)
    returns (h: Heap, r: Outcome, again: int)
    ensures fresh(h) && h.arena == arena && r == Block(arena + 1) && !h.Valid()
    ensures h.live == map[arena := 1] && h.fl == [arena] && Listed(h.units, h.next, h.fl)
    ensures again == arena
  {
    h := new Heap(arena);
    SoleLink(h.units, h.next, arena);
    r := h.Kmalloc(0, None);
    SoleLink(h.units, h.next, arena);
    var found, prev, cur, s, t := h.Scan(1);
    again := cur;
  }

  lemma {:induction false} SoleLink(units: Field, next: Field, c: int)
    requires Listed(units, next, [c])
    ensures c in next && next[c] == c
  {
    var fl := [c];
    assert fl[0] == c;
    LinkOf(next, fl, 0);
  }

  /** Coalescing keeps the list well formed exactly if the block given back is not directly below the
      only free block. */
  lemma {:induction false} JoinKeepsList(units: Field, next: Field, fl: seq<int>, b: int, u: int, k: int)
    requires Listed(units, next, fl) && Gap(units, fl, b, u, k)
    ensures k <= |Rest(fl, b, u, k)|
    ensures
      Listed(FreedUnits(units, fl, b, u, k), FreedNext(units, next, fl, b, u, k), FreedList(units, fl, b, u, k)) <==>
      !(|fl| == 1 && k == 0 && b + u == fl[0])
  {
    if |fl| == 1 && k == 0 && b + u == fl[0] {
      LinkOf(next, fl, 0);
      var next', fl' := FreedNext(units, next, fl, b, u, k), FreedList(units, fl, b, u, k);
      assert fl' == [b] && next'[b] == fl[0];
      assert !Linked(next', fl', 0);
    } else {
      FreedListed(units, next, fl, b, u, k);
    }
  }

  /** In that case the links lead around both blocks, and they overlap. */
  lemma {:induction false} OnlyBlockJoined(units: Field, next: Field, c: int, b: int, u: int)
    requires Listed(units, next, [c]) && u > 0 && b + u == c
    ensures
      Sized(units, [c]) && Gap(units, [c], b, u, 0) &&
      Circle(FreedNext(units, next, [c], b, u, 0), [b, c]) && !Spaced(FreedUnits(units, [c], b, u, 0), [b, c])
  {
    var fl := [c];
    assert fl[0] == c;
    LinkOf(next, fl, 0);
    var units', next', fl' := FreedUnits(units, fl, b, u, 0), FreedNext(units, next, fl, b, u, 0), [b, c];
    assert Linked(next', fl', 0) && Linked(next', fl', 1);
    assert fl'[0] + units'[fl'[0]] >= fl'[1];
  }
}
