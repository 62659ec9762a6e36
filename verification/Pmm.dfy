/** Mapping, unmapping and copying user pages through the page tables. */
module Pmm {
  import opened Common
  import opened PageTables
  import opened PageMemory

  /** Nothing in [a, b) is mapped any more and nothing else has changed. */
  ghost predicate Cleared(flat: Flat, flat': Flat, dir: int, a: int, b: int) {
    forall k :: At(flat', k) == if k.dir == dir && a <= k.page < b then Zero else At(flat, k)
  }

  lemma {:induction false} ClearedMapped(flat: Flat, flat': Flat, dir: int, a: int, b: int)
    requires Cleared(flat, flat', dir, a, b)
    ensures Mapped(flat') <= Mapped(flat)
  {
    forall p | p in Mapped(flat') ensures p in Mapped(flat) {
      var k :| k in flat' && flat'[k].Present? && flat'[k].frame == p;
      assert At(flat', k) == flat'[k];
    }
  }

  lemma {:induction false} ClearedChain(
    flat: Flat, mid: Flat, flat': Flat, held: multiset<int>, free: set<int>, freeMid: set<int>, free': set<int>,
    dir: int, a: int, b: int, c: int)
    requires a <= b <= c && Cleared(flat, mid, dir, a, b) && Cleared(mid, flat', dir, b, c)
    requires Released(flat, mid, held, free, freeMid) && Released(mid, flat', held, freeMid, free')
    ensures Cleared(flat, flat', dir, a, c) && Released(flat, flat', held, free, free')
  {
    hide Mapped;
    ClearedMapped(flat, mid, dir, a, b);
    ClearedMapped(mid, flat', dir, b, c);
  }

  lemma {:induction false} ClearOne(flat: Flat, dir: int, page: int)
    ensures Cleared(flat, Put(flat, Key(dir, page), Zero), dir, page, page + 1)
  {
  }

  lemma {:induction false} ClearNone(flat: Flat, held: multiset<int>, free: set<int>, dir: int, a: int, b: int)
    requires forall page | a <= page < b :: At(flat, Key(dir, page)) == Zero
    ensures Cleared(flat, flat, dir, a, b) && Released(flat, flat, held, free, free)
  {
    forall k ensures At(flat, k) == if k.dir == dir && a <= k.page < b then Zero else At(flat, k) {
      assert k == Key(k.dir, k.page);
    }
  }

  /** Where the tables below an entry lie. */
  lemma {:induction false} EntryRange(s: Spot, la: int, page: int)
    requires 1 <= s.level <= 3 && 0 <= la < Span(s.level + 1) && la % Span(s.level) == 0
    requires s.prefix * Span(s.level + 1) + la <= page < s.prefix * Span(s.level + 1) + la + Span(s.level)
    ensures 0 <= la / Span(s.level) < RADIX
    ensures Child(s, la / Span(s.level)) == SpotOf(s.dir, s.level - 1, page)
    ensures Child(s, la / Span(s.level)).prefix * Span(s.level) == s.prefix * Span(s.level + 1) + la
  {
    if s.level == 1 {
    } else if s.level == 2 {
    } else {
    }
  }

  lemma {:induction false} LeafRange(s: Spot, i: int)
    requires s.level == 0 && 0 <= i < RADIX
    ensures s == SpotOf(s.dir, 0, s.prefix * Span(1) + i) && i == Index(0, s.prefix * Span(1) + i)
  {
  }

  lemma {:induction false} NextBoundary(level: int, start: int)
    requires 1 <= level <= 3 && 0 <= start
    ensures 0 <= start - start % Span(level) <= start < start - start % Span(level) + Span(level)
    ensures (start - start % Span(level)) % Span(level) == 0
    ensures start < Span(level + 1) ==> start - start % Span(level) + Span(level) <= Span(level + 1)
  {
    if level == 1 {
    } else if level == 2 {
    } else {
    }
  }

  lemma {:induction false} BoundaryStep(level: int, la: int)
    requires 1 <= level <= 3 && 0 <= la && la % Span(level) == 0
    ensures (la + Span(level)) % Span(level) == 0
    ensures la < Span(level + 1) ==> la + Span(level) <= Span(level + 1)
  {
    if level == 1 {
    } else if level == 2 {
    } else {
    }
  }

  lemma {:induction false} Inhabited(s: set<int>)
    requires s != {}
    ensures exists p :: p in s
  {
    if forall p :: p !in s {
      assert false;
    }
  }

  lemma {:induction false} ReleasedNone(flat: Flat, held: multiset<int>, free: set<int>)
    ensures Released(flat, flat, held, free, free)
  {
  }

  /** A mapped page is given back exactly when its last mapping goes; free frames may have
      become tables. */
  ghost predicate FreedAtZero(flat: Flat, flat': Flat, held: multiset<int>, free: set<int>, free': set<int>) {
    (forall p | p in free' :: p in free || p in Mapped(flat)) &&
    (forall p | p in Mapped(flat) :: p in free' <==> p !in Mapped(flat') && p !in held)
  }

  /** Nothing lost its last mapping. */
  lemma {:induction false} FreedNone(flat: Flat, flat': Flat, held: multiset<int>, free: set<int>, free': set<int>)
    requires Mapped(flat) !! free' && free' <= free && Mapped(flat) <= Mapped(flat')
    ensures FreedAtZero(flat, flat', held, free, free')
  {
  }

  /** One mapping went and a held page was mapped in its place. */
  lemma {:induction false} FreedSwap(
    flat: Flat, held: multiset<int>, free: set<int>, mid: set<int>, free': set<int>, k: Key, e: Entry)
    requires e.Present? && mid <= free && Mapped(flat) !! mid
    requires Released(flat, Put(flat, k, Zero), held + multiset{e.frame}, mid, free')
    ensures FreedAtZero(flat, Put(flat, k, e), held, free, free')
  {
    var flat1, flat2 := Put(flat, k, Zero), Put(flat, k, e);
    PutPut(flat, k, e);
    MappedPut(flat1, k, e);
    assert At(flat1, k) == Zero;
    assert Mapped(flat2) == Mapped(flat1) + {e.frame};
  }

  lemma {:induction false} MapsMore(flat: Flat, k: Key, e: Entry)
    requires e.Present? && (At(flat, k).Present? ==> At(flat, k).frame == e.frame)
    ensures Mapped(flat) <= Mapped(Put(flat, k, e))
  {
    MappedPut(flat, k, e);
  }

  lemma {:induction false} PutPut(flat: Flat, k: Key, e: Entry)
    requires e.Present?
    ensures Put(Put(flat, k, Zero), k, e) == Put(flat, k, e)
  {
  }

  /** The tables that were added all lie on the way to one page. */
  ghost predicate OnTheWay(at: map<Spot, int>, at': map<Spot, int>, dir: int, page: int) {
    forall s | s in at' && s !in at :: 0 <= s.level <= 2 && s == SpotOf(dir, s.level, page)
  }

  class Memory {
    /** Page frames in use as page tables, with their contents. */
    var tables: Tables
    /** The reference count of every page frame. */
    var refs: map<int, int>
    var free: set<int>
    /** Where each table belongs, the flat map, and references from outside the page tables. */
    ghost var at: map<Spot, int>
    ghost var flat: Flat
    ghost var held: multiset<int>

    ghost predicate Valid()
      reads this
    {
      Layout(tables, at) && Leaves(tables, at, flat) && Pool(tables, at, flat, held, refs, free)
    }

    /** All frames free and no directory yet. */
    constructor (frames: set<int>)
      ensures Valid() && free == frames && refs == (map p | p in frames :: 0) && tables == map[] && flat == map[]
      ensures held == multiset{}
    {
      tables, refs, free := map[], map p | p in frames :: 0, frames;
      at, flat, held := map[], map[], multiset{};
    }

    /** A zeroed page becomes an empty directory. */
    method NewDirectory()
      returns (r: Option<int>)
      requires Valid()
      modifies this
      ensures Valid() && flat == old(flat) && held == old(held)
      ensures r.None? <==> old(free) == {}
      ensures r.Some? ==>
        r.value in old(free) && free == old(free) - {r.value} && at == old(at)[Spot(r.value, 3, 0) := r.value]
      ensures r.None? ==> at == old(at)
    {
      hide Pool, Leaves, Layout;
      forall p | p in free ensures p in refs && p !in tables && p !in held && p !in Mapped(flat) {
        FreeFrame(p);
      }
      r := AllocPage();
      if r.Some? {
        AddDirectory(tables, at, flat, held, refs, free, r.value);
        tables := tables[r.value := EmptyTable()];
        at := at[Spot(r.value, 3, 0) := r.value];
      }
    }

    method AllocPage()
      returns (r: Option<int>)
      requires Valid()
      modifies this`free
      ensures Valid()
      ensures r.None? <==> old(free) == {}
      ensures r.Some? ==> r.value in old(free) && free == old(free) - {r.value}
      ensures r.None? ==> free == old(free)
    {
      if free == {} {
        return None;
      }
      Inhabited(free);
      var p :| p in free;
      free := free - {p};
      return Some(p);
    }

    /** get_pud, get_pmd and get_pte: the table of the given level that covers the page. */
    method GetTable(dir: int, page: int, level: int, create: bool)
      returns (r: Option<int>)
      requires Valid() && 0 <= level <= 3 && SpotOf(dir, 3, page) in at
      modifies this
      decreases 3 - level
      ensures Valid() && flat == old(flat) && held == old(held) && refs.Keys == old(refs.Keys)
      ensures r.Some? <==> SpotOf(dir, level, page) in at
      ensures r.Some? ==> r.value == at[SpotOf(dir, level, page)]
      ensures forall s | s in old(at) :: s in at && at[s] == old(at)[s]
      ensures free <= old(free) && free + tables.Keys == old(free) + old(tables.Keys)
      ensures OnTheWay(old(at), at, dir, page)
      ensures !create || SpotOf(dir, level, page) in old(at) ==>
        tables == old(tables) && refs == old(refs) && free == old(free) && at == old(at)
      ensures create && r.None? ==> free == {}
    {
      hide Pool, Leaves, Layout, Span, Index, Child;
      if level == 3 {
        DirectoryFrame(dir, page);
        return Some(dir);
      }
      if SpotOf(dir, level + 1, page) !in at {
        MissingBelow(dir, page, level);
      }
      var up := GetTable(dir, page, level + 1, create);
      ghost var s := SpotOf(dir, level + 1, page);
      var i := Index(level + 1, page);
      ChildOf(dir, level + 1, page);
      if up.None? {
        MissingBelow(dir, page, level);
        return None;
      }
      LayoutTable(tables, at, s);
      TableLink(s, i);
      var e := tables[up.value][i];
      if e.Present? {
        return Some(e.frame);
      }
      if !create {
        return None;
      }
      forall p | p in free ensures p in refs && p !in tables && p !in held && p !in Mapped(flat) {
        FreeFrame(p);
      }
      r := AllocPage();
      if r.Some? {
        GrowTable(s, up.value, i, r.value);
      }
    }

    lemma {:induction false} DirectoryFrame(dir: int, page: int)
      requires Valid() && SpotOf(dir, 3, page) in at
      ensures at[SpotOf(dir, 3, page)] == dir
    {
    }

    lemma {:induction false} MissingBelow(dir: int, page: int, level: int)
      requires Valid() && 0 <= level < 3 && SpotOf(dir, level + 1, page) !in at
      ensures SpotOf(dir, level, page) !in at
    {
      var s := SpotOf(dir, level, page);
      if s in at {
        assert Parent(s) in at;
        ChildOf(dir, level + 1, page);
        ParentOfChild(SpotOf(dir, level + 1, page), Index(level + 1, page));
      }
    }

    lemma {:induction false} TableLink(s: Spot, i: int)
      requires Valid() && s in at && s.level > 0 && 0 <= i < RADIX
      ensures at[s] in tables && |tables[at[s]]| == RADIX && Link(tables[at[s]][i], at, Child(s, i))
    {
    }

    /** Install a fresh, zeroed table below entry i of the table f, which is the one at s. */
    method GrowTable(ghost s: Spot, f: int, i: int, p: int)
      requires Valid() && s in at && s.level > 0 && f == at[s] && 0 <= i < RADIX
      requires f in tables && |tables[f]| == RADIX && tables[f][i].Zero?
      requires p in refs && p !in tables && p !in held && p !in free && p !in Mapped(flat)
      modifies this
      ensures Valid() && flat == old(flat) && held == old(held) && free == old(free)
      ensures refs == old(refs)[p := 1] && tables.Keys == old(tables.Keys) + {p}
      ensures Child(s, i) !in old(at) && at == old(at)[Child(s, i) := p]
    {
      hide Pool, Leaves, Layout, Child;
      GrowLayout(tables, at, s, i, p);
      GrowLeaves(tables, at, flat, s, i, p);
      PoolGrow(tables, at, flat, held, refs, free, s, i, p);
      assert free - {p} == free;
      refs := refs[p := 1];
      tables := tables[f := tables[f][i := Present(p, TABLE_PERM)]][p := EmptyTable()];
      at := at[Child(s, i) := p];
    }

    lemma {:induction false} FreeFrame(p: int)
      requires Valid() && p in free
      ensures p in refs && p !in tables && p !in held && p !in Mapped(flat)
    {
    }

    /** page_remove_pte on the entry of a page, whose table is f. */
    method RemovePte(ghost dir: int, f: int, page: int)
      requires Valid() && SpotOf(dir, 0, page) in at && f == at[SpotOf(dir, 0, page)]
      modifies this`tables, this`refs, this`free, this`flat
      ensures Valid() && tables.Keys == old(tables.Keys) && refs.Keys == old(refs.Keys)
      ensures flat == Put(old(flat), Key(dir, page), Zero)
      ensures Released(old(flat), flat, held, old(free), free) && old(free) <= free
    {
      hide Pool, Leaves, Layout, Index, Span, Released;
      ghost var k := Key(dir, page);
      var i := Index(0, page);
      LayoutTable(tables, at, SpotOf(dir, 0, page));
      LeafEntry(tables, at, flat, dir, page);
      WriteLeaf(tables, at, flat, dir, page, Zero);
      var e := tables[f][i];
      if e.Present? {
        PoolRemove(tables, Write(tables, f, i, Zero), at, flat, held, refs, free, k);
        refs := refs[e.frame := refs[e.frame] - 1];
        if refs[e.frame] == 0 {
          free := free + {e.frame};
        }
        tables := tables[f := tables[f][i := Zero]];
        flat := Put(flat, k, Zero);
      } else {
        assert Put(flat, k, Zero) == flat by { LeavesPresent(k); }
        ReleasedNone(flat, held, free);
      }
    }

    lemma {:induction false} LeafFound(dir: int, page: int)
      requires Valid() && SpotOf(dir, 0, page) in at
      ensures var f := at[SpotOf(dir, 0, page)];
              f in tables && |tables[f]| == RADIX && tables[f][Index(0, page)] == At(flat, Key(dir, page))
    {
      hide Pool, Leaves, Layout, Index, Span, At;
      LayoutTable(tables, at, SpotOf(dir, 0, page));
      LeafEntry(tables, at, flat, dir, page);
    }

    lemma {:induction false} LeavesPresent(k: Key)
      requires Valid()
      ensures At(flat, k).Zero? <==> k !in flat
      ensures k in flat ==> flat[k] == At(flat, k)
    {
    }

    lemma {:induction false} MappedNotFree()
      requires Valid()
      ensures Mapped(flat) !! free
    {
    }

    /** page_remove */
    method PageRemove(dir: int, page: int)
      requires Valid() && SpotOf(dir, 3, page) in at
      modifies this
      ensures Valid() && at == old(at) && held == old(held) && refs.Keys == old(refs.Keys)
      ensures Cleared(old(flat), flat, dir, page, page + 1)
      ensures Released(old(flat), flat, held, old(free), free)
    {
      hide Pool, Leaves, Layout, Span;
      var f := GetTable(dir, page, 0, false);
      if f.Some? {
        RemovePte(dir, f.value, page);
        ClearOne(old(flat), dir, page);
      } else {
        MissingIsEmpty(tables, at, flat, dir, 0, page);
        ClearNone(flat, held, free, dir, page, page + 1);
      }
    }

    /** page_insert: false stands for -E_NO_MEM. */
    method PageInsert(dir: int, p: int, page: int, perm: Perm)
      returns (ok: bool)
      requires Valid() && SpotOf(dir, 3, page) in at
      requires p in refs && p !in tables && p !in free
      modifies this
      ensures Valid() && held == old(held) && refs.Keys == old(refs.Keys)
      ensures forall s | s in old(at) :: s in at && at[s] == old(at)[s]
      ensures OnTheWay(old(at), at, dir, page) && old(free) <= free + tables.Keys
      ensures tables.Keys <= old(free) + old(tables.Keys)
      ensures ok ==> flat == Put(old(flat), Key(dir, page), Present(p, perm))
      ensures !ok ==> flat == old(flat) && free == {}
      ensures SpotOf(dir, 0, page) in old(at) ==>
        ok && at == old(at) && tables.Keys == old(tables.Keys) && old(free) <= free
      ensures FreedAtZero(old(flat), flat, held, old(free), free)
    {
      hide Pool, Leaves, Layout, Index, Span, Released, FreedAtZero, Mapped, Put, At;
      var f := GetTable(dir, page, 0, true);
      if f.None? {
        MappedNotFree();
        FreedNone(flat, flat, held, old(free), free);
        return false;
      }
      MapPage(dir, f.value, p, page, perm, old(free));
      return true;
    }

    /** The rest of page_insert, once the table f of the page is found. */
    method MapPage(ghost dir: int, f: int, p: int, page: int, perm: Perm, ghost pool: set<int>)
      requires Valid() && SpotOf(dir, 0, page) in at && f == at[SpotOf(dir, 0, page)]
      requires p in refs && p !in tables && p !in free && free <= pool
      modifies this`tables, this`refs, this`free, this`flat, this`held
      ensures Valid() && held == old(held) && refs.Keys == old(refs.Keys) && tables.Keys == old(tables.Keys)
      ensures flat == Put(old(flat), Key(dir, page), Present(p, perm))
      ensures FreedAtZero(old(flat), flat, held, pool, free) && old(free) <= free
    {
      hide Memory.Valid, Index, Released, FreedAtZero, Mapped, Put, At, SpotOf;
      ghost var k, new_ := Key(dir, page), Present(p, perm);
      LeafFound(dir, page);
      LeavesPresent(k);
      MappedNotFree();
      var e := tables[f][Index(0, page)];
      Hold(p);
      if e.Present? && e.frame == p {
        MapAgain(dir, f, p, page, perm, pool);
        return;
      }
      if e.Present? {
        Evict(dir, f, page, Present(p, perm), old(held), pool);
      } else {
        MapsMore(flat, k, new_);
        FreedNone(flat, Put(flat, k, new_), old(held), pool, free);
      }
      MapHeld(dir, f, page, Present(p, perm));
    }

    /** The case that the page is mapped there already: only the permissions change. */
    method MapAgain(ghost dir: int, f: int, p: int, page: int, perm: Perm, ghost pool: set<int>)
      requires Valid() && SpotOf(dir, 0, page) in at && f == at[SpotOf(dir, 0, page)] && free <= pool
      requires Key(dir, page) in flat && flat[Key(dir, page)].Present? && flat[Key(dir, page)].frame == p
      requires p in held && p in refs
      modifies this`tables, this`refs, this`flat, this`held
      ensures Valid() && held == old(held) - multiset{p} && refs.Keys == old(refs.Keys)
      ensures tables.Keys == old(tables.Keys) && flat == Put(old(flat), Key(dir, page), Present(p, perm))
      ensures FreedAtZero(old(flat), flat, held, pool, free)
    {
      hide Memory.Valid, FreedAtZero, Mapped, Put, SpotOf;
      ghost var k, new_ := Key(dir, page), Present(p, perm);
      MappedNotFree();
      Unhold(p);
      MapsMore(flat, k, new_);
      FreedNone(flat, Put(flat, k, new_), held, pool, free);
      Remap(dir, f, page, Present(p, perm));
    }

    /** Remove what is mapped at the page before the held page of the entry e goes there. */
    method Evict(ghost dir: int, f: int, page: int, ghost e: Entry, ghost rest: multiset<int>, ghost pool: set<int>)
      requires Valid() && SpotOf(dir, 0, page) in at && f == at[SpotOf(dir, 0, page)] && free <= pool
      requires e.Present? && held == rest + multiset{e.frame}
      modifies this`tables, this`refs, this`free, this`flat
      ensures Valid() && tables.Keys == old(tables.Keys) && refs.Keys == old(refs.Keys) && Key(dir, page) !in flat
      ensures Put(flat, Key(dir, page), e) == Put(old(flat), Key(dir, page), e)
      ensures FreedAtZero(old(flat), Put(flat, Key(dir, page), e), rest, pool, free) && old(free) <= free
    {
      hide Pool, Leaves, Layout, Index, Span, Released, FreedAtZero, Mapped, Put, At;
      ghost var k := Key(dir, page);
      MappedNotFree();
      RemovePte(dir, f, page);
      FreedSwap(old(flat), rest, pool, old(free), free, k, e);
      PutPut(old(flat), k, e);
      PutAt(old(flat), k, Zero, k);
      LeavesPresent(k);
    }

    /** page_ref_inc */
    method Hold(p: int)
      requires Valid() && p in refs && p !in tables && p !in free
      modifies this`refs, this`held
      ensures Valid() && refs == old(refs)[p := old(refs)[p] + 1] && held == old(held) + multiset{p}
    {
      hide Pool, Leaves, Layout;
      PoolHold(tables, at, flat, held, refs, free, p);
      refs := refs[p := refs[p] + 1];
      held := held + multiset{p};
    }

    /** page_ref_dec of a reference that is not the last. */
    method Unhold(p: int)
      requires Valid() && p in held && p in refs
      modifies this`refs, this`held
      ensures Valid() && refs == old(refs)[p := old(refs)[p] - 1] && held == old(held) - multiset{p}
    {
      hide Pool, Leaves, Layout;
      PoolUnhold(tables, at, flat, held, refs, free, p);
      refs := refs[p := refs[p] - 1];
      held := held - multiset{p};
    }

    /** Write new permissions for a page mapped already. */
    method Remap(ghost dir: int, f: int, page: int, e: Entry)
      requires Valid() && SpotOf(dir, 0, page) in at && f == at[SpotOf(dir, 0, page)]
      requires Key(dir, page) in flat && flat[Key(dir, page)].Present? && e.Present? &&
        e.frame == flat[Key(dir, page)].frame
      modifies this`tables, this`flat
      ensures Valid() && tables.Keys == old(tables.Keys)
      ensures flat == Put(old(flat), Key(dir, page), e)
    {
      hide Pool, Leaves, Layout, Index, Span, Put;
      LayoutTable(tables, at, SpotOf(dir, 0, page));
      WriteLeaf(tables, at, flat, dir, page, e);
      PoolReplace(tables, Write(tables, f, Index(0, page), e), at, flat, held, refs, free, Key(dir, page), e);
      tables := tables[f := tables[f][Index(0, page) := e]];
      flat := Put(flat, Key(dir, page), e);
    }

    /** Write an entry for a page that was not mapped, using up a held reference. */
    method MapHeld(ghost dir: int, f: int, page: int, e: Entry)
      requires Valid() && SpotOf(dir, 0, page) in at && f == at[SpotOf(dir, 0, page)]
      requires Key(dir, page) !in flat && e.Present? && e.frame in held
      modifies this`tables, this`flat, this`held
      ensures Valid() && tables.Keys == old(tables.Keys) && held == old(held) - multiset{e.frame}
      ensures flat == Put(old(flat), Key(dir, page), e)
    {
      hide Pool, Leaves, Layout, Index, Span, Put;
      LayoutTable(tables, at, SpotOf(dir, 0, page));
      WriteLeaf(tables, at, flat, dir, page, e);
      PoolAdd(tables, Write(tables, f, Index(0, page), e), at, flat, held, refs, free, Key(dir, page), e);
      tables := tables[f := tables[f][Index(0, page) := e]];
      flat := Put(flat, Key(dir, page), e);
      held := held - multiset{e.frame};
    }
  }
}
