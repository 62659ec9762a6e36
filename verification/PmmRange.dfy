/** Unmapping and copying whole ranges of pages. */
module PmmRange {
  import opened PageTables
  import opened PageMemory
  import opened Pmm

  /** What a range walk leaves behind. */
  ghost predicate Unmapped(
    flat: Flat, flat': Flat, held: multiset<int>, free: set<int>, free': set<int>, dir: int, a: int, b: int)
  {
    Cleared(flat, flat', dir, a, b) && Released(flat, flat', held, free, free')
  }

  lemma {:induction false} UnmappedStart(flat: Flat, held: multiset<int>, free: set<int>, dir: int, a: int)
    ensures Unmapped(flat, flat, held, free, free, dir, a, a)
  {
    ClearNone(flat, held, free, dir, a, a);
  }

  lemma {:induction false} UnmappedChain(
    flat: Flat, mid: Flat, flat': Flat, held: multiset<int>, free: set<int>, freeMid: set<int>, free': set<int>,
    dir: int, a: int, b: int, c: int)
    requires a <= b <= c
    requires Unmapped(flat, mid, held, free, freeMid, dir, a, b) &&
      Unmapped(mid, flat', held, freeMid, free', dir, b, c)
    ensures Unmapped(flat, flat', held, free, free', dir, a, c)
  {
    ClearedChain(flat, mid, flat', held, free, freeMid, free', dir, a, b, c);
  }

  /** unmap_range_pte: the entries start to end of a table of leaf entries. */
  method UnmapLeaves(m: Memory, ghost s: Spot, f: int, base: int, start: int, end: int)
    requires m.Valid() && s in m.at && f == m.at[s] && s.level == 0 && base == s.prefix * Span(1)
    requires 0 <= start < end <= Span(1)
    modifies m`tables, m`refs, m`free, m`flat
    ensures m.Valid() && m.tables.Keys == old(m.tables.Keys) && m.refs.Keys == old(m.refs.Keys)
    ensures Unmapped(old(m.flat), m.flat, m.held, old(m.free), m.free, s.dir, base + start, base + end)
  {
    hide Memory.Valid, Cleared, Released, Put, Index, SpotOf, Unmapped;
    UnmappedStart(m.flat, m.held, m.free, s.dir, base + start);
    var at := start;
    while at < end
      invariant start <= at <= end && m.Valid()
      invariant m.tables.Keys == old(m.tables.Keys) && m.refs.Keys == old(m.refs.Keys)
      invariant Unmapped(old(m.flat), m.flat, m.held, old(m.free), m.free, s.dir, base + start, base + at)
    {
      LeafRange(s, at);
      ghost var flat, free := m.flat, m.free;
      UnmapLeaf(m, s.dir, f, base + at);
      UnmappedChain(
        old(m.flat), flat, m.flat, m.held, old(m.free), free, m.free, s.dir, base + start, base + at, base + at + 1);
      at := at + 1;
    }
  }

  /** One turn of it: entries that are zero already are passed over. */
  method UnmapLeaf(m: Memory, ghost dir: int, f: int, page: int)
    requires m.Valid() && SpotOf(dir, 0, page) in m.at && f == m.at[SpotOf(dir, 0, page)]
    modifies m`tables, m`refs, m`free, m`flat
    ensures m.Valid() && m.tables.Keys == old(m.tables.Keys) && m.refs.Keys == old(m.refs.Keys)
    ensures Unmapped(old(m.flat), m.flat, m.held, old(m.free), m.free, dir, page, page + 1)
  {
    hide Layout, Leaves, Pool, Cleared, Released, Put, Index, SpotOf;
    LayoutTable(m.tables, m.at, SpotOf(dir, 0, page));
    LeafEntry(m.tables, m.at, m.flat, dir, page);
    if m.tables[f][Index(0, page)] != Zero {
      m.RemovePte(dir, f, page);
      ClearOne(old(m.flat), dir, page);
    } else {
      ClearNone(m.flat, m.held, m.free, dir, page, page + 1);
    }
  }

  /** unmap_range_pmd, unmap_range_pud and unmap_range_pgd, which differ only in their level. */
  method UnmapTable(m: Memory, ghost s: Spot, level: int, f: int, base: int, start: int, end: int)
    requires m.Valid() && s in m.at && f == m.at[s] && s.level == level && 0 <= level <= 3
    requires base == s.prefix * Span(level + 1) && 0 <= start < end <= Span(level + 1)
    modifies m`tables, m`refs, m`free, m`flat
    decreases level, 1
    ensures m.Valid() && m.tables.Keys == old(m.tables.Keys) && m.refs.Keys == old(m.refs.Keys)
    ensures Unmapped(old(m.flat), m.flat, m.held, old(m.free), m.free, s.dir, base + start, base + end)
  {
    hide Memory.Valid, Cleared, Released, Put, Index, SpotOf, Unmapped, Child, Span;
    if level == 0 {
      UnmapLeaves(m, s, f, base, start, end);
      return;
    }
    UnmappedStart(m.flat, m.held, m.free, s.dir, base + start);
    NextBoundary(level, start);
    var at := start;
    var la := start - start % Span(level);
    while at < end
      invariant start <= at <= end && 0 <= la && la % Span(level) == 0 && m.Valid()
      invariant at < end ==> la <= at < la + Span(level) <= Span(level + 1)
      invariant m.tables.Keys == old(m.tables.Keys) && m.refs.Keys == old(m.refs.Keys)
      invariant Unmapped(old(m.flat), m.flat, m.held, old(m.free), m.free, s.dir, base + start, base + at)
    {
      var off, size := at - la, Span(level) - (at - la);
      if size > end - at {
        size := end - at;
      }
      ghost var flat, free := m.flat, m.free;
      UnmapEntry(m, s, level, f, base, la, off, size);
      UnmappedChain(
        old(m.flat), flat, m.flat, m.held, old(m.free), free, m.free, s.dir, base + start, base + at, base + at + size);
      BoundaryStep(level, la);
      at, la := at + size, la + Span(level);
      if at < end {
        BoundaryStep(level, la);
      }
    }
  }

  /** One turn of it: the part [off, off + size) of what lies below the entry for la. */
  method UnmapEntry(m: Memory, ghost s: Spot, level: int, f: int, base: int, la: int, off: int, size: int)
    requires m.Valid() && s in m.at && f == m.at[s] && s.level == level && 1 <= level <= 3
    requires base == s.prefix * Span(level + 1) && 0 <= la < Span(level + 1) && la % Span(level) == 0
    requires 0 <= off < off + size <= Span(level)
    modifies m`tables, m`refs, m`free, m`flat
    decreases level, 0
    ensures m.Valid() && m.tables.Keys == old(m.tables.Keys) && m.refs.Keys == old(m.refs.Keys)
    ensures Unmapped(old(m.flat), m.flat, m.held, old(m.free), m.free, s.dir, base + la + off, base + la + off + size)
  {
    hide Layout, Leaves, Pool, Cleared, Released, Put, Index, SpotOf, Span;
    var i := la / Span(level);
    EntryRange(s, la, base + la);
    LayoutTable(m.tables, m.at, s);
    m.TableLink(s, i);
    var e := m.tables[f][i];
    if e.Present? {
      UnmapTable(m, Child(s, i), level - 1, e.frame, base + la, off, off + size);
    } else {
      forall page | base + la + off <= page < base + la + off + size ensures At(m.flat, Key(s.dir, page)) == Zero {
        EntryRange(s, la, page);
        MissingIsEmpty(m.tables, m.at, m.flat, s.dir, level - 1, page);
      }
      ClearNone(m.flat, m.held, m.free, s.dir, base + la + off, base + la + off + size);
    }
  }

  /** unmap_range: exactly the pages of [start, end) are unmapped, and exactly the pages that
      lose their last mapping are given back. */
  method UnmapRange(m: Memory, dir: int, start: int, end: int)
    requires m.Valid() && Spot(dir, 3, 0) in m.at && 0 <= start < end <= Span(4)
    modifies m
    ensures m.Valid() && m.at == old(m.at) && m.held == old(m.held) && m.refs.Keys == old(m.refs.Keys)
    ensures Cleared(old(m.flat), m.flat, dir, start, end)
    ensures Released(old(m.flat), m.flat, m.held, old(m.free), m.free)
  {
    hide Layout, Leaves, Pool, Cleared, Released, Span;
    m.DirectoryFrame(dir, 0);
    UnmapTable(m, Spot(dir, 3, 0), 3, dir, 0, start, end);
  }

  /** The simple loop: page_remove for one page after the other. */
  method UnmapPages(m: Memory, dir: int, start: int, end: int)
    requires m.Valid() && Spot(dir, 3, 0) in m.at && 0 <= start < end <= Span(4)
    modifies m
    ensures m.Valid() && m.at == old(m.at) && m.held == old(m.held) && m.refs.Keys == old(m.refs.Keys)
    ensures Cleared(old(m.flat), m.flat, dir, start, end)
    ensures Released(old(m.flat), m.flat, m.held, old(m.free), m.free)
  {
    hide Memory.Valid, Cleared, Released, Unmapped, Span, SpotOf;
    UnmappedStart(m.flat, m.held, m.free, dir, start);
    var page := start;
    while page < end
      invariant start <= page <= end && m.Valid() && m.at == old(m.at) && m.held == old(m.held)
      invariant m.refs.Keys == old(m.refs.Keys)
      invariant Unmapped(old(m.flat), m.flat, m.held, old(m.free), m.free, dir, start, page)
    {
      TopSpot(dir, page);
      ghost var flat, free := m.flat, m.free;
      m.PageRemove(dir, page);
      UnmappedOne(flat, m.flat, m.held, free, m.free, dir, page);
      UnmappedChain(old(m.flat), flat, m.flat, m.held, old(m.free), free, m.free, dir, start, page, page + 1);
      page := page + 1;
    }
    UnmappedParts(old(m.flat), m.flat, m.held, old(m.free), m.free, dir, start, end);
  }

  lemma {:induction false} UnmappedOne(
    flat: Flat, flat': Flat, held: multiset<int>, free: set<int>, free': set<int>, dir: int, page: int)
    requires Cleared(flat, flat', dir, page, page + 1) && Released(flat, flat', held, free, free')
    ensures Unmapped(flat, flat', held, free, free', dir, page, page + 1)
  {
  }

  lemma {:induction false} UnmappedParts(
    flat: Flat, flat': Flat, held: multiset<int>, free: set<int>, free': set<int>, dir: int, a: int, b: int)
    requires Unmapped(flat, flat', held, free, free', dir, a, b)
    ensures Cleared(flat, flat', dir, a, b) && Released(flat, flat', held, free, free')
  {
  }

  /** The walk through the table levels and the simple loop, from the same memory, end in the same
      mappings, reference counts and free frames. */
  lemma {:induction false} WalkIsPageByPage(
    at: map<Spot, int>, flat: Flat, held: multiset<int>, free: set<int>, dir: int, a: int, b: int,
    tables1: Tables, flat1: Flat, refs1: map<int, int>, free1: set<int>,
    tables2: Tables, flat2: Flat, refs2: map<int, int>, free2: set<int>)
    requires Pool(tables1, at, flat1, held, refs1, free1) && Cleared(flat, flat1, dir, a, b)
    requires Pool(tables2, at, flat2, held, refs2, free2) && Cleared(flat, flat2, dir, a, b)
    requires Released(flat, flat1, held, free, free1) && Released(flat, flat2, held, free, free2)
    requires refs1.Keys == refs2.Keys
    ensures (forall k :: At(flat1, k) == At(flat2, k)) && refs1 == refs2 && free1 == free2
  {
    forall k ensures At(flat1, k) == At(flat2, k) {
    }
    hide Cleared;
    forall p ensures Uses(flat1, p) == Uses(flat2, p) && (p in Mapped(flat1) <==> p in Mapped(flat2)) {
      forall k ensures k in Uses(flat1, p) <==> k in Uses(flat2, p) {
        UsesAt(flat1, k, p);
        UsesAt(flat2, k, p);
      }
      MappedUses(flat1, p);
      MappedUses(flat2, p);
    }
    hide Uses, Mapped, At;
    SameFree(flat, flat1, flat2, held, free, free1, free2);
    SameRefs(tables1, tables2, at, flat1, flat2, held, refs1, refs2, free1, free2);
  }

  lemma {:induction false} SameFree(
    flat: Flat, flat1: Flat, flat2: Flat, held: multiset<int>, free: set<int>, free1: set<int>, free2: set<int>)
    requires Released(flat, flat1, held, free, free1) && Released(flat, flat2, held, free, free2)
    requires forall p :: p in Mapped(flat1) <==> p in Mapped(flat2)
    ensures free1 == free2
  {
    hide Mapped;
    assert forall p :: p in free1 <==> p in free2;
  }

  lemma {:induction false} SameRefs(
    tables1: Tables, tables2: Tables, at: map<Spot, int>, flat1: Flat, flat2: Flat, held: multiset<int>,
    refs1: map<int, int>, refs2: map<int, int>, free1: set<int>, free2: set<int>)
    requires Pool(tables1, at, flat1, held, refs1, free1) && Pool(tables2, at, flat2, held, refs2, free2)
    requires refs1.Keys == refs2.Keys && forall p :: Uses(flat1, p) == Uses(flat2, p)
    ensures refs1 == refs2
  {
    hide Uses, Mapped;
    forall p | p in refs1 ensures refs1[p] == refs2[p] {
      if p in tables1 {
        assert p in at.Values;
        var s :| s in at && at[s] == p;
      }
    }
  }

  // Copying

  /** What copy_range makes of the entry at k: the target gets the user bits only, and unless
      the pages are shared nobody keeps the right to write. */
  ghost function CopyAt(flat: Flat, to: int, from: int, a: int, b: int, share: bool, k: Key): Entry {
    var e := At(flat, Key(from, k.page));
    if !(a <= k.page < b) || e.Zero? then At(flat, k)
    else if k.dir == to then Present(e.frame, Perm(share && e.perm.w, e.perm.u, false, false))
    else if k.dir == from && !share then Present(e.frame, Perm(false, e.perm.u, e.perm.a, e.perm.d))
    else At(flat, k)
  }

  ghost predicate Copied(flat: Flat, flat': Flat, to: int, from: int, a: int, b: int, share: bool) {
    forall k :: At(flat', k) == CopyAt(flat, to, from, a, b, share, k)
  }

  /** Nothing of the source range is mapped in the target, as copy_range asserts. */
  ghost predicate Room(flat: Flat, to: int, from: int, a: int, b: int) {
    to != from && forall page | a <= page < b :: At(flat, Key(from, page)).Present? ==> At(flat, Key(to, page)).Zero?
  }

  lemma {:induction false} CopiedChain(
    flat: Flat, mid: Flat, flat': Flat, to: int, from: int, a: int, b: int, c: int, share: bool)
    requires a <= b <= c && to != from
    requires Copied(flat, mid, to, from, a, b, share) && Copied(mid, flat', to, from, b, c, share)
    ensures Copied(flat, flat', to, from, a, c, share)
  {
    forall k ensures At(flat', k) == CopyAt(flat, to, from, a, c, share, k) {
      assert At(flat', k) == CopyAt(mid, to, from, b, c, share, k);
      assert At(mid, k) == CopyAt(flat, to, from, a, b, share, k);
      assert At(mid, Key(from, k.page)) == CopyAt(flat, to, from, a, b, share, Key(from, k.page));
    }
  }

  lemma {:induction false} CopiedNone(flat: Flat, to: int, from: int, a: int, b: int, share: bool)
    requires forall page | a <= page < b :: At(flat, Key(from, page)) == Zero
    ensures Copied(flat, flat, to, from, a, b, share)
  {
  }

  lemma {:induction false} RoomKept(flat: Flat, flat': Flat, to: int, from: int, a: int, b: int, c: int, share: bool)
    requires a <= b <= c && Room(flat, to, from, a, c) && Copied(flat, flat', to, from, a, b, share)
    ensures Room(flat', to, from, b, c)
  {
    forall page | b <= page < c
      ensures At(flat', Key(from, page)).Present? ==> At(flat', Key(to, page)).Zero?
    {
      assert At(flat', Key(from, page)) == CopyAt(flat, to, from, a, b, share, Key(from, page));
      assert At(flat', Key(to, page)) == CopyAt(flat, to, from, a, b, share, Key(to, page));
    }
  }

  lemma {:induction false} CopiedOne(
    flat: Flat, to: int, from: int, page: int, share: bool, e: Entry, kept: Entry, given: Entry)
    requires to != from && e == At(flat, Key(from, page)) && e.Present?
    requires given == Present(e.frame, Perm(share && e.perm.w, e.perm.u, false, false))
    requires kept == if share then e else Present(e.frame, Perm(false, e.perm.u, e.perm.a, e.perm.d))
    ensures Copied(flat, Put(Put(flat, Key(from, page), kept), Key(to, page), given), to, from, page, page + 1, share)
  {
    var mid := Put(flat, Key(from, page), kept);
    forall k ensures
      At(Put(mid, Key(to, page), given), k) == CopyAt(flat, to, from, page, page + 1, share, k)
    {
      PutAt(mid, Key(to, page), given, k);
      PutAt(flat, Key(from, page), kept, k);
    }
  }

  lemma {:induction false} NothingFreed(flat: Flat, flat': Flat, held: multiset<int>, free: set<int>, free': set<int>)
    requires FreedAtZero(flat, flat', held, free, free') && Mapped(flat) <= Mapped(flat')
    ensures free' <= free
  {
    forall p | p in free' ensures p in free {
      assert p in free || p in Mapped(flat);
    }
  }

  lemma {:induction false} MappedFrame(m: Memory, k: Key)
    requires m.Valid() && At(m.flat, k).Present?
    ensures var p := At(m.flat, k).frame; p in m.refs && p !in m.tables && p !in m.free
  {
    assert At(m.flat, k).frame in Mapped(m.flat);
  }

  /** The insertion of a page that takes no mapping away from another page. */
  method Insert(m: Memory, dir: int, p: int, page: int, perm: Perm)
    requires m.Valid() && SpotOf(dir, 3, page) in m.at && SpotOf(dir, 0, page) in m.at
    requires p in m.refs && p !in m.tables && p !in m.free
    requires At(m.flat, Key(dir, page)).Zero? || At(m.flat, Key(dir, page)).frame == p
    modifies m
    ensures m.Valid() && m.held == old(m.held) && m.free == old(m.free)
    ensures m.at == old(m.at) && m.tables.Keys == old(m.tables.Keys)
    ensures m.flat == Put(old(m.flat), Key(dir, page), Present(p, perm))
  {
    hide Memory.Valid, FreedAtZero, Index, SpotOf, Span, Put, At, Mapped;
    MappedPut(m.flat, Key(dir, page), Present(p, perm));
    var ok := m.PageInsert(dir, p, page, perm);
    NothingFreed(old(m.flat), m.flat, m.held, old(m.free), m.free);
  }

  /** One page of copy_range, whose leaf table in the source directory is f. */
  method CopyEntry(m: Memory, to: int, from: int, f: int, page: int, share: bool)
    returns (ok: bool)
    requires m.Valid() && SpotOf(to, 3, page) in m.at && SpotOf(from, 3, page) in m.at
    requires SpotOf(from, 0, page) in m.at && f == m.at[SpotOf(from, 0, page)]
    requires Room(m.flat, to, from, page, page + 1)
    modifies m
    ensures m.Valid() && m.held == old(m.held) && m.free <= old(m.free)
    ensures forall s | s in old(m.at) :: s in m.at && m.at[s] == old(m.at)[s]
    ensures m.free + m.tables.Keys == old(m.free) + old(m.tables.Keys) && OnTheWay(old(m.at), m.at, to, page)
    ensures At(old(m.flat), Key(from, page)).Zero? ==> m.at == old(m.at)
    ensures ok ==> Copied(old(m.flat), m.flat, to, from, page, page + 1, share)
    ensures !ok ==> m.flat == old(m.flat) && m.free == {} && At(m.flat, Key(from, page)).Present?
  {
    hide Layout, Leaves, Pool, Index, SpotOf, Span, Copied, Put, At, Mapped;
    LayoutTable(m.tables, m.at, SpotOf(from, 0, page));
    LeafEntry(m.tables, m.at, m.flat, from, page);
    var e := m.tables[f][Index(0, page)];
    if e.Zero? {
      CopiedNone(m.flat, to, from, page, page + 1, share);
      return true;
    }
    var target := m.GetTable(to, page, 0, true);
    if target.None? {
      return false;
    }
    MappedFrame(m, Key(from, page));
    var given := e.perm.(a := false, d := false);
    ghost var kept := e;
    ghost var flat := m.flat;
    if !share && e.perm.w {
      given := given.(w := false);
      var reduced := Perm(given.w, given.u, e.perm.a, e.perm.d);
      kept := Present(e.frame, reduced);
      Insert(m, from, e.frame, page, reduced);
    }
    PutAt(flat, Key(from, page), kept, Key(from, page));
    PutAt(flat, Key(from, page), kept, Key(to, page));
    PutSame(flat, Key(from, page));
    MappedFrame(m, Key(from, page));
    Insert(m, to, e.frame, page, given);
    CopiedOne(flat, to, from, page, share, e, kept, Present(e.frame, given));
    return true;
  }

  lemma {:induction false} PutSame(flat: Flat, k: Key)
    requires At(flat, k).Present?
    ensures Put(flat, k, At(flat, k)) == flat
  {
  }

  lemma {:induction false} TopSpot(dir: int, page: int)
    requires 0 <= page < Span(4)
    ensures SpotOf(dir, 3, page) == Spot(dir, 3, 0)
  {
  }

  /** ROUNDDOWN(start + size, size) for the size of what a table of the given level covers. */
  function NextTable(level: int, start: int): int
    requires 0 <= level <= 2
  {
    start + Span(level + 1) - (start + Span(level + 1)) % Span(level + 1)
  }

  lemma {:induction false} NextTableCovers(dir: int, level: int, start: int, page: int)
    requires 0 <= level <= 2 && start <= page < NextTable(level, start)
    ensures SpotOf(dir, level, page) == SpotOf(dir, level, start)
  {
    if level == 0 {
    } else if level == 1 {
    } else {
    }
  }

  lemma {:induction false} NextTableAdvances(level: int, start: int)
    requires 0 <= level <= 2
    ensures start < NextTable(level, start)
  {
  }

  /** Skipping an absent table passes over nothing. */
  lemma {:induction false} SkipCopies(m: Memory, to: int, from: int, level: int, start: int, stop: int, share: bool)
    requires m.Valid() && 0 <= level <= 2 && SpotOf(from, level, start) !in m.at
    requires start <= stop <= NextTable(level, start)
    ensures Copied(m.flat, m.flat, to, from, start, stop, share)
  {
    forall page | start <= page < stop ensures At(m.flat, Key(from, page)) == Zero {
      NextTableCovers(from, level, start, page);
      MissingIsEmpty(m.tables, m.at, m.flat, from, level, page);
    }
    CopiedNone(m.flat, to, from, start, stop, share);
  }

  lemma {:induction false} RoomPart(flat: Flat, to: int, from: int, a: int, b: int)
    requires a < b && Room(flat, to, from, a, b)
    ensures to != from && Room(flat, to, from, a, a + 1)
  {
  }

  /** What was not yet copied is as it was. */
  lemma {:induction false} CopiedSource(flat: Flat, flat': Flat, to: int, from: int, a: int, b: int, share: bool)
    requires to != from && Copied(flat, flat', to, from, a, b, share)
    ensures At(flat, Key(from, b)).Present? <==> At(flat', Key(from, b)).Present?
  {
    assert At(flat', Key(from, b)) == CopyAt(flat, to, from, a, b, share, Key(from, b));
  }

  /** A page of the range is mapped in the source, and the table is on the way to its copy. */
  ghost predicate Needed(flat: Flat, s: Spot, to: int, from: int, a: int, b: int) {
    0 <= s.level <= 2 &&
    exists page :: a <= page < b && At(flat, Key(from, page)).Present? && s == SpotOf(to, s.level, page)
  }

  /** So is every table that was added. */
  ghost predicate AllNeeded(flat: Flat, at: map<Spot, int>, at': map<Spot, int>, to: int, from: int, a: int, b: int) {
    forall s | s in at' && s !in at :: Needed(flat, s, to, from, a, b)
  }

  lemma {:induction false} MoreNeeded(
    flat: Flat, at: map<Spot, int>, mid: map<Spot, int>, at': map<Spot, int>, to: int, from: int, a: int, b: int,
    page: int)
    requires AllNeeded(flat, at, mid, to, from, a, b) && OnTheWay(mid, at', to, page) && a <= page < b
    requires At(flat, Key(from, page)).Present? || at' == mid
    ensures AllNeeded(flat, at, at', to, from, a, b)
  {
    hide SpotOf;
  }

  /** The largest table that is absent decides how far to skip. */
  method SkipTable(m: Memory, from: int, start: int)
    returns (next: int, ghost level: int)
    requires m.Valid() && SpotOf(from, 3, start) in m.at && SpotOf(from, 0, start) !in m.at
    modifies m
    ensures m.Valid() && m.flat == old(m.flat) && m.held == old(m.held) && m.free == old(m.free) && m.at == old(m.at)
    ensures m.tables == old(m.tables)
    ensures 0 <= level <= 2 && SpotOf(from, level, start) !in m.at && next == NextTable(level, start)
  {
    hide Memory.Valid, SpotOf, Span, NextTable;
    var pud := m.GetTable(from, start, 2, false);
    if pud.None? {
      return NextTable(2, start), 2;
    }
    var pmd := m.GetTable(from, start, 1, false);
    if pmd.None? {
      return NextTable(1, start), 1;
    }
    return NextTable(0, start), 0;
  }

  /** copy_range: false stands for -E_NO_MEM, met at the page stop. */
  method CopyRange(m: Memory, to: int, from: int, start: int, end: int, share: bool)
    returns (ok: bool, ghost stop: int)
    requires m.Valid() && Spot(to, 3, 0) in m.at && Spot(from, 3, 0) in m.at
    requires 0 <= start < end <= Span(4) && Room(m.flat, to, from, start, end)
    modifies m
    ensures m.Valid() && m.held == old(m.held) && m.free <= old(m.free)
    ensures m.free + m.tables.Keys == old(m.free) + old(m.tables.Keys)
    ensures AllNeeded(old(m.flat), old(m.at), m.at, to, from, start, end)
    ensures Copied(old(m.flat), m.flat, to, from, start, stop, share)
    ensures ok ==> stop == end
    ensures !ok ==> start <= stop < end && m.free == {} && At(old(m.flat), Key(from, stop)).Present?
    ensures ok ==> forall p | p in Mapped(old(m.flat)) ::
      p in old(m.refs) && p in m.refs && m.refs[p] == old(m.refs[p]) + |NewUses(old(m.flat), to, from, start, end, p)|
  {
    hide Memory.Valid, Copied, Room, At, SpotOf, Span, NextTable, Pool, Mapped, NewUses;
    ValidPool(m);
    var at := start;
    stop := start;
    CopiedNone(m.flat, to, from, start, start, share);
    while at < end
      invariant start <= at && stop == if at < end then at else end
      invariant m.Valid() && m.held == old(m.held) && m.free <= old(m.free)
      invariant m.free + m.tables.Keys == old(m.free) + old(m.tables.Keys)
      invariant AllNeeded(old(m.flat), old(m.at), m.at, to, from, start, end)
      invariant Spot(to, 3, 0) in m.at && Spot(from, 3, 0) in m.at
      invariant Copied(old(m.flat), m.flat, to, from, start, stop, share)
      decreases end - at
    {
      TopSpot(to, at);
      TopSpot(from, at);
      RoomKept(old(m.flat), m.flat, to, from, start, at, end, share);
      RoomPart(m.flat, to, from, at, end);
      ghost var flat, was := m.flat, at;
      var f := m.GetTable(from, at, 0, false);
      if f.None? {
        var next, level := SkipTable(m, from, at);
        NextTableAdvances(level, at);
        SkipCopies(m, to, from, level, at, if next < end then next else end, share);
        at := next;
      } else {
        ghost var spots := m.at;
        CopiedSource(old(m.flat), flat, to, from, start, at, share);
        var done := CopyEntry(m, to, from, f.value, at, share);
        MoreNeeded(old(m.flat), old(m.at), spots, m.at, to, from, start, end, at);
        if !done {
          return false, at;
        }
        at := at + 1;
      }
      stop := if at < end then at else end;
      CopiedChain(old(m.flat), flat, m.flat, to, from, start, was, stop, share);
    }
    ValidPool(m);
    forall p | p in Mapped(old(m.flat))
      ensures p in old(m.refs) && p in m.refs
      ensures m.refs[p] == old(m.refs[p]) + |NewUses(old(m.flat), to, from, start, end, p)|
    {
      CopyRefs(
        old(m.tables), old(m.at), old(m.flat), old(m.refs), old(m.free), m.held,
        m.tables, m.at, m.flat, m.refs, m.free, to, from, start, end, share, p);
    }
    return true, end;
  }

  /** After a copy for copy-on-write both directories map the same page at every address of the
      range, and no mapping of either allows writing. */
  lemma {:induction false} CopyOnWrite(flat: Flat, flat': Flat, to: int, from: int, a: int, b: int, page: int)
    requires Room(flat, to, from, a, b) && Copied(flat, flat', to, from, a, b, false) && a <= page < b
    ensures At(flat', Key(from, page)).Present? <==> At(flat, Key(from, page)).Present?
    ensures At(flat', Key(from, page)).Present? ==>
      var e, e' := At(flat', Key(from, page)), At(flat', Key(to, page));
      e'.Present? && e'.frame == e.frame == At(flat, Key(from, page)).frame &&
      !e.perm.w && !e'.perm.w && e.perm.u == e'.perm.u == At(flat, Key(from, page)).perm.u
    ensures At(flat', Key(from, page)).Zero? ==> At(flat', Key(to, page)) == At(flat, Key(to, page))
  {
    assert At(flat', Key(from, page)) == CopyAt(flat, to, from, a, b, false, Key(from, page));
    assert At(flat', Key(to, page)) == CopyAt(flat, to, from, a, b, false, Key(to, page));
  }

  /** After a sharing copy the source is as it was, and the target maps its pages with the same rights. */
  lemma {:induction false} CopyShared(flat: Flat, flat': Flat, to: int, from: int, a: int, b: int, page: int)
    requires Room(flat, to, from, a, b) && Copied(flat, flat', to, from, a, b, true) && a <= page < b
    ensures At(flat', Key(from, page)) == At(flat, Key(from, page))
    ensures At(flat, Key(from, page)).Present? ==>
      var e, e' := At(flat, Key(from, page)), At(flat', Key(to, page));
      e'.Present? && e'.frame == e.frame && e'.perm.w == e.perm.w && e'.perm.u == e.perm.u
  {
    assert At(flat', Key(from, page)) == CopyAt(flat, to, from, a, b, true, Key(from, page));
    assert At(flat', Key(to, page)) == CopyAt(flat, to, from, a, b, true, Key(to, page));
  }

  /** The target keys that a copy newly maps to the frame p. */
  ghost function NewUses(flat: Flat, to: int, from: int, a: int, b: int, p: int): set<Key> {
    set page |
      a <= page < b && At(flat, Key(from, page)).Present? && At(flat, Key(from, page)).frame == p :: Key(to, page)
  }

  /** Each page gains exactly its new mappings; with the invariant, so does its reference count. */
  lemma {:induction false} CopyCounts(flat: Flat, flat': Flat, to: int, from: int, a: int, b: int, share: bool, p: int)
    requires Room(flat, to, from, a, b) && Copied(flat, flat', to, from, a, b, share)
    ensures |Uses(flat', p)| == |Uses(flat, p)| + |NewUses(flat, to, from, a, b, p)|
  {
    var old_, more := Uses(flat, p), NewUses(flat, to, from, a, b, p);
    forall k ensures k in Uses(flat', p) <==> k in old_ || k in more {
      assert At(flat', k) == CopyAt(flat, to, from, a, b, share, k);
      UsesAt(flat, k, p);
      UsesAt(flat', k, p);
      assert k == Key(k.dir, k.page);
      if k.dir == to && a <= k.page < b {
        assert At(flat, Key(from, k.page)).Present? ==> At(flat, Key(to, k.page)).Zero?;
      }
    }
    forall k | k in more ensures k !in old_ {
      assert At(flat, Key(from, k.page)).Present? ==> At(flat, Key(to, k.page)).Zero?;
    }
    assert Uses(flat', p) == old_ + more;
  }

  lemma {:induction false} UsesAt(flat: Flat, k: Key, p: int)
    ensures k in Uses(flat, p) <==> At(flat, k).Present? && At(flat, k).frame == p
  {
  }

  lemma {:induction false} ValidPool(m: Memory)
    requires m.Valid()
    ensures Pool(m.tables, m.at, m.flat, m.held, m.refs, m.free)
  {
  }

  /** The counts of the pages mapped before a copy, by the invariant before and after it. */
  lemma {:induction false} CopyRefs(
    tables: Tables, at: map<Spot, int>, flat: Flat, refs: map<int, int>, free: set<int>, held: multiset<int>,
    tables': Tables, at': map<Spot, int>, flat': Flat, refs': map<int, int>, free': set<int>,
    to: int, from: int, a: int, b: int, share: bool, p: int)
    requires Pool(tables, at, flat, held, refs, free) && Pool(tables', at', flat', held, refs', free')
    requires Room(flat, to, from, a, b) && Copied(flat, flat', to, from, a, b, share) && p in Mapped(flat)
    ensures p in refs && p in refs' && refs'[p] == refs[p] + |NewUses(flat, to, from, a, b, p)|
  {
    hide Copied, Room, NewUses, Uses, Mapped;
    CopyCounts(flat, flat', to, from, a, b, share, p);
    MappedUses(flat, p);
    MappedUses(flat', p);
  }
}
