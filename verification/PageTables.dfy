/**
 Four-level page tables kept in page frames, and the flat map from (directory, page) to
 entries that they stand for.  Addresses are counted in pages: every function modelled here
 asserts that its range is page aligned.
 */
module PageTables {

  const RADIX := 512

  /** The permission bits beside the present bit: writable, user, accessed, dirty. */
  datatype Perm = Perm(w: bool, u: bool, a: bool, d: bool)

  datatype Entry = Zero | Present(frame: int, perm: Perm)

  /** Pages covered by one entry of a table of this level: 0 for the tables that hold leaf
      entries (PTX), 1 for PMX, 2 for PUX and 3 for the directory (PGX). */
  function Span(level: int): (n: int)
    requires 0 <= level <= 4
    ensures n > 0
  {
    if level == 0 then 1
    else if level == 1 then 512
    else if level == 2 then 262144
    else if level == 3 then 134217728
    else 68719476736
  }

  /** PGX, PUX, PMX and PTX. */
  function Index(level: int, page: int): (i: int)
    requires 0 <= level <= 3
    ensures 0 <= i < RADIX
  {
    page / Span(level) % RADIX
  }

  /** The place of a table: it covers the pages page with page / Span(level + 1) == prefix. */
  datatype Spot = Spot(dir: int, level: int, prefix: int)

  datatype Key = Key(dir: int, page: int)

  type Flat = map<Key, Entry>

  function At(flat: Flat, k: Key): Entry {
    if k in flat then flat[k] else Zero
  }

  ghost function SpotOf(dir: int, level: int, page: int): Spot
    requires 0 <= level <= 3
  {
    Spot(dir, level, page / Span(level + 1))
  }

  ghost function Child(s: Spot, i: int): Spot {
    Spot(s.dir, s.level - 1, s.prefix * RADIX + i)
  }

  /** The page of an entry of a table of level 0. */
  ghost function Page(s: Spot, i: int): Key {
    Key(s.dir, s.prefix * RADIX + i)
  }

  lemma {:induction false} PageOf(dir: int, page: int)
    ensures Page(SpotOf(dir, 0, page), Index(0, page)) == Key(dir, page)
  {
  }

  lemma {:induction false} PageUnique(s: Spot, i: int, dir: int, page: int)
    requires s.level == 0 && 0 <= i < RADIX && Page(s, i) == Key(dir, page)
    ensures s == SpotOf(dir, 0, page) && i == Index(0, page)
  {
  }

  lemma {:induction false} ChildOf(dir: int, level: int, page: int)
    requires 1 <= level <= 3
    ensures Child(SpotOf(dir, level, page), Index(level, page)) == SpotOf(dir, level - 1, page)
  {
    if level == 1 {
      Nested1(page);
    } else if level == 2 {
      Nested2(page);
    } else {
      Nested3(page);
    }
  }

  lemma {:induction false} Nested1(page: int)
    ensures page / 512 / 512 == page / 262144
  {
  }

  lemma {:induction false} Nested2(page: int)
    ensures page / 262144 / 512 == page / 134217728
  {
  }

  lemma {:induction false} Nested3(page: int)
    ensures page / 134217728 / 512 == page / 68719476736
  {
  }

  type Tables = map<int, seq<Entry>>

  /** Which frames hold the tables of which places: exactly the linked ones. */
  ghost predicate Layout(tables: Tables, at: map<Spot, int>) {
    (forall s | s in at ::
      0 <= s.level <= 3 && at[s] in tables && |tables[at[s]]| == RADIX) &&
    (forall s, t | s in at && t in at && at[s] == at[t] :: s == t) &&
    (forall s | s in at && s.level == 3 :: s.prefix == 0 && at[s] == s.dir) &&
    (forall s | s in at && s.level < 3 :: Parent(s) in at) &&
    (forall s, i | s in at && s.level > 0 && 0 <= i < RADIX :: Link(tables[at[s]][i], at, Child(s, i)))
  }

  ghost function Parent(s: Spot): Spot {
    Spot(s.dir, s.level + 1, s.prefix / RADIX)
  }

  /** An entry above level 0 leads to the table below it and forbids nothing. */
  ghost predicate Link(e: Entry, at: map<Spot, int>, c: Spot) {
    (e.Present? <==> c in at) && (e.Present? ==> e.frame == at[c] && e.perm == Perm(true, true, true, true))
  }

  /** The leaf entries are those of the flat map. */
  ghost predicate Leaves(tables: Tables, at: map<Spot, int>, flat: Flat)
    requires Layout(tables, at)
  {
    (forall k | k in flat :: flat[k].Present? && SpotOf(k.dir, 0, k.page) in at) &&
    (forall s, i | s in at && s.level == 0 && 0 <= i < RADIX ::
      tables[at[s]][i] == At(flat, Page(s, i)))
  }

  /** The leaf entries that map a frame. */
  ghost function Uses(flat: Flat, p: int): set<Key> {
    set k | k in flat && flat[k].Present? && flat[k].frame == p
  }

  ghost function Mapped(flat: Flat): set<int> {
    set k | k in flat && flat[k].Present? :: flat[k].frame
  }

  /** Frames are free, tables, or pages counted by the leaf entries that map them and by the
      references that are held elsewhere. */
  ghost predicate Pool(
    tables: Tables, at: map<Spot, int>, flat: Flat, held: multiset<int>, refs: map<int, int>, free: set<int>) {
    tables.Keys == at.Values &&
    tables.Keys <= refs.Keys && free <= refs.Keys && tables.Keys !! free &&
    Mapped(flat) <= refs.Keys - tables.Keys - free &&
    (forall p | p in held :: p in refs && p !in tables && p !in free) &&
    (forall s | s in at :: at[s] in refs && refs[at[s]] == if s.level < 3 then 1 else 0) &&
    (forall p | p in refs && p !in tables :: refs[p] == |Uses(flat, p)| + held[p])
  }

  // Walking

  /** A table exists only where all tables above it exist. */
  lemma {:induction false} AncestorExists(tables: Tables, at: map<Spot, int>, dir: int, level: int, page: int)
    requires Layout(tables, at) && 0 <= level <= 3 && SpotOf(dir, 0, page) in at
    ensures SpotOf(dir, level, page) in at
  {
    if level > 0 {
      AncestorExists(tables, at, dir, level - 1, page);
      var s := SpotOf(dir, level - 1, page);
      assert Parent(s) in at;
      ChildOf(dir, level, page);
      assert s.prefix == SpotOf(dir, level, page).prefix * RADIX + Index(level, page);
    }
  }

  /** No entry lies under a missing table: what the range walks skip is empty. */
  lemma {:induction false} MissingIsEmpty(
    tables: Tables, at: map<Spot, int>, flat: Flat, dir: int, level: int, page: int)
    requires Layout(tables, at) && Leaves(tables, at, flat)
    requires 0 <= level <= 3 && SpotOf(dir, level, page) !in at
    ensures At(flat, Key(dir, page)) == Zero
  {
    if Key(dir, page) in flat {
      assert SpotOf(dir, 0, page) in at;
      AncestorExists(tables, at, dir, level, page);
    }
  }

  lemma {:induction false} LeafEntry(tables: Tables, at: map<Spot, int>, flat: Flat, dir: int, page: int)
    requires Layout(tables, at) && Leaves(tables, at, flat) && SpotOf(dir, 0, page) in at
    ensures tables[at[SpotOf(dir, 0, page)]][Index(0, page)] == At(flat, Key(dir, page))
  {
    var s := SpotOf(dir, 0, page);
    assert tables[at[s]][Index(0, page)] == At(flat, Page(s, Index(0, page)));
  }

  lemma {:induction false} LayoutTable(tables: Tables, at: map<Spot, int>, s: Spot)
    requires Layout(tables, at) && s in at
    ensures 0 <= s.level <= 3 && at[s] in tables && |tables[at[s]]| == RADIX
  {
  }

  /** The entry for a page in a table above level 0. */
  lemma {:induction false} LinkBelow(tables: Tables, at: map<Spot, int>, dir: int, level: int, page: int)
    requires Layout(tables, at) && 1 <= level <= 3 && SpotOf(dir, level, page) in at
    ensures
      var f := at[SpotOf(dir, level, page)];
      f in tables && |tables[f]| == RADIX && Link(tables[f][Index(level, page)], at, SpotOf(dir, level - 1, page))
  {
    hide Index, Span, Link;
    var s := SpotOf(dir, level, page);
    ChildOf(dir, level, page);
    assert Link(tables[at[s]][Index(level, page)], at, Child(s, Index(level, page)));
  }

  /** What the hardware finds: follow the entries from the directory down. */
  ghost function Walk(tables: Tables, table: int, level: int, page: int): Entry
    requires 0 <= level <= 3
    decreases level
  {
    if table !in tables || |tables[table]| != RADIX then Zero
    else
      var e := tables[table][Index(level, page)];
      if level == 0 || e.Zero? then e else Walk(tables, e.frame, level - 1, page)
  }

  /** The radix tree refines the flat map. */
  lemma {:induction false} WalkIsFlat(tables: Tables, at: map<Spot, int>, flat: Flat, dir: int, level: int, page: int)
    requires Layout(tables, at) && Leaves(tables, at, flat)
    requires 0 <= level <= 3 && SpotOf(dir, level, page) in at
    ensures Walk(tables, at[SpotOf(dir, level, page)], level, page) == At(flat, Key(dir, page))
  {
    hide Layout, Leaves, Index, Span, SpotOf, At;
    LayoutTable(tables, at, SpotOf(dir, level, page));
    if level == 0 {
      LeafEntry(tables, at, flat, dir, page);
    } else {
      LinkBelow(tables, at, dir, level, page);
      if SpotOf(dir, level - 1, page) in at {
        WalkIsFlat(tables, at, flat, dir, level - 1, page);
      } else {
        MissingIsEmpty(tables, at, flat, dir, level - 1, page);
      }
    }
  }

  function Both(p: Perm, q: Perm): Perm {
    Perm(p.w && q.w, p.u && q.u, p.a && q.a, p.d && q.d)
  }

  function Rights(e: Entry): Perm {
    if e.Zero? then Perm(false, false, false, false) else e.perm
  }

  /** What the hardware permits: a bit counts only if it is set on all levels of the walk. */
  ghost function WalkRights(tables: Tables, table: int, level: int, page: int): Perm
    requires 0 <= level <= 3
    decreases level
  {
    if table !in tables || |tables[table]| != RADIX then Rights(Zero)
    else
      var e := tables[table][Index(level, page)];
      if level == 0 || e.Zero? then Rights(e) else Both(e.perm, WalkRights(tables, e.frame, level - 1, page))
  }

  /** The permissions of a page are those of its leaf entry. */
  lemma {:induction false} RightsAreFlat(
    tables: Tables, at: map<Spot, int>, flat: Flat, dir: int, level: int, page: int)
    requires Layout(tables, at) && Leaves(tables, at, flat)
    requires 0 <= level <= 3 && SpotOf(dir, level, page) in at
    ensures WalkRights(tables, at[SpotOf(dir, level, page)], level, page) == Rights(At(flat, Key(dir, page)))
  {
    hide Layout, Leaves, Index, Span, SpotOf, At;
    LayoutTable(tables, at, SpotOf(dir, level, page));
    if level == 0 {
      LeafEntry(tables, at, flat, dir, page);
    } else {
      LinkBelow(tables, at, dir, level, page);
      if SpotOf(dir, level - 1, page) in at {
        RightsAreFlat(tables, at, flat, dir, level - 1, page);
      } else {
        MissingIsEmpty(tables, at, flat, dir, level - 1, page);
      }
    }
  }

  // Writing a leaf entry

  ghost function Put(flat: Flat, k: Key, e: Entry): Flat {
    if e.Zero? then flat - {k} else flat[k := e]
  }

  lemma {:induction false} PutAt(flat: Flat, k: Key, e: Entry, j: Key)
    ensures At(Put(flat, k, e), j) == if j == k then e else At(flat, j)
  {
  }

  ghost function Write(tables: Tables, f: int, i: int, e: Entry): Tables
    requires f in tables && 0 <= i < |tables[f]|
  {
    tables[f := tables[f][i := e]]
  }

  lemma {:induction false} WriteLeafLayout(tables: Tables, at: map<Spot, int>, s0: Spot, i0: int, e: Entry)
    requires Layout(tables, at) && s0 in at && s0.level == 0 && 0 <= i0 < RADIX
    ensures Layout(Write(tables, at[s0], i0, e), at)
  {
    hide Link, Parent, Child;
    var tables' := Write(tables, at[s0], i0, e);
    forall s, i | s in at && s.level > 0 && 0 <= i < RADIX
      ensures Link(tables'[at[s]][i], at, Child(s, i))
    {
      assert at[s] != at[s0];
      assert Link(tables[at[s]][i], at, Child(s, i));
    }
  }

  lemma {:induction false} WriteLeaf(tables: Tables, at: map<Spot, int>, flat: Flat, dir: int, page: int, e: Entry)
    requires Layout(tables, at) && Leaves(tables, at, flat) && SpotOf(dir, 0, page) in at
    ensures Layout(Write(tables, at[SpotOf(dir, 0, page)], Index(0, page), e), at)
    ensures Leaves(Write(tables, at[SpotOf(dir, 0, page)], Index(0, page), e), at, Put(flat, Key(dir, page), e))
  {
    hide Link, Parent, Child, Span, Index, At, Page;
    var s0, i0 := SpotOf(dir, 0, page), Index(0, page);
    WriteLeafLayout(tables, at, s0, i0, e);
    var tables' := Write(tables, at[s0], i0, e);
    var flat' := Put(flat, Key(dir, page), e);
    PageOf(dir, page);
    forall s, i | s in at && s.level == 0 && 0 <= i < RADIX
      ensures tables'[at[s]][i] == At(flat', Page(s, i))
    {
      assert tables[at[s]][i] == At(flat, Page(s, i));
      PutAt(flat, Key(dir, page), e, Page(s, i));
      if Page(s, i) == Key(dir, page) {
        PageUnique(s, i, dir, page);
      }
    }
  }

  lemma {:induction false} UsesPut(flat: Flat, k: Key, e: Entry, p: int)
    ensures
      |Uses(Put(flat, k, e), p)| ==
      |Uses(flat, p)| - (if k in Uses(flat, p) then 1 else 0) + (if e.Present? && e.frame == p then 1 else 0)
  {
    var new_ := Uses(Put(flat, k, e), p);
    UsesWithout(flat, k, e, p);
    assert |Uses(flat, p) - {k}| == |Uses(flat, p)| - if k in Uses(flat, p) then 1 else 0;
    assert |new_ - {k}| == |new_| - if k in new_ then 1 else 0;
  }

  lemma {:induction false} UsesWithout(flat: Flat, k: Key, e: Entry, p: int)
    ensures Uses(Put(flat, k, e), p) - {k} == Uses(flat, p) - {k}
    ensures k in Uses(Put(flat, k, e), p) <==> e.Present? && e.frame == p
  {
    if e.Present? {
      forall j | j != k ensures j in Uses(flat[k := e], p) <==> j in Uses(flat, p) {
      }
    } else {
      forall j | j != k ensures j in Uses(flat - {k}, p) <==> j in Uses(flat, p) {
      }
    }
  }

  lemma {:induction false} MappedUses(flat: Flat, p: int)
    ensures p in Mapped(flat) <==> |Uses(flat, p)| > 0
  {
    if p in Mapped(flat) {
      var k :| k in flat && flat[k].Present? && flat[k].frame == p;
      assert k in Uses(flat, p);
    }
    if |Uses(flat, p)| > 0 {
      var k :| k in Uses(flat, p);
    }
  }
}
