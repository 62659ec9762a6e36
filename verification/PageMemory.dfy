/** What each elementary write does to the page tables, their frames and the counts. */
module PageMemory {
  import opened PageTables

  // Removing a leaf entry

  /** The frames given back are those that lost their last mapping and are not held elsewhere. */
  ghost predicate Released(flat: Flat, flat': Flat, held: multiset<int>, free: set<int>, free': set<int>) {
    forall p :: p in free' <==> p in free || (p in Mapped(flat) && p !in Mapped(flat') && p !in held)
  }

  lemma {:induction false} PoolRemove(
    tables: Tables, tables': Tables, at: map<Spot, int>, flat: Flat, held: multiset<int>, refs: map<int, int>,
    free: set<int>, k: Key)
    requires Pool(tables, at, flat, held, refs, free) && k in flat && flat[k].Present? && tables'.Keys == tables.Keys
    ensures
      var p := flat[k].frame;
      var flat' := Put(flat, k, Zero);
      p in refs && refs[p] > 0 &&
      var refs' := refs[p := refs[p] - 1];
      var free' := if refs[p] == 1 then free + {p} else free;
      Pool(tables', at, flat', held, refs', free') && Released(flat, flat', held, free, free')
  {
    var p := flat[k].frame;
    var flat' := Put(flat, k, Zero);
    assert p in Mapped(flat) && k in Uses(flat, p);
    MappedUses(flat, p);
    var refs' := refs[p := refs[p] - 1];
    MappedPut(flat, k, Zero);
    forall q | q in refs' && q !in tables ensures refs'[q] == |Uses(flat', q)| + held[q] {
      UsesPut(flat, k, Zero, q);
    }
    MappedUses(flat', p);
  }

  lemma {:induction false} MappedPut(flat: Flat, k: Key, e: Entry)
    ensures Mapped(Put(flat, k, e)) <= Mapped(flat) + if e.Present? then {e.frame} else {}
    ensures Mapped(flat) <= Mapped(Put(flat, k, e)) + if At(flat, k).Present? then {At(flat, k).frame} else {}
    ensures e.Present? ==> e.frame in Mapped(Put(flat, k, e))
  {
    var flat' := Put(flat, k, e);
    forall p | p in Mapped(flat') ensures p in Mapped(flat) || (e.Present? && p == e.frame) {
      var j :| j in flat' && flat'[j].Present? && flat'[j].frame == p;
    }
    forall p | p in Mapped(flat) ensures p in Mapped(flat') || (At(flat, k).Present? && p == At(flat, k).frame) {
      var j :| j in flat && flat[j].Present? && flat[j].frame == p;
      if j != k {
        assert j in flat' && flat'[j] == flat[j];
      }
    }
    if e.Present? {
      assert k in flat' && flat'[k] == e;
    }
  }

  lemma {:induction false} PoolHold(
    tables: Tables, at: map<Spot, int>, flat: Flat, held: multiset<int>, refs: map<int, int>, free: set<int>, p: int)
    requires Pool(tables, at, flat, held, refs, free) && p in refs && p !in tables && p !in free
    ensures Pool(tables, at, flat, held + multiset{p}, refs[p := refs[p] + 1], free)
  {
    hide Uses, Mapped;
  }

  lemma {:induction false} PoolUnhold(
    tables: Tables, at: map<Spot, int>, flat: Flat, held: multiset<int>, refs: map<int, int>, free: set<int>, p: int)
    requires Pool(tables, at, flat, held, refs, free) && p in held && p in refs
    ensures Pool(tables, at, flat, held - multiset{p}, refs[p := refs[p] - 1], free)
  {
    hide Uses, Mapped;
  }

  /** Turning a held reference into a mapping where nothing was mapped. */
  lemma {:induction false} PoolAdd(
    tables: Tables, tables': Tables, at: map<Spot, int>, flat: Flat, held: multiset<int>, refs: map<int, int>,
    free: set<int>, k: Key, e: Entry)
    requires Pool(tables, at, flat, held, refs, free) && k !in flat && e.Present? && tables'.Keys == tables.Keys
    requires e.frame in held
    ensures Pool(tables', at, Put(flat, k, e), held - multiset{e.frame}, refs, free)
  {
    MappedPut(flat, k, e);
    forall q | q in refs && q !in tables
      ensures refs[q] == |Uses(Put(flat, k, e), q)| + (held - multiset{e.frame})[q]
    {
      UsesPut(flat, k, e, q);
    }
  }

  /** Changing the permissions of a mapping. */
  lemma {:induction false} PoolReplace(
    tables: Tables, tables': Tables, at: map<Spot, int>, flat: Flat, held: multiset<int>, refs: map<int, int>,
    free: set<int>, k: Key, e: Entry)
    requires Pool(tables, at, flat, held, refs, free) && tables'.Keys == tables.Keys
    requires k in flat && flat[k].Present? && e.Present? && e.frame == flat[k].frame
    ensures Pool(tables', at, Put(flat, k, e), held, refs, free)
  {
    MappedPut(flat, k, e);
    assert e.frame in Mapped(flat);
    forall q | q in refs && q !in tables ensures refs[q] == |Uses(Put(flat, k, e), q)| + held[q] {
      UsesPut(flat, k, e, q);
    }
  }

  // Adding a table

  function EmptyTable(): (t: seq<Entry>)
    ensures |t| == RADIX && forall i | 0 <= i < RADIX :: t[i] == Zero
  {
    seq(RADIX, (i: int) => Zero)
  }

  /** Entries that point to tables: user, writable, accessed and dirty. */
  const TABLE_PERM := Perm(true, true, true, true)

  ghost function Grown(tables: Tables, f: int, i: int, g: int): Tables
    requires f in tables && 0 <= i < |tables[f]|
  {
    tables[f := tables[f][i := Present(g, TABLE_PERM)]][g := EmptyTable()]
  }

  lemma {:induction false} ChildUnique(s: Spot, i: int, t: Spot, j: int)
    requires 0 <= i < RADIX && 0 <= j < RADIX && Child(s, i) == Child(t, j)
    ensures s == t && i == j
  {
  }

  lemma {:induction false} ParentOfChild(s: Spot, i: int)
    requires 0 <= i < RADIX
    ensures Parent(Child(s, i)) == s && Child(s, i) != s
  {
  }

  lemma {:induction false} GrowLayout(tables: Tables, at: map<Spot, int>, s0: Spot, i0: int, g: int)
    requires Layout(tables, at) && s0 in at && s0.level > 0 && 0 <= i0 < RADIX
    requires tables[at[s0]][i0].Zero? && g !in tables
    ensures Child(s0, i0) !in at
    ensures Layout(Grown(tables, at[s0], i0, g), at[Child(s0, i0) := g])
  {
    hide Parent;
    var c := Child(s0, i0);
    var tables' := Grown(tables, at[s0], i0, g);
    var at' := at[c := g];
    assert Link(tables[at[s0]][i0], at, c);
    ParentOfChild(s0, i0);
    forall s | s in at' && s.level < 3 ensures Parent(s) in at' {
    }
    forall s, i | s in at' && s.level > 0 && 0 <= i < RADIX
      ensures Link(tables'[at'[s]][i], at', Child(s, i))
    {
      GrowLink(tables, at, s0, i0, g, s, i);
    }
  }

  lemma {:induction false} GrowLink(tables: Tables, at: map<Spot, int>, s0: Spot, i0: int, g: int, s: Spot, i: int)
    requires Layout(tables, at) && s0 in at && s0.level > 0 && 0 <= i0 < RADIX && 0 <= i < RADIX
    requires tables[at[s0]][i0].Zero? && g !in tables && Child(s0, i0) !in at
    requires (s in at || s == Child(s0, i0)) && s.level > 0
    ensures
      Link(Grown(tables, at[s0], i0, g)[at[Child(s0, i0) := g][s]][i], at[Child(s0, i0) := g], Child(s, i))
  {
    hide Parent, Child;
    var c := Child(s0, i0);
    if s == c {
      ParentOfChild(s, i);
      if Child(s, i) in at {
        ChildLevel(s, i);
        ChildLevel(s0, i0);
        assert Parent(Child(s, i)) in at;
      }
    } else {
      assert Link(tables[at[s]][i], at, Child(s, i));
      if Child(s, i) == c {
        ChildUnique(s, i, s0, i0);
      }
    }
  }

  lemma {:induction false} ChildLevel(s: Spot, i: int)
    ensures Child(s, i).level == s.level - 1
  {
  }

  lemma {:induction false} GrowLeaves(tables: Tables, at: map<Spot, int>, flat: Flat, s0: Spot, i0: int, g: int)
    requires Layout(tables, at) && Leaves(tables, at, flat) && s0 in at && s0.level > 0 && 0 <= i0 < RADIX
    requires tables[at[s0]][i0].Zero? && g !in tables && Child(s0, i0) !in at
    requires Layout(Grown(tables, at[s0], i0, g), at[Child(s0, i0) := g])
    ensures Leaves(Grown(tables, at[s0], i0, g), at[Child(s0, i0) := g], flat)
  {
    hide Layout, Index, Span, Child, At, Page;
    var c := Child(s0, i0);
    LayoutTable(tables, at, s0);
    var tables' := Grown(tables, at[s0], i0, g);
    var at' := at[c := g];
    forall s, i | s in at' && s.level == 0 && 0 <= i < RADIX
      ensures at'[s] in tables' && |tables'[at'[s]]| == RADIX && tables'[at'[s]][i] == At(flat, Page(s, i))
    {
      LayoutTable(tables', at', s);
      if s == c {
        NewLeafEmpty(tables, at, flat, c, i);
      } else {
        LayoutTable(tables, at, s);
        LayoutDistinct(tables, at, s, s0);
        assert tables[at[s]][i] == At(flat, Page(s, i));
      }
    }
  }

  lemma {:induction false} NewLeafEmpty(tables: Tables, at: map<Spot, int>, flat: Flat, c: Spot, i: int)
    requires Layout(tables, at) && Leaves(tables, at, flat) && c !in at && c.level == 0 && 0 <= i < RADIX
    ensures At(flat, Page(c, i)) == Zero
  {
    if Page(c, i) in flat {
      PageUnique(c, i, c.dir, Page(c, i).page);
    }
  }

  lemma {:induction false} LayoutDistinct(tables: Tables, at: map<Spot, int>, s: Spot, t: Spot)
    requires Layout(tables, at) && s in at && t in at && s != t
    ensures at[s] != at[t]
  {
  }

  lemma {:induction false} PoolGrow(
    tables: Tables, at: map<Spot, int>, flat: Flat, held: multiset<int>, refs: map<int, int>, free: set<int>, s0: Spot,
    i0: int, g: int)
    requires Layout(tables, at) && Pool(tables, at, flat, held, refs, free) && s0 in at && s0.level > 0 &&
      0 <= i0 < RADIX
    requires Child(s0, i0) !in at && g in refs && g !in tables && g !in held && g !in Mapped(flat)
    ensures
      Pool(Grown(tables, at[s0], i0, g), at[Child(s0, i0) := g], flat, held, refs[g := 1], free - {g})
  {
    hide Layout, Child, Uses, Mapped;
    LayoutTable(tables, at, s0);
    var c := Child(s0, i0);
    var at' := at[c := g];
    assert at'.Values == at.Values + {g} by {
      forall f | f in at.Values ensures f in at'.Values {
        var s :| s in at && at[s] == f;
        assert at'[s] == f;
      }
      assert at'[c] == g;
    }
    ChildLevel(s0, i0);
    forall s | s in at' ensures at'[s] in refs[g := 1] && refs[g := 1][at'[s]] == if s.level < 3 then 1 else 0 {
    }
  }

  lemma {:induction false} DirectoryLayout(tables: Tables, at: map<Spot, int>, p: int)
    requires Layout(tables, at) && p !in tables
    ensures Spot(p, 3, 0) !in at
    ensures Layout(tables[p := EmptyTable()], at[Spot(p, 3, 0) := p])
  {
    hide Child, Parent;
    var d := Spot(p, 3, 0);
    var tables', at' := tables[p := EmptyTable()], at[d := p];
    assert d !in at;
    forall s, i | s in at' && s.level > 0 && 0 <= i < RADIX ensures Link(tables'[at'[s]][i], at', Child(s, i)) {
      ParentOfChild(s, i);
      ChildLevel(s, i);
      if s != d {
        assert Link(tables[at[s]][i], at, Child(s, i));
        LayoutTable(tables, at, s);
      }
    }
  }

  lemma {:induction false} AddDirectory(
    tables: Tables, at: map<Spot, int>, flat: Flat, held: multiset<int>, refs: map<int, int>, free: set<int>, p: int)
    requires Layout(tables, at) && Leaves(tables, at, flat) && Pool(tables, at, flat, held, refs, free)
    requires p in refs && p !in tables && p !in free && p !in held && p !in Mapped(flat)
    ensures Layout(tables[p := EmptyTable()], at[Spot(p, 3, 0) := p])
    ensures Leaves(tables[p := EmptyTable()], at[Spot(p, 3, 0) := p], flat)
    ensures Pool(tables[p := EmptyTable()], at[Spot(p, 3, 0) := p], flat, held, refs, free)
  {
    hide Layout, Span, Page, Uses, Mapped, At;
    DirectoryLayout(tables, at, p);
    MappedUses(flat, p);
    var d := Spot(p, 3, 0);
    var tables', at' := tables[p := EmptyTable()], at[d := p];
    forall s, i | s in at' && s.level == 0 && 0 <= i < RADIX
      ensures at'[s] in tables' && |tables'[at'[s]]| == RADIX && tables'[at'[s]][i] == At(flat, Page(s, i))
    {
      LayoutTable(tables', at', s);
      LayoutTable(tables, at, s);
    }
    assert at'.Values == at.Values + {p} by {
      forall f | f in at.Values ensures f in at'.Values {
        var s :| s in at && at[s] == f;
        assert at'[s] == f;
      }
      assert at'[d] == p;
    }
  }
}
