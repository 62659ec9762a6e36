/** The slab allocator itself: growing caches, allocating and freeing objects, kmalloc and kfree. */
module Slab {
  import opened Common
  import opened SlabLayout
  import opened SlabState
  import opened SlabSteps

  /** The loop of kmem_cache_grow over the pages of a new slab. */
  method TagPages(tags: map<int, Tag>, b: int, n: nat, t: Tag)
    returns (r: map<int, Tag>)
    ensures r == tags + map p | p in Pages(b, n) :: t
  {
    r := tags;
    for i := 0 to n
      invariant r == tags + map p | p in Pages(b, i) :: t
    {
      r := r[b + i := t];
    }
  }

  /** The loop of kmem_cache_grow over the free chain, and its last entry. */
  method Thread(num: int)
    returns (bufctl: seq<int>)
    requires num > 0
    ensures bufctl == Threaded(num)
  {
    var a := new int[num];
    for i := 0 to num
      invariant forall j | 0 <= j < i :: a[j] == j + 1
    {
      a[i] := i + 1;
    }
    a[num - 1] := BUFCTL_END;
    bufctl := a[..];
  }

  /** What a page allocator answers to its n-th request, given the free pages and the order. */
  type Picker = (nat, set<int>, nat) -> Option<int>

  ghost predicate Honest(pick: Picker) {
    forall n, free, order :: pick(n, free, order).Some? ==> Run(pick(n, free, order).value, order) <= free
  }

  /** No object of cache c is to be had: no slab has room, and there is no new one. */
  ghost predicate Stuck(cs: seq<Cache>, pick: Picker, n: nat, notfull: seq<seq<int>>, free: set<int>, c: int)
    requires 0 <= c < |cs| == |notfull|
    decreases c, 1
  {
    notfull[c] == [] && Refused(cs, pick, n, notfull, free, c)
  }

  /** The page allocator refuses the pages of the slab, or no object for its descriptor is to be had. */
  ghost predicate Refused(cs: seq<Cache>, pick: Picker, n: nat, notfull: seq<seq<int>>, free: set<int>, c: int)
    requires 0 <= c < |cs| == |notfull|
    decreases c, 0
  {
    match pick(n, free, cs[c].order)
    case None => true
    case Some(b) =>
      cs[c].offSlab && 0 <= cs[c].home < c &&
      Stuck(cs, pick, n + 1, notfull, free - Run(b, cs[c].order), cs[c].home)
  }

  /** So nothing fails unless the page allocator refuses. */
  lemma {:induction false} StuckByRefusal(
    cs: seq<Cache>, pick: Picker, n: nat, notfull: seq<seq<int>>, free: set<int>, c: int)
    requires 0 <= c < |cs| == |notfull| && Stuck(cs, pick, n, notfull, free, c)
    ensures exists n', free', order :: n' >= n && free' <= free && pick(n', free', order) == None
    decreases c
  {
    var answer := pick(n, free, cs[c].order);
    if answer.Some? {
      StuckByRefusal(cs, pick, n + 1, notfull, free - Run(answer.value, cs[c].order), cs[c].home);
    }
  }

  class Allocator {
    const cs: seq<Cache>
    /** The page allocator, and how often it was asked. */
    const pick: Picker
    var asked: nat
    var slabs: map<int, Slab>
    var full: seq<seq<int>>
    var notfull: seq<seq<int>>
    var tags: map<int, Tag>
    /** The pages that alloc_pages can still hand out. */
    var free: set<int>
    ghost var chains: map<int, seq<int>>
    ghost var reserved: set<int>
    ghost var users: set<Obj>
    ghost var desc: map<int, Obj>

    ghost function W(): World
      reads this
    {
      World(slabs, full, notfull, tags, free, chains, reserved, users, desc)
    }

    ghost predicate Valid()
      reads this
    {
      Inv(cs, W()) && Honest(pick)
    }

    constructor (caches: seq<Cache>, pages: set<int>, pick: Picker)
      requires Configured(caches) && Honest(pick)
      ensures Valid() && cs == caches && this.pick == pick && asked == 0
      ensures free == pages && users == {} && reserved == {} && slabs == map[]
      ensures AllPages(W()) == pages && Idle(W()) == {}
    {
      cs := caches;
      this.pick, asked := pick, 0;
      slabs, tags, free := map[], map[], pages;
      full, notfull := seq(|caches|, i => []), seq(|caches|, i => []);
      chains, reserved, users, desc := map[], {}, {}, map[];
    }

    /** alloc_pages: what the page allocator answers. */
    method AllocPages(order: nat)
      returns (r: Option<int>)
      requires Valid()
      modifies this`free, this`reserved, this`asked
      ensures Valid() && AllPages(W()) == AllPages(old(W())) && Idle(W()) == Idle(old(W()))
      ensures r == pick(old(asked), old(free), order) && asked == old(asked) + 1
      ensures r.None? ==> free == old(free) && reserved == old(reserved)
      ensures r.Some? ==>
        Run(r.value, order) <= old(free) && free == old(free) - Run(r.value, order) &&
        reserved == old(reserved) + Run(r.value, order)
    {
      hide Run, Inv;
      ListLengths(cs, W());
      r := pick(asked, free, order);
      asked := asked + 1;
      if r.Some? {
        ghost var w := W();
        free := free - Run(r.value, order);
        reserved := reserved + Run(r.value, order);
        PoolInv(cs, w, free, reserved);
      }
    }

    /** free_pages on a run that was set aside. */
    method FreePages(b: int, order: nat)
      requires Valid() && Run(b, order) <= reserved
      modifies this`free, this`reserved
      ensures Valid() && AllPages(W()) == AllPages(old(W())) && Idle(W()) == Idle(old(W()))
      ensures reserved == old(reserved) - Run(b, order) && free == old(free) + Run(b, order)
    {
      hide Run, Inv;
      ListLengths(cs, W());
      ghost var w := W();
      free := free + Run(b, order);
      reserved := reserved - Run(b, order);
      PoolInv(cs, w, free, reserved);
    }

    /** __kmem_cache_alloc_one */
    method AllocOne(c: int, b: int)
      returns (addr: int, ghost o: Obj)
      requires Valid() && 0 <= c < |cs| && b in notfull[c]
      modifies this`slabs, this`full, this`notfull, this`chains, this`users
      ensures Valid() && o !in old(users) && users == old(users) + {o}
      ensures o.slab == b && b in slabs && slabs[b].cache == c && addr == Address(cs[c], o)
      ensures AllPages(W()) == AllPages(old(W())) && Idle(W()) == Idle(old(W())) - {b}
    {
      hide Inv, Remove, Address, AllPages, Idle;
      NotFullCanTake(cs, W(), c, b);
      TakenTotals(cs, W(), b);
      TakenInv(cs, W(), b);
      var s := slabs[b];
      o := Obj(b, s.free);
      addr := Address(cs[c], Obj(b, s.free));
      s := s.(inuse := s.inuse + 1, free := s.bufctl[s.free]);
      slabs := slabs[b := s];
      if s.free == BUFCTL_END {
        notfull := notfull[c := Remove(notfull[c], b)];
        full := full[c := [b] + full[c]];
      }
      chains := chains[b := chains[b][1..]];
      users := users + {o};
    }

    /** kmem_cache_alloc: a caller's object of cache c, or nothing. */
    method CacheAlloc(c: int)
      returns (r: Option<int>, ghost o: Obj)
      requires Valid() && 0 <= c < |cs|
      modifies this
      decreases c, 1
      ensures Valid() && reserved == old(reserved)
      ensures AllPages(W()) == AllPages(old(W())) && (Idle(old(W())) == {} ==> Idle(W()) == {})
      ensures |old(notfull)| == |cs| && (r.None? <==> Stuck(cs, pick, old(asked), old(notfull), old(free), c))
      ensures r.None? ==> W() == old(W())
      ensures r.Some? ==>
        o !in old(users) && users == old(users) + {o} && o.slab in slabs && slabs[o.slab].cache == c &&
        r.value == Address(cs[c], o)
      ensures old(notfull)[c] != [] ==> o.slab == old(notfull)[c][0] && free == old(free) && asked == old(asked)
    {
      hide Inv, Address, AllPages, Idle;
      ListLengths(cs, W());
      if notfull[c] == [] {
        var ok := Grow(c);
        if !ok {
          return None, Obj(0, 0);
        }
        ListLengths(cs, W());
      }
      var addr;
      addr, o := AllocOne(c, notfull[c][0]);
      r := Some(addr);
    }

    /** kmem_cache_grow: a new slab for cache c, its descriptor in place or in an object of the
        home cache. */
    method Grow(c: int)
      returns (ok: bool)
      requires Valid() && 0 <= c < |cs|
      modifies this
      decreases c, 0
      ensures Valid() && reserved == old(reserved) && users == old(users)
      ensures |old(notfull)| == |cs| && (ok <==> !Refused(cs, pick, old(asked), old(notfull), old(free), c))
      ensures !ok ==> W() == old(W())
      ensures ok ==> |notfull| == |cs| && notfull[c] != []
      ensures AllPages(W()) == AllPages(old(W()))
      ensures Idle(old(W())) == {} ==> Idle(W()) == if ok then {notfull[c][0]} else {}
    {
      hide Inv, Address, Run, LaidOut, Idle, AllPages;
      ListLengths(cs, W());
      var page := AllocPages(cs[c].order);
      if page.None? {
        return false;
      }
      var b := page.value;
      HomeOf(cs, W(), c);
      var mgmt := b * PGSIZE;
      ghost var o := Obj(0, 0);
      if cs[c].offSlab {
        var addr;
        addr, o := CacheAlloc(cs[c].home);
        if addr.None? {
          FreePages(b, cs[c].order);
          assert free == old(free) && reserved == old(reserved);
          return false;
        }
        mgmt := addr.value;
      }
      ListLengths(cs, W());
      AddedTotals(cs, W(), c, b, o);
      AddSlab(c, b, mgmt, o);
      return true;
    }

    /** The rest of kmem_cache_grow, once pages and descriptor are there. */
    method AddSlab(c: int, b: int, mgmt: int, ghost o: Obj)
      requires Valid() && CanAdd(cs, W(), c, b, o)
      requires mgmt == if cs[c].offSlab then Address(cs[cs[c].home], o) else b * PGSIZE
      modifies this
      ensures Valid() && W() == Added(cs, old(W()), c, b, o)
    {
      hide Inv, Address, LaidOut;
      AddedInv(cs, W(), c, b, o);
      tags := TagPages(tags, b, Pow2(cs[c].order), Tag(c, b));
      var bufctl := Thread(cs[c].num);
      slabs := slabs[b := Slab(c, mgmt, 0, 0, bufctl)];
      notfull := notfull[c := [b] + notfull[c]];
      chains := chains[b := UpTo(cs[c].num)];
      reserved := reserved - Run(b, cs[c].order);
      if cs[c].offSlab {
        users, desc := users - {o}, desc[b := o];
      }
    }

    /** kmem_cache_free and __kmem_cache_free_one on the caller's object o of cache c. */
    method CacheFree(c: int, addr: int, ghost o: Obj)
      requires Valid() && 0 <= c < |cs| && o in users && o.slab in slabs && slabs[o.slab].cache == c
      requires addr == Address(cs[c], o)
      modifies this
      decreases c
      ensures Valid() && reserved == old(reserved) && users == old(users) - {o}
      ensures AllPages(W()) == AllPages(old(W())) && Idle(W()) == Idle(old(W()))
    {
      hide Inv, Address, Run, Remove, AllPages, Idle;
      ObjectFound(cs, W(), c, o);
      var b := tags[addr / PGSIZE].slab;
      var i := (addr - (b * PGSIZE + cs[c].offset)) / cs[c].objsize;
      var s := slabs[b];
      if s.inuse == 1 {
        HasDesc(cs, W(), b);
        DroppedTotals(cs, W(), b, i);
        Drop(c, b, i);
        if cs[c].offSlab {
          DroppedDesc(cs, old(W()), c, b, i);
          CacheFree(cs[c].home, s.mgmt, old(desc)[b]);
        }
      } else {
        GivenInv(cs, W(), b, i);
        GivenTotals(cs, W(), b, i);
        s := s.(bufctl := s.bufctl[i := s.free], free := i, inuse := s.inuse - 1);
        slabs := slabs[b := s];
        if s.inuse == cs[c].num - 1 {
          full := full[c := Remove(full[c], b)];
          notfull := notfull[c := [b] + notfull[c]];
        }
        chains := chains[b := [i] + chains[b]];
        users := users - {o};
      }
    }

    /** The case of __kmem_cache_free_one that empties the slab: it is taken off its list, its
        pages go back and, when off-slab, its descriptor is left for the caller to free. */
    method Drop(c: int, b: int, ghost i: int)
      requires Valid() && CanGive(cs, W(), b, i) && Obj(b, i) in users && slabs[b].cache == c && slabs[b].inuse == 1
      modifies this
      ensures Valid() && W() == Dropped(cs, old(W()), b, i)
    {
      hide Inv, Address, Remove;
      DroppedInv(cs, W(), b, i);
      full := full[c := Remove(full[c], b)];
      notfull := notfull[c := Remove(notfull[c], b)];
      tags := tags - Run(b, cs[c].order);
      free := free + Run(b, cs[c].order);
      slabs := slabs - {b};
      chains := chains - {b};
      users := users - {Obj(b, i)} + if b in desc then {desc[b]} else {};
      desc := desc - {b};
    }

    /** kmalloc: the object comes from the smallest cache whose objects are large enough. */
    method Kmalloc(size: int)
      returns (r: Outcome, ghost o: Obj)
      requires Valid() && size > 0 && |cs| == MAX_SIZE_ORDER - MIN_SIZE_ORDER + 1
      modifies this
      ensures Valid() && reserved == old(reserved)
      ensures AllPages(W()) == AllPages(old(W())) && (Idle(old(W())) == {} ==> Idle(W()) == {})
      ensures r.Panic? <==> size > Pow2(MAX_SIZE_ORDER)
      ensures |old(notfull)| == |cs|
      ensures r.Null? <==>
        exists c :: 0 <= c < |cs| && SmallestFor(cs, c, size) && Stuck(cs, pick, old(asked), old(notfull), old(free), c)
      ensures !r.Object? ==> W() == old(W())
      ensures r.Object? ==> o !in old(users) && users == old(users) + {o} && HandedOut(cs, W(), r.addr, o, size)
    {
      hide Inv, Address, Pow2, AllPages, Idle;
      ListLengths(cs, W());
      BestCaches(cs, W(), size);
      var order := GetOrder(size);
      if order.None? {
        return Panic, Obj(0, 0);
      }
      var addr;
      assert SmallestFor(cs, order.value - MIN_SIZE_ORDER, size);
      addr, o := CacheAlloc(order.value - MIN_SIZE_ORDER);
      if addr.None? {
        return Null, o;
      }
      ObjectSize(cs, W(), o, size, order.value);
      return Object(addr.value), o;
    }

    /** kfree of NULL or of an object in a caller's hands. */
    method Kfree(addr: int, ghost o: Obj)
      requires Valid() && (addr != 0 ==> o in users && At(cs, W(), addr, o))
      modifies this
      ensures Valid() && reserved == old(reserved)
      ensures AllPages(W()) == AllPages(old(W())) && Idle(W()) == Idle(old(W()))
      ensures users == if addr == 0 then old(users) else old(users) - {o}
    {
      hide Inv, Address, AllPages, Idle;
      if addr == 0 {
        return;
      }
      CacheFound(cs, W(), o);
      CacheFree(tags[addr / PGSIZE].cache, addr, o);
    }
  }

  datatype Outcome = Panic | Null | Object(addr: int)

  /** The object o is at this address. */
  ghost predicate At(cs: seq<Cache>, w: World, addr: int, o: Obj) {
    o.slab in w.slabs && 0 <= w.slabs[o.slab].cache < |cs| && addr == Address(cs[w.slabs[o.slab].cache], o)
  }

  /** The object is large enough, and no smaller cache would do. */
  ghost predicate HandedOut(cs: seq<Cache>, w: World, addr: int, o: Obj, size: int) {
    At(cs, w, addr, o) &&
    var c := w.slabs[o.slab].cache;
    SmallestFor(cs, c, size)
  }

  /** The objects of cache c are large enough, and those of no smaller one are. */
  ghost predicate SmallestFor(cs: seq<Cache>, c: int, size: int)
    requires 0 <= c < |cs|
  {
    size <= cs[c].objsize && (c > 0 ==> cs[c - 1].objsize < size)
  }

  /** The cache that kmalloc chooses is the only such one; beyond the largest size there is none. */
  lemma {:induction false} BestCaches(cs: seq<Cache>, w: World, size: int)
    requires Inv(cs, w)
    ensures forall c {:trigger SmallestFor(cs, c, size)} | 0 <= c < |cs| ::
      SmallestFor(cs, c, size) <==>
      size <= Pow2(c + MIN_SIZE_ORDER) && (c > 0 ==> Pow2(c + MIN_SIZE_ORDER - 1) < size)
    ensures forall c, d | 0 <= c < |cs| && 0 <= d < |cs| ::
      SmallestFor(cs, c, size) && SmallestFor(cs, d, size) ==> c == d
    ensures forall c | 0 <= c < |cs| && SmallestFor(cs, c, size) :: size <= Pow2(|cs| - 1 + MIN_SIZE_ORDER)
  {
    hide SlabsOk, AllLists, PagesOk, ObjsOk, LaidOut, Pow2;
    forall c | 0 <= c < |cs| ensures cs[c].objsize == Pow2(c + MIN_SIZE_ORDER) {
      assert Homed(cs, c);
    }
    forall c, d | 0 <= c < |cs| && 0 <= d < |cs| && SmallestFor(cs, c, size) && SmallestFor(cs, d, size)
      ensures c == d
    {
      if c < d {
        Pow2Grows(c + MIN_SIZE_ORDER, d - 1 + MIN_SIZE_ORDER);
      } else if d < c {
        Pow2Grows(d + MIN_SIZE_ORDER, c - 1 + MIN_SIZE_ORDER);
      }
    }
    forall c | 0 <= c < |cs| && SmallestFor(cs, c, size) ensures size <= Pow2(|cs| - 1 + MIN_SIZE_ORDER) {
      Pow2Grows(c + MIN_SIZE_ORDER, |cs| - 1 + MIN_SIZE_ORDER);
    }
  }

  lemma {:induction false} ObjectSize(cs: seq<Cache>, w: World, o: Obj, size: int, order: int)
    requires Inv(cs, w) && MIN_SIZE_ORDER <= order && order - MIN_SIZE_ORDER < |cs|
    requires o.slab in w.slabs && w.slabs[o.slab].cache == order - MIN_SIZE_ORDER
    requires size <= Pow2(order) && (order > MIN_SIZE_ORDER ==> Pow2(order - 1) < size)
    ensures HandedOut(cs, w, Address(cs[order - MIN_SIZE_ORDER], o), o, size)
  {
    hide SlabsOk, AllLists, PagesOk, ObjsOk, LaidOut, Address, Pow2;
    var c := order - MIN_SIZE_ORDER;
    assert Homed(cs, c);
    if c > 0 {
      assert Homed(cs, c - 1);
    }
  }

  lemma {:induction false} CacheFound(cs: seq<Cache>, w: World, o: Obj)
    requires Inv(cs, w) && o in w.users && o.slab in w.slabs && 0 <= w.slabs[o.slab].cache < |cs|
    ensures
      var c := w.slabs[o.slab].cache;
      var p := Address(cs[c], o) / PGSIZE;
      p in w.tags && w.tags[p].cache == c
  {
    hide Address, Run, AllLists, PagesOk, ObjsOk, SlabOk;
    UserCanGive(cs, w, o);
    var c := w.slabs[o.slab].cache;
    assert Homed(cs, c);
    AddressSplits(cs[c], o);
    OwnTag(cs, w, o.slab, Address(cs[c], o) / PGSIZE);
  }

  /** What callers hold: pairwise disjoint, aligned, inside the pages of their slabs, clear of every
      slab descriptor, whether that lies on its slab or in another cache. */
  lemma {:induction false} CallersObjects(cs: seq<Cache>, w: World, o: Obj, o': Obj, b: int)
    requires Inv(cs, w) && o in w.users && o' in w.users && b in w.slabs
    ensures Slot(cs, w, o) && Slot(cs, w, o') && Place(cs, w, o) % ALIGN == 0
    ensures o.slab * PGSIZE <= Place(cs, w, o)
    ensures Place(cs, w, o) + SizeOf(cs, w, o) <= o.slab * PGSIZE + SlabSize(cs[w.slabs[o.slab].cache].order)
    ensures o != o' ==> Apart(Place(cs, w, o), SizeOf(cs, w, o), Place(cs, w, o'), SizeOf(cs, w, o'))
    ensures Apart(Place(cs, w, o), SizeOf(cs, w, o), w.slabs[b].mgmt, DESC + cs[w.slabs[b].cache].num * CTL)
  {
    hide Address, Run, AllLists, PagesOk, SlabOk, LaidOut;
    UserCanGive(cs, w, o);
    UserCanGive(cs, w, o');
    var c, d := w.slabs[o.slab].cache, w.slabs[b].cache;
    assert Homed(cs, c) && Homed(cs, d) && DescOk(cs, w, b);
    ObjectInside(cs[c], o);
    if o != o' {
      SlotsDisjoint(cs, w, o, o');
    }
    if cs[d].offSlab {
      assert w.desc[b] in Owned(w.desc);
      assert Live(cs, w, w.desc[b]);
      SlotsDisjoint(cs, w, o, w.desc[b]);
    } else if o.slab != b {
      RunsApart(cs, w, o.slab, b);
      DescriptorInside(cs[d]);
    }
  }

  lemma {:induction false} DescriptorInside(c: Cache)
    requires LaidOut(c, ALIGN) && !c.offSlab
    ensures DESC + c.num * CTL <= SlabSize(c.order)
  {
    MulLe(0, c.num, c.objsize);
  }

  /** The page tags and the division lead back to the object. */
  lemma {:induction false} ObjectFound(cs: seq<Cache>, w: World, c: int, o: Obj)
    requires Inv(cs, w) && 0 <= c < |cs| && o in w.users && o.slab in w.slabs && w.slabs[o.slab].cache == c
    ensures CanGive(cs, w, o.slab, o.index) && w.slabs[o.slab].inuse > 0
    ensures Address(cs[c], o) / PGSIZE in w.tags && w.tags[Address(cs[c], o) / PGSIZE].slab == o.slab
    ensures cs[c].objsize > 0
    ensures (Address(cs[c], o) - (o.slab * PGSIZE + cs[c].offset)) / cs[c].objsize == o.index
  {
    hide Address, Run, AllLists, PagesOk, ObjsOk, SlabOk;
    UserCanGive(cs, w, o);
    assert Homed(cs, c);
    AddressSplits(cs[c], o);
    OwnTag(cs, w, o.slab, Address(cs[c], o) / PGSIZE);
  }

  lemma {:induction false} HasDesc(cs: seq<Cache>, w: World, b: int)
    requires Inv(cs, w) && b in w.slabs
    ensures 0 <= w.slabs[b].cache < |cs| && (b in w.desc <==> cs[w.slabs[b].cache].offSlab)
  {
    hide AllLists, PagesOk, SlabOk, Live, Address;
    assert DescOk(cs, w, b);
  }

  /** The descriptor of a slab that went is an object of a smaller cache. */
  lemma {:induction false} DroppedDesc(cs: seq<Cache>, w: World, c: int, b: int, i: int)
    requires Inv(cs, w) && CanGive(cs, w, b, i) && Obj(b, i) in w.users && w.slabs[b].cache == c && cs[c].offSlab
    ensures b in w.desc && 0 <= cs[c].home < c
    ensures
      var o, w' := w.desc[b], Dropped(cs, w, b, i);
      o !in w.users && o in w'.users && o.slab in w'.slabs && w'.slabs[o.slab].cache == cs[c].home &&
      w.slabs[b].mgmt == Address(cs[cs[c].home], o)
  {
    hide Address, Run, AllLists, PagesOk, SlabOk;
    assert DescOk(cs, w, b) && Homed(cs, c);
  }

  lemma {:induction false} ListLengths(cs: seq<Cache>, w: World)
    requires Inv(cs, w)
    ensures |w.full| == |w.notfull| == |cs| && w.free !! w.reserved
  {
  }

  lemma {:induction false} HomeOf(cs: seq<Cache>, w: World, c: int)
    requires Inv(cs, w) && 0 <= c < |cs|
    ensures LaidOut(cs[c], ALIGN) && cs[c].num > 0
    ensures cs[c].offSlab ==> 0 <= cs[c].home < c
  {
    assert Homed(cs, c);
  }
}
