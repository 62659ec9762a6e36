/** The invariant of the whole slab allocator and the steps that keep it. */
module SlabSteps {
  import opened Common
  import opened SlabLayout
  import opened SlabState

  /** Everything the allocator knows.  The last four components are for the proof only: the free
      chains, pages taken for a slab under construction, and who owns the objects in use, a
      caller or (as its descriptor) an off-slab slab. */
  datatype World = World(
    slabs: map<int, Slab>,
    full: seq<seq<int>>,
    notfull: seq<seq<int>>,
    tags: map<int, Tag>,
    free: set<int>,
    chains: map<int, seq<int>>,
    reserved: set<int>,
    users: set<Obj>,
    desc: map<int, Obj>)

  function Pages(b: int, n: nat): (r: set<int>)
    ensures forall p :: p in r <==> b <= p < b + n
  {
    if n == 0 then {} else Pages(b, n - 1) + {b + n - 1}
  }

  /** The pages of a slab. */
  function Run(b: int, order: nat): set<int> {
    Pages(b, Pow2(order))
  }

  ghost predicate Configured(cs: seq<Cache>) {
    forall i | 0 <= i < |cs| :: Homed(cs, i)
  }

  ghost predicate SlabsOk(cs: seq<Cache>, w: World) {
    w.slabs.Keys == w.chains.Keys &&
    forall b | b in w.slabs :: 0 <= w.slabs[b].cache < |cs| && SlabOk(cs[w.slabs[b].cache].num, w.slabs[b], w.chains[b])
  }

  ghost predicate AllLists(cs: seq<Cache>, w: World) {
    |w.full| == |w.notfull| == |cs| &&
    forall c | 0 <= c < |cs| :: ListsOk(c, cs[c].num, w.slabs, w.full[c], w.notfull[c])
  }

  ghost predicate PagesOk(cs: seq<Cache>, w: World)
    requires SlabsOk(cs, w)
  {
    w.free !! w.reserved &&
    (forall b, p | b in w.slabs && p in Run(b, cs[w.slabs[b].cache].order) ::
      p in w.tags && w.tags[p] == Tag(w.slabs[b].cache, b) && p !in w.free && p !in w.reserved) &&
    (forall p | p in w.tags ::
      w.tags[p].slab in w.slabs && p in Run(w.tags[p].slab, cs[w.slabs[w.tags[p].slab].cache].order))
  }

  /** All pages the allocator ever had a hold of. */
  ghost function AllPages(w: World): set<int> {
    w.tags.Keys + w.free + w.reserved
  }

  /** Slabs of which nothing is in use. */
  ghost function Idle(w: World): set<int> {
    set b | b in w.slabs && w.slabs[b].inuse == 0
  }

  ghost predicate Slot(cs: seq<Cache>, w: World, o: Obj)
    requires SlabsOk(cs, w)
  {
    o.slab in w.slabs && 0 <= o.index < cs[w.slabs[o.slab].cache].num
  }

  ghost predicate Live(cs: seq<Cache>, w: World, o: Obj)
    requires SlabsOk(cs, w)
  {
    Slot(cs, w, o) && o.index !in w.chains[o.slab]
  }

  function Address(c: Cache, o: Obj): int {
    o.slab * PGSIZE + c.offset + o.index * c.objsize
  }

  ghost function Owned(desc: map<int, Obj>): set<Obj> {
    set b | b in desc :: desc[b]
  }

  /** The objects in use are those of the callers and the descriptors of off-slab slabs. */
  ghost predicate ObjsOk(cs: seq<Cache>, w: World)
    requires SlabsOk(cs, w) && Configured(cs)
  {
    (forall o :: Live(cs, w, o) <==> o in w.users || o in Owned(w.desc)) &&
    (forall b | b in w.desc :: b in w.slabs && w.desc[b] !in w.users) &&
    (forall b, d | b in w.desc && d in w.desc && w.desc[b] == w.desc[d] :: b == d) &&
    (forall b | b in w.slabs :: DescOk(cs, w, b))
  }

  ghost predicate DescOk(cs: seq<Cache>, w: World, b: int)
    requires SlabsOk(cs, w) && Configured(cs) && b in w.slabs
  {
    var s := w.slabs[b];
    var c := cs[s.cache];
    assert Homed(cs, s.cache);
    (b in w.desc <==> c.offSlab) &&
    (!c.offSlab ==> s.mgmt == b * PGSIZE) &&
    (c.offSlab ==>
      var o := w.desc[b];
      o.slab in w.slabs && w.slabs[o.slab].cache == c.home && s.mgmt == Address(cs[c.home], o))
  }

  ghost predicate Inv(cs: seq<Cache>, w: World) {
    Configured(cs) && SlabsOk(cs, w) && AllLists(cs, w) && PagesOk(cs, w) && ObjsOk(cs, w)
  }

  // Allocating an object of slab b

  ghost predicate CanTake(cs: seq<Cache>, w: World, b: int) {
    b in w.slabs && 0 <= w.slabs[b].cache < |cs| && |w.full| == |w.notfull| == |cs| && b in w.chains &&
    0 <= w.slabs[b].free < |w.slabs[b].bufctl| && |w.chains[b]| > 0
  }

  ghost function Taken(cs: seq<Cache>, w: World, b: int): World
    requires CanTake(cs, w, b)
  {
    var s := w.slabs[b];
    var c := s.cache;
    var s' := s.(inuse := s.inuse + 1, free := s.bufctl[s.free]);
    var w' := w.(
      slabs := w.slabs[b := s'], chains := w.chains[b := w.chains[b][1..]], users := w.users + {Obj(b, s.free)});
    if s'.free == BUFCTL_END then
      w'.(full := w.full[c := [b] + w.full[c]], notfull := w.notfull[c := Remove(w.notfull[c], b)])
    else w'
  }

  lemma {:induction false} NotFullCanTake(cs: seq<Cache>, w: World, c: int, b: int)
    requires Inv(cs, w) && 0 <= c < |cs| && b in w.notfull[c]
    ensures CanTake(cs, w, b) && w.slabs[b].cache == c
  {
    hide PagesOk, ObjsOk, Configured;
    assert ListsOk(c, cs[c].num, w.slabs, w.full[c], w.notfull[c]);
    ChainEnds(cs[c].num, w.slabs[b], w.chains[b]);
  }

  lemma {:induction false} TakenSlabs(cs: seq<Cache>, w: World, b: int)
    requires SlabsOk(cs, w) && CanTake(cs, w, b)
    ensures SlabsOk(cs, Taken(cs, w, b))
  {
    var w', s := Taken(cs, w, b), w.slabs[b];
    ChainPop(cs[s.cache].num, s, w.chains[b]);
  }

  /** Page tags depend only on which slabs there are. */
  lemma {:induction false} PagesSame(cs: seq<Cache>, w: World, w': World)
    requires SlabsOk(cs, w) && PagesOk(cs, w) && SlabsOk(cs, w')
    requires w'.slabs.Keys == w.slabs.Keys && forall b | b in w.slabs :: w'.slabs[b].cache == w.slabs[b].cache
    requires w'.tags == w.tags && w'.free == w.free && w'.reserved == w.reserved
    ensures PagesOk(cs, w')
  {
    hide Run, SlabOk;
  }

  lemma {:induction false} TakenLists(cs: seq<Cache>, w: World, b: int)
    requires SlabsOk(cs, w) && AllLists(cs, w) && CanTake(cs, w, b)
    ensures AllLists(cs, Taken(cs, w, b))
  {
    hide SlabOk, ListsOk, Remove;
    var w', s := Taken(cs, w, b), w.slabs[b];
    var c := s.cache;
    InUseBounds(cs[c].num, s, w.chains[b]);
    forall d | 0 <= d < |cs| ensures ListsOk(d, cs[d].num, w'.slabs, w'.full[d], w'.notfull[d]) {
      assert ListsOk(d, cs[d].num, w.slabs, w.full[d], w.notfull[d]);
      if d != c {
        ListsOther(d, cs[d].num, w.slabs, w'.slabs, w.full[d], w.notfull[d], b);
      } else if w'.slabs[b].free == BUFCTL_END {
        ListsToFull(d, cs[d].num, w.slabs, w.full[d], w.notfull[d], b, w'.slabs[b]);
      } else {
        ListsStay(d, cs[d].num, w.slabs, w.full[d], w.notfull[d], b, w'.slabs[b]);
      }
    }
  }

  /** Taking the last free object is noticed by reaching the end of the chain. */
  lemma {:induction false} InUseBounds(num: int, s: Slab, ch: seq<int>)
    requires SlabOk(num, s, ch) && ch != []
    ensures s.inuse < num && 0 <= s.free < num && (s.bufctl[s.free] == BUFCTL_END <==> s.inuse + 1 == num)
  {
    ChainPop(num, s, ch);
    ChainEnds(num, s.(inuse := s.inuse + 1, free := s.bufctl[s.free]), ch[1..]);
  }

  lemma {:induction false} TakenLive(cs: seq<Cache>, w: World, b: int, o: Obj)
    requires SlabsOk(cs, w) && CanTake(cs, w, b) && SlabsOk(cs, Taken(cs, w, b))
    ensures Live(cs, Taken(cs, w, b), o) <==> Live(cs, w, o) || o == Obj(b, w.slabs[b].free)
    ensures !Live(cs, w, Obj(b, w.slabs[b].free))
  {
    ChainPop(cs[w.slabs[b].cache].num, w.slabs[b], w.chains[b]);
  }

  /** Descriptors depend on the slabs' caches, descriptor addresses and owners only. */
  lemma {:induction false} DescSame(cs: seq<Cache>, w: World, w': World, b: int)
    requires Configured(cs) && SlabsOk(cs, w) && SlabsOk(cs, w') && b in w.slabs && b in w'.slabs && DescOk(cs, w, b)
    requires w'.slabs[b].cache == w.slabs[b].cache && w'.slabs[b].mgmt == w.slabs[b].mgmt
    requires b in w.desc <==> b in w'.desc
    requires b in w.desc ==>
      w'.desc[b] == w.desc[b] && w.desc[b].slab in w'.slabs && w.desc[b].slab in w.slabs &&
      w'.slabs[w.desc[b].slab].cache == w.slabs[w.desc[b].slab].cache
    ensures DescOk(cs, w', b)
  {
  }

  lemma {:induction false} TakenObjs(cs: seq<Cache>, w: World, b: int)
    requires Configured(cs) && SlabsOk(cs, w) && ObjsOk(cs, w) && CanTake(cs, w, b) && SlabsOk(cs, Taken(cs, w, b))
    ensures ObjsOk(cs, Taken(cs, w, b))
    ensures Obj(b, w.slabs[b].free) !in w.users
  {
    hide Configured, SlabsOk, Live, DescOk;
    var w' := Taken(cs, w, b);
    var o := Obj(b, w.slabs[b].free);
    forall x ensures Live(cs, w', x) <==> x in w'.users || x in Owned(w'.desc) {
      TakenLive(cs, w, b, x);
    }
    TakenLive(cs, w, b, o);
    forall d | d in w'.slabs ensures DescOk(cs, w', d) {
      DescOwner(cs, w, d);
      DescSame(cs, w, w', d);
    }
  }

  lemma {:induction false} DescOwner(cs: seq<Cache>, w: World, b: int)
    requires Configured(cs) && SlabsOk(cs, w) && b in w.slabs && DescOk(cs, w, b)
    ensures b in w.desc ==> w.desc[b].slab in w.slabs
  {
  }

  lemma {:induction false} TakenKeys(cs: seq<Cache>, w: World, b: int)
    requires CanTake(cs, w, b)
    ensures
      var w' := Taken(cs, w, b);
      w'.slabs.Keys == w.slabs.Keys && (forall d | d in w.slabs :: w'.slabs[d].cache == w.slabs[d].cache) &&
      w'.tags == w.tags && w'.free == w.free && w'.reserved == w.reserved
  {
  }

  lemma {:induction false} TakenInv(cs: seq<Cache>, w: World, b: int)
    requires Inv(cs, w) && CanTake(cs, w, b)
    ensures Inv(cs, Taken(cs, w, b)) && Obj(b, w.slabs[b].free) !in w.users
  {
    hide Configured, SlabsOk, AllLists, PagesOk, ObjsOk, Taken;
    TakenSlabs(cs, w, b);
    TakenLists(cs, w, b);
    TakenObjs(cs, w, b);
    TakenKeys(cs, w, b);
    PagesSame(cs, w, Taken(cs, w, b));
  }

  // Freeing an object that is not the last of its slab

  ghost predicate CanGive(cs: seq<Cache>, w: World, b: int, i: int) {
    b in w.slabs && 0 <= w.slabs[b].cache < |cs| && |w.full| == |w.notfull| == |cs| && b in w.chains &&
    0 <= i < |w.slabs[b].bufctl|
  }

  ghost function Given(cs: seq<Cache>, w: World, b: int, i: int): World
    requires CanGive(cs, w, b, i)
  {
    var s := w.slabs[b];
    var c := s.cache;
    var s' := s.(bufctl := s.bufctl[i := s.free], free := i, inuse := s.inuse - 1);
    var w' := w.(slabs := w.slabs[b := s'], chains := w.chains[b := [i] + w.chains[b]], users := w.users - {Obj(b, i)});
    if s'.inuse == cs[c].num - 1 then
      w'.(full := w.full[c := Remove(w.full[c], b)], notfull := w.notfull[c := [b] + w.notfull[c]])
    else w'
  }

  lemma {:induction false} UserCanGive(cs: seq<Cache>, w: World, o: Obj)
    requires Inv(cs, w) && o in w.users
    ensures Live(cs, w, o) && CanGive(cs, w, o.slab, o.index) && w.slabs[o.slab].inuse > 0
  {
    hide PagesOk, Configured;
    var s := w.slabs[o.slab];
    InUseCount(cs[s.cache].num, s, w.chains[o.slab]);
    var used := set i | 0 <= i < cs[s.cache].num && i !in w.chains[o.slab];
    assert o.index in used;
  }

  lemma {:induction false} GivenSlabs(cs: seq<Cache>, w: World, b: int, i: int)
    requires SlabsOk(cs, w) && CanGive(cs, w, b, i) && Live(cs, w, Obj(b, i))
    ensures SlabsOk(cs, Given(cs, w, b, i))
  {
    ChainPush(cs[w.slabs[b].cache].num, w.slabs[b], w.chains[b], i);
  }

  lemma {:induction false} GivenKeys(cs: seq<Cache>, w: World, b: int, i: int)
    requires CanGive(cs, w, b, i)
    ensures
      var w' := Given(cs, w, b, i);
      w'.slabs.Keys == w.slabs.Keys && (forall d | d in w.slabs :: w'.slabs[d].cache == w.slabs[d].cache) &&
      w'.tags == w.tags && w'.free == w.free && w'.reserved == w.reserved
  {
  }

  lemma {:induction false} GivenLists(cs: seq<Cache>, w: World, b: int, i: int)
    requires SlabsOk(cs, w) && AllLists(cs, w) && CanGive(cs, w, b, i) && Live(cs, w, Obj(b, i))
    ensures AllLists(cs, Given(cs, w, b, i))
  {
    hide ListsOk, Remove, Chained;
    var w', s := Given(cs, w, b, i), w.slabs[b];
    var c := s.cache;
    forall d | 0 <= d < |cs| ensures ListsOk(d, cs[d].num, w'.slabs, w'.full[d], w'.notfull[d]) {
      assert ListsOk(d, cs[d].num, w.slabs, w.full[d], w.notfull[d]);
      if d != c {
        ListsOther(d, cs[d].num, w.slabs, w'.slabs, w.full[d], w.notfull[d], b);
      } else if s.inuse == cs[d].num {
        ListsToNotFull(d, cs[d].num, w.slabs, w.full[d], w.notfull[d], b, w'.slabs[b]);
      } else {
        ListsStay(d, cs[d].num, w.slabs, w.full[d], w.notfull[d], b, w'.slabs[b]);
      }
    }
  }

  lemma {:induction false} GivenLive(cs: seq<Cache>, w: World, b: int, i: int, o: Obj)
    requires SlabsOk(cs, w) && CanGive(cs, w, b, i) && Live(cs, w, Obj(b, i)) && SlabsOk(cs, Given(cs, w, b, i))
    ensures Live(cs, Given(cs, w, b, i), o) <==> Live(cs, w, o) && o != Obj(b, i)
  {
    hide SlabOk;
  }

  lemma {:induction false} GivenObjs(cs: seq<Cache>, w: World, b: int, i: int)
    requires Configured(cs) && SlabsOk(cs, w) && ObjsOk(cs, w) && CanGive(cs, w, b, i) && Obj(b, i) in w.users
    requires SlabsOk(cs, Given(cs, w, b, i))
    ensures ObjsOk(cs, Given(cs, w, b, i))
  {
    hide Configured, SlabsOk, Live, DescOk;
    var w' := Given(cs, w, b, i);
    forall x ensures Live(cs, w', x) <==> x in w'.users || x in Owned(w'.desc) {
      assert Live(cs, w, Obj(b, i));
      GivenLive(cs, w, b, i, x);
    }
    forall d | d in w'.slabs ensures DescOk(cs, w', d) {
      DescOwner(cs, w, d);
      DescSame(cs, w, w', d);
    }
  }

  lemma {:induction false} GivenInv(cs: seq<Cache>, w: World, b: int, i: int)
    requires Inv(cs, w) && Obj(b, i) in w.users && CanGive(cs, w, b, i)
    ensures Inv(cs, Given(cs, w, b, i))
  {
    hide Configured, SlabsOk, AllLists, PagesOk, ObjsOk, Given, Live;
    UserCanGive(cs, w, Obj(b, i));
    GivenSlabs(cs, w, b, i);
    GivenLists(cs, w, b, i);
    GivenObjs(cs, w, b, i);
    GivenKeys(cs, w, b, i);
    PagesSame(cs, w, Given(cs, w, b, i));
  }

  // Freeing the last object of a slab: the slab goes, and its descriptor is up for freeing

  ghost function Dropped(cs: seq<Cache>, w: World, b: int, i: int): World
    requires CanGive(cs, w, b, i)
  {
    var c := w.slabs[b].cache;
    var run := Run(b, cs[c].order);
    World(
      w.slabs - {b}, w.full[c := Remove(w.full[c], b)], w.notfull[c := Remove(w.notfull[c], b)],
      w.tags - run, w.free + run, w.chains - {b}, w.reserved,
      w.users - {Obj(b, i)} + (if b in w.desc then {w.desc[b]} else {}), w.desc - {b})
  }

  lemma {:induction false} DroppedPages(cs: seq<Cache>, w: World, b: int, i: int)
    requires SlabsOk(cs, w) && PagesOk(cs, w) && CanGive(cs, w, b, i) && SlabsOk(cs, Dropped(cs, w, b, i))
    ensures PagesOk(cs, Dropped(cs, w, b, i))
  {
    hide Run, SlabOk;
    var w' := Dropped(cs, w, b, i);
    var run := Run(b, cs[w.slabs[b].cache].order);
    forall d, p | d in w'.slabs && p in Run(d, cs[w'.slabs[d].cache].order)
      ensures p in w'.tags && w'.tags[p] == Tag(w'.slabs[d].cache, d) && p !in w'.free && p !in w'.reserved
    {
      assert d in w.slabs && w'.slabs[d] == w.slabs[d];
      assert p in w.tags && w.tags[p] == Tag(w.slabs[d].cache, d) && p !in w.free && p !in w.reserved;
      assert p !in run;
    }
    forall p | p in run ensures p !in w.reserved {
    }
  }

  lemma {:induction false} DroppedLists(cs: seq<Cache>, w: World, b: int, i: int)
    requires AllLists(cs, w) && CanGive(cs, w, b, i)
    ensures AllLists(cs, Dropped(cs, w, b, i))
  {
    hide ListsOk, Remove, Run;
    var w' := Dropped(cs, w, b, i);
    forall d | 0 <= d < |cs| ensures ListsOk(d, cs[d].num, w'.slabs, w'.full[d], w'.notfull[d]) {
      assert ListsOk(d, cs[d].num, w.slabs, w.full[d], w.notfull[d]);
      if d != w.slabs[b].cache {
        ListsOther(d, cs[d].num, w.slabs, w'.slabs, w.full[d], w.notfull[d], b);
      } else {
        ListsDrop(d, cs[d].num, w.slabs, w.full[d], w.notfull[d], b);
      }
    }
  }

  lemma {:induction false} DroppedLive(cs: seq<Cache>, w: World, b: int, i: int, o: Obj)
    requires SlabsOk(cs, w) && CanGive(cs, w, b, i) && Live(cs, w, Obj(b, i)) && w.slabs[b].inuse == 1
    requires SlabsOk(cs, Dropped(cs, w, b, i))
    ensures Live(cs, Dropped(cs, w, b, i), o) <==> Live(cs, w, o) && o != Obj(b, i)
    ensures Live(cs, w, o) && o.slab == b ==> o == Obj(b, i)
  {
    hide Run;
    if Live(cs, w, o) && o.slab == b {
      LastInUse(cs[w.slabs[b].cache].num, w.slabs[b], w.chains[b], i, o.index);
    }
  }

  lemma {:induction false} DroppedSlabs(cs: seq<Cache>, w: World, b: int, i: int)
    requires SlabsOk(cs, w) && CanGive(cs, w, b, i)
    ensures SlabsOk(cs, Dropped(cs, w, b, i))
  {
    hide SlabOk, Run;
  }

  lemma {:induction false} ValuesWithout(desc: map<int, Obj>, b: int, x: Obj)
    requires forall c, d | c in desc && d in desc && desc[c] == desc[d] :: c == d
    ensures x in Owned(desc - {b}) <==> x in Owned(desc) && (b in desc ==> x != desc[b])
  {
    if x in Owned(desc) {
      var d :| d in desc && desc[d] == x;
      if d != b {
        assert d in desc - {b} && (desc - {b})[d] == x;
      }
    }
  }

  lemma {:induction false} DroppedObjs(cs: seq<Cache>, w: World, b: int, i: int)
    requires Configured(cs) && SlabsOk(cs, w) && ObjsOk(cs, w) && CanGive(cs, w, b, i) && Obj(b, i) in w.users
    requires w.slabs[b].inuse == 1 && SlabsOk(cs, Dropped(cs, w, b, i))
    ensures ObjsOk(cs, Dropped(cs, w, b, i))
  {
    hide Configured, SlabsOk, Live, DescOk, Run;
    var w' := Dropped(cs, w, b, i);
    assert Live(cs, w, Obj(b, i));
    forall x ensures Live(cs, w', x) <==> x in w'.users || x in Owned(w'.desc) {
      DroppedLive(cs, w, b, i, x);
      ValuesWithout(w.desc, b, x);
    }
    forall d | d in w'.slabs ensures DescOk(cs, w', d) {
      DescOwner(cs, w, d);
      if d in w.desc {
        assert w.desc[d] in Owned(w.desc);
        assert Live(cs, w, w.desc[d]);
        DroppedLive(cs, w, b, i, w.desc[d]);
      }
      DescSame(cs, w, w', d);
    }
  }

  lemma {:induction false} DroppedInv(cs: seq<Cache>, w: World, b: int, i: int)
    requires Inv(cs, w) && Obj(b, i) in w.users && CanGive(cs, w, b, i) && w.slabs[b].inuse == 1
    ensures Inv(cs, Dropped(cs, w, b, i))
  {
    hide Configured, SlabsOk, AllLists, PagesOk, ObjsOk, Dropped;
    DroppedSlabs(cs, w, b, i);
    DroppedLists(cs, w, b, i);
    DroppedPages(cs, w, b, i);
    DroppedObjs(cs, w, b, i);
  }

  // Adding a slab on reserved pages, with the object o as its descriptor when off-slab

  ghost predicate CanAdd(cs: seq<Cache>, w: World, c: int, b: int, o: Obj) {
    0 <= c < |cs| && |w.full| == |w.notfull| == |cs| && cs[c].num > 0 &&
    Run(b, cs[c].order) <= w.reserved &&
    (cs[c].offSlab ==>
      0 <= cs[c].home < |cs| && o in w.users && o.slab in w.slabs && w.slabs[o.slab].cache == cs[c].home)
  }

  ghost function Added(cs: seq<Cache>, w: World, c: int, b: int, o: Obj): World
    requires CanAdd(cs, w, c, b, o)
  {
    var run := Run(b, cs[c].order);
    var off := cs[c].offSlab;
    var mgmt := if off then Address(cs[cs[c].home], o) else b * PGSIZE;
    World(
      w.slabs[b := Slab(c, mgmt, 0, 0, Threaded(cs[c].num))], w.full, w.notfull[c := [b] + w.notfull[c]],
      w.tags + (map p | p in run :: Tag(c, b)), w.free, w.chains[b := UpTo(cs[c].num)], w.reserved - run,
      if off then w.users - {o} else w.users, if off then w.desc[b := o] else w.desc)
  }

  lemma {:induction false} AddedFresh(cs: seq<Cache>, w: World, c: int, b: int, o: Obj)
    requires SlabsOk(cs, w) && PagesOk(cs, w) && CanAdd(cs, w, c, b, o)
    ensures b !in w.slabs
  {
    assert b in Run(b, cs[c].order);
    assert b in w.slabs ==> b in Run(b, cs[w.slabs[b].cache].order);
  }

  lemma {:induction false} AddedSlabs(cs: seq<Cache>, w: World, c: int, b: int, o: Obj)
    requires SlabsOk(cs, w) && CanAdd(cs, w, c, b, o) && cs[c].num <= SLAB_LIMIT
    ensures SlabsOk(cs, Added(cs, w, c, b, o))
  {
    hide SlabOk, Run, Address;
    ChainInit(cs[c].num, c, Added(cs, w, c, b, o).slabs[b].mgmt);
  }

  lemma {:induction false} AddedPages(cs: seq<Cache>, w: World, c: int, b: int, o: Obj)
    requires SlabsOk(cs, w) && PagesOk(cs, w) && CanAdd(cs, w, c, b, o) && SlabsOk(cs, Added(cs, w, c, b, o))
    requires b !in w.slabs
    ensures PagesOk(cs, Added(cs, w, c, b, o))
  {
    hide Run, SlabOk, Address;
    var w' := Added(cs, w, c, b, o);
    forall d, p | d in w'.slabs && p in Run(d, cs[w'.slabs[d].cache].order)
      ensures p in w'.tags && w'.tags[p] == Tag(w'.slabs[d].cache, d) && p !in w'.free && p !in w'.reserved
    {
      if d != b {
        assert d in w.slabs && w'.slabs[d] == w.slabs[d];
        assert p in w.tags && w.tags[p] == Tag(w.slabs[d].cache, d) && p !in w.reserved;
      }
    }
    forall p | p in w'.tags
      ensures w'.tags[p].slab in w'.slabs && p in Run(w'.tags[p].slab, cs[w'.slabs[w'.tags[p].slab].cache].order)
    {
      if p !in Run(b, cs[c].order) {
        assert p in w.tags && w.tags[p].slab in w.slabs && w'.tags[p] == w.tags[p];
      }
    }
  }

  lemma {:induction false} AddedLists(cs: seq<Cache>, w: World, c: int, b: int, o: Obj)
    requires AllLists(cs, w) && CanAdd(cs, w, c, b, o) && b !in w.slabs
    ensures AllLists(cs, Added(cs, w, c, b, o))
  {
    hide ListsOk, Remove, Run, Address;
    var w' := Added(cs, w, c, b, o);
    forall d | 0 <= d < |cs| ensures ListsOk(d, cs[d].num, w'.slabs, w'.full[d], w'.notfull[d]) {
      assert ListsOk(d, cs[d].num, w.slabs, w.full[d], w.notfull[d]);
      if d != c {
        ListsOther(d, cs[d].num, w.slabs, w'.slabs, w.full[d], w.notfull[d], b);
      } else {
        ListsNew(d, cs[d].num, w.slabs, w.full[d], w.notfull[d], b, w'.slabs[b]);
      }
    }
  }

  lemma {:induction false} AddedLive(cs: seq<Cache>, w: World, c: int, b: int, o: Obj, x: Obj)
    requires SlabsOk(cs, w) && CanAdd(cs, w, c, b, o) && SlabsOk(cs, Added(cs, w, c, b, o)) && b !in w.slabs
    ensures Live(cs, Added(cs, w, c, b, o), x) <==> Live(cs, w, x)
  {
    hide SlabOk, Run, Address;
    if x.slab == b && 0 <= x.index < cs[c].num {
      assert UpTo(cs[c].num)[x.index] == x.index;
    }
  }

  lemma {:induction false} ValuesWith(desc: map<int, Obj>, b: int, o: Obj, x: Obj)
    requires b !in desc
    ensures x in Owned(desc[b := o]) <==> x in Owned(desc) || x == o
  {
    var more := desc[b := o];
    if x in Owned(desc) {
      var d :| d in desc && desc[d] == x;
      assert more[d] == x;
    }
    assert more[b] == o;
  }

  lemma {:induction false} AddedObjs(cs: seq<Cache>, w: World, c: int, b: int, o: Obj)
    requires Configured(cs) && SlabsOk(cs, w) && ObjsOk(cs, w) && CanAdd(cs, w, c, b, o) && b !in w.slabs
    requires SlabsOk(cs, Added(cs, w, c, b, o))
    ensures ObjsOk(cs, Added(cs, w, c, b, o))
  {
    hide Configured, SlabsOk, Live, DescOk, Run, Address;
    var w' := Added(cs, w, c, b, o);
    forall x ensures Live(cs, w', x) <==> x in w'.users || x in Owned(w'.desc) {
      AddedLive(cs, w, c, b, o, x);
      ValuesWith(w.desc, b, o, x);
    }
    forall d | d in w'.slabs ensures DescOk(cs, w', d) {
      if d != b {
        DescOwner(cs, w, d);
        DescSame(cs, w, w', d);
      } else {
        AddedDesc(cs, w, c, b, o);
      }
    }
  }

  lemma {:induction false} AddedDesc(cs: seq<Cache>, w: World, c: int, b: int, o: Obj)
    requires Configured(cs) && SlabsOk(cs, w) && CanAdd(cs, w, c, b, o) && b !in w.slabs && b !in w.desc
    requires SlabsOk(cs, Added(cs, w, c, b, o))
    ensures DescOk(cs, Added(cs, w, c, b, o), b)
  {
    hide Run, Address, SlabOk;
  }

  lemma {:induction false} AddedInv(cs: seq<Cache>, w: World, c: int, b: int, o: Obj)
    requires Inv(cs, w) && CanAdd(cs, w, c, b, o)
    ensures Inv(cs, Added(cs, w, c, b, o)) && b !in w.slabs
  {
    hide SlabsOk, AllLists, PagesOk, ObjsOk, Added;
    assert Homed(cs, c);
    AddedFresh(cs, w, c, b, o);
    AddedSlabs(cs, w, c, b, o);
    AddedLists(cs, w, c, b, o);
    AddedPages(cs, w, c, b, o);
    AddedObjs(cs, w, c, b, o);
  }

  // Where objects lie

  lemma {:induction false} MulSpread(i: int, j: int, n: int)
    ensures (i + j) * n == i * n + j * n
  {
  }

  /** An object lies inside the pages of its slab, behind the descriptor if that is there too,
      and is aligned. */
  lemma {:induction false} ObjectInside(c: Cache, o: Obj)
    requires LaidOut(c, ALIGN) && 0 <= o.index < c.num
    ensures o.slab * PGSIZE <= o.slab * PGSIZE + c.offset <= Address(c, o)
    ensures Address(c, o) + c.objsize <= o.slab * PGSIZE + SlabSize(c.order)
    ensures Address(c, o) % ALIGN == 0
    ensures !c.offSlab ==> o.slab * PGSIZE + DESC + c.num * CTL <= Address(c, o)
  {
    hide SlabSize, LaidOut;
    ObjectAligned(c, o);
    ObjectBounds(c, o);
  }

  lemma {:induction false} ObjectAligned(c: Cache, o: Obj)
    requires LaidOut(c, ALIGN) && 0 <= o.index < c.num
    ensures Address(c, o) % ALIGN == 0
  {
    hide LaidOut;
    AlignedParts(c);
    MulAligned(o.index, c.objsize);
    AlignedSum(o.slab, c.offset, o.index * c.objsize);
  }

  lemma {:induction false} AlignedParts(c: Cache)
    requires LaidOut(c, ALIGN)
    ensures c.objsize % ALIGN == 0 && c.offset % ALIGN == 0
  {
    hide SlabSize;
  }

  lemma {:induction false} AlignedSum(slab: int, offset: int, p: int)
    requires offset % ALIGN == 0 && p % ALIGN == 0
    ensures (slab * PGSIZE + offset + p) % ALIGN == 0
  {
  }

  lemma {:induction false} ObjectBounds(c: Cache, o: Obj)
    requires LaidOut(c, ALIGN) && 0 <= o.index < c.num
    ensures o.slab * PGSIZE <= o.slab * PGSIZE + c.offset <= Address(c, o)
    ensures Address(c, o) + c.objsize <= o.slab * PGSIZE + SlabSize(c.order)
    ensures !c.offSlab ==> o.slab * PGSIZE + DESC + c.num * CTL <= Address(c, o)
  {
    hide SlabSize;
    Scaled(o.index, c.num, c.objsize);
  }

  lemma {:induction false} Scaled(i: int, num: int, n: int)
    requires 0 <= i < num && n > 0
    ensures 0 <= i * n && i * n + n <= num * n
  {
    MulSpread(i, 1, n);
    MulLe(0, i, n);
    MulLe(i + 1, num, n);
  }

  lemma {:induction false} MulAligned(i: int, n: int)
    requires n % ALIGN == 0
    ensures (i * n) % ALIGN == 0
  {
    var q := n / ALIGN;
    assert i * n == i * (ALIGN * q) == ALIGN * (i * q);
    MulMod(i * q, ALIGN);
  }

  /** kva2page finds a page of the slab, and the division in __kmem_cache_free_one the index. */
  lemma {:induction false} AddressSplits(c: Cache, o: Obj)
    requires LaidOut(c, ALIGN) && 0 <= o.index < c.num
    ensures Address(c, o) / PGSIZE in Run(o.slab, c.order)
    ensures (Address(c, o) - (o.slab * PGSIZE + c.offset)) / c.objsize == o.index
  {
    ObjectInside(c, o);
    DivExact(o.index, c.objsize);
  }

  lemma {:induction false} DivExact(i: int, n: int)
    requires n > 0
    ensures (i * n) / n == i
  {
    var d := (i * n) / n;
    MulMod(i, n);
    assert n * i == n * d;
    if i < d {
      MulLe(i + 1, d, n);
    } else {
      MulLe(d, i, n);
      if d < i {
        MulLe(d + 1, i, n);
      }
    }
  }

  ghost predicate Apart(a: int, n: int, b: int, m: int) {
    a + n <= b || b + m <= a
  }

  lemma {:induction false} RunsApart(cs: seq<Cache>, w: World, b: int, d: int)
    requires SlabsOk(cs, w) && PagesOk(cs, w) && b in w.slabs && d in w.slabs && b != d
    ensures Apart(b, Pow2(cs[w.slabs[b].cache].order), d, Pow2(cs[w.slabs[d].cache].order))
  {
    hide SlabOk, PagesOk;
    var p := if b < d then d else b;
    OwnTag(cs, w, b, p);
    OwnTag(cs, w, d, p);
    assert !(p in Run(b, cs[w.slabs[b].cache].order) && p in Run(d, cs[w.slabs[d].cache].order));
  }

  lemma {:induction false} OwnTag(cs: seq<Cache>, w: World, b: int, p: int)
    requires SlabsOk(cs, w) && PagesOk(cs, w) && b in w.slabs
    ensures p in Run(b, cs[w.slabs[b].cache].order) ==> p in w.tags && w.tags[p] == Tag(w.slabs[b].cache, b)
  {
    hide SlabOk, Run;
  }

  ghost function SizeOf(cs: seq<Cache>, w: World, o: Obj): int
    requires SlabsOk(cs, w) && Slot(cs, w, o)
  {
    cs[w.slabs[o.slab].cache].objsize
  }

  ghost function Place(cs: seq<Cache>, w: World, o: Obj): int
    requires SlabsOk(cs, w) && Slot(cs, w, o)
  {
    Address(cs[w.slabs[o.slab].cache], o)
  }

  /** Any two object slots, of the same or of different caches, are disjoint. */
  lemma {:induction false} SlotsDisjoint(cs: seq<Cache>, w: World, o: Obj, o': Obj)
    requires Inv(cs, w) && Slot(cs, w, o) && Slot(cs, w, o') && o != o'
    ensures Apart(Place(cs, w, o), SizeOf(cs, w, o), Place(cs, w, o'), SizeOf(cs, w, o'))
  {
    hide AllLists, PagesOk, ObjsOk, SlabOk, LaidOut;
    var c, c' := w.slabs[o.slab].cache, w.slabs[o'.slab].cache;
    assert Homed(cs, c) && Homed(cs, c');
    if o.slab == o'.slab {
      IndicesApart(cs[c], o, o');
    } else {
      RunsApart(cs, w, o.slab, o'.slab);
      ObjectInside(cs[c], o);
      ObjectInside(cs[c'], o');
    }
  }

  lemma {:induction false} IndicesApart(c: Cache, o: Obj, o': Obj)
    requires c.objsize > 0 && o.slab == o'.slab && o.index != o'.index
    ensures Apart(Address(c, o), c.objsize, Address(c, o'), c.objsize)
  {
    var i, j := o.index, o'.index;
    MulSpread(i, 1, c.objsize);
    MulSpread(j, 1, c.objsize);
    if i < j {
      MulLe(i + 1, j, c.objsize);
    } else {
      MulLe(j + 1, i, c.objsize);
    }
  }

  // Moving pages between the free pool and the reserve

  lemma {:induction false} ObjsSame(cs: seq<Cache>, w: World, w': World)
    requires Configured(cs) && SlabsOk(cs, w) && SlabsOk(cs, w') && ObjsOk(cs, w)
    requires w'.slabs == w.slabs && w'.chains == w.chains && w'.users == w.users && w'.desc == w.desc
    ensures ObjsOk(cs, w')
  {
    hide Configured, SlabsOk, DescOk;
    forall o ensures Live(cs, w', o) <==> Live(cs, w, o) {
    }
    forall b | b in w'.slabs ensures DescOk(cs, w', b) {
      DescOwner(cs, w, b);
      DescSame(cs, w, w', b);
    }
  }

  lemma {:induction false} PoolInv(cs: seq<Cache>, w: World, free: set<int>, reserved: set<int>)
    requires Inv(cs, w) && free !! reserved && free + reserved <= w.free + w.reserved
    ensures Inv(cs, w.(free := free, reserved := reserved))
  {
    hide Configured, ObjsOk, SlabOk, ListsOk, Run;
    var w' := w.(free := free, reserved := reserved);
    ObjsSame(cs, w, w');
    forall b, p | b in w'.slabs && p in Run(b, cs[w'.slabs[b].cache].order)
      ensures p in w'.tags && w'.tags[p] == Tag(w'.slabs[b].cache, b) && p !in w'.free && p !in w'.reserved
    {
      assert p in w.tags && w.tags[p] == Tag(w.slabs[b].cache, b) && p !in w.free && p !in w.reserved;
      assert p !in free + reserved;
    }
  }

  // What each step does to the pages and to the idle slabs

  lemma {:induction false} TakenTotals(cs: seq<Cache>, w: World, b: int)
    requires Inv(cs, w) && CanTake(cs, w, b)
    ensures AllPages(Taken(cs, w, b)) == AllPages(w) && Idle(Taken(cs, w, b)) == Idle(w) - {b}
  {
    hide AllLists, PagesOk, ObjsOk, Configured, Chained;
    InUseCount(cs[w.slabs[b].cache].num, w.slabs[b], w.chains[b]);
  }

  lemma {:induction false} GivenTotals(cs: seq<Cache>, w: World, b: int, i: int)
    requires CanGive(cs, w, b, i) && w.slabs[b].inuse > 1
    ensures AllPages(Given(cs, w, b, i)) == AllPages(w) && Idle(Given(cs, w, b, i)) == Idle(w)
  {
  }

  lemma {:induction false} DroppedTotals(cs: seq<Cache>, w: World, b: int, i: int)
    requires Inv(cs, w) && CanGive(cs, w, b, i) && w.slabs[b].inuse == 1
    ensures AllPages(Dropped(cs, w, b, i)) == AllPages(w) && Idle(Dropped(cs, w, b, i)) == Idle(w)
  {
    hide AllLists, PagesOk, ObjsOk, Configured, SlabOk, Run;
    forall p | p in Run(b, cs[w.slabs[b].cache].order) ensures p in w.tags {
      OwnTag(cs, w, b, p);
    }
  }

  lemma {:induction false} AddedTotals(cs: seq<Cache>, w: World, c: int, b: int, o: Obj)
    requires CanAdd(cs, w, c, b, o)
    ensures AllPages(Added(cs, w, c, b, o)) == AllPages(w)
    ensures Idle(Added(cs, w, c, b, o)) == Idle(w) + {b}
  {
    hide Run, Address;
  }

  /** A slab in use without callers holds descriptors, so it is not off-slab itself. */
  lemma {:induction false} HomeIsOnSlab(cs: seq<Cache>, w: World, b: int)
    requires Inv(cs, w) && w.users == {} && Idle(w) == {} && b in w.slabs
    ensures b !in w.desc && exists d :: d in w.desc
  {
    hide PagesOk, AllLists, Address;
    var c := w.slabs[b].cache;
    InUseCount(cs[c].num, w.slabs[b], w.chains[b]);
    var used := set i | 0 <= i < cs[c].num && i !in w.chains[b];
    assert b !in Idle(w);
    assert used != {};
    var i :| i in used;
    assert Live(cs, w, Obj(b, i));
    var d :| d in w.desc && w.desc[d] == Obj(b, i);
    assert DescOk(cs, w, d) && DescOk(cs, w, b) && Homed(cs, w.slabs[d].cache);
  }

  /** Once callers have freed everything, no slab is left and every page is back. */
  lemma {:induction false} NothingLeaks(cs: seq<Cache>, w: World)
    requires Inv(cs, w) && w.users == {} && Idle(w) == {}
    ensures w.slabs == map[] && w.free + w.reserved == AllPages(w)
    ensures forall c | 0 <= c < |cs| :: w.full[c] == [] && w.notfull[c] == []
  {
    hide SlabOk, Address, Live;
    var slabs := set p | p in w.tags :: w.tags[p].slab;
    assert slabs <= w.slabs.Keys;
    forall b | b in w.slabs ensures false {
      HomeIsOnSlab(cs, w, b);
      var d :| d in w.desc;
      HomeIsOnSlab(cs, w, d);
    }
    assert w.slabs == map[];
    forall p | p in w.tags ensures w.tags[p].slab in slabs {
    }
    forall c | 0 <= c < |cs| ensures w.full[c] == [] && w.notfull[c] == [] {
      NoLists(c, cs[c].num, w.slabs, w.full[c], w.notfull[c]);
    }
  }

  lemma {:induction false} NoLists(c: int, num: int, slabs: map<int, Slab>, full: seq<int>, notfull: seq<int>)
    requires ListsOk(c, num, slabs, full, notfull) && slabs == map[]
    ensures full == [] && notfull == []
  {
    if full != [] {
      Listed(c, num, slabs, full, notfull, full[0]);
    }
    if notfull != [] {
      Listed(c, num, slabs, full, notfull, notfull[0]);
    }
  }

  lemma {:induction false} Listed(c: int, num: int, slabs: map<int, Slab>, full: seq<int>, notfull: seq<int>, b: int)
    requires ListsOk(c, num, slabs, full, notfull) && (b in full || b in notfull)
    ensures b in slabs
  {
  }
}
