/**
 The state of the slab allocator and what always holds of it: free chains threaded through
 bufctl, slab lists, page tags, and the objects handed out.
 */
module SlabState {
  import opened SlabLayout

  /** slab_t with its bufctl array.  Slabs are named by the number of their first page, so
      s_mem is slab * PGSIZE + offset; mgmt is the address of the descriptor itself. */
  datatype Slab = Slab(cache: int, mgmt: int, inuse: int, free: int, bufctl: seq<int>)

  /** An object slot: its slab and its index there. */
  datatype Obj = Obj(slab: int, index: int)

  /** What SET_PAGE_CACHE and SET_PAGE_SLAB record for a page. */
  datatype Tag = Tag(cache: int, slab: int)

  // Free chains

  function Link(ch: seq<int>, i: int): int
    requires 0 <= i
  {
    if i < |ch| then ch[i] else BUFCTL_END
  }

  ghost predicate Distinct(ch: seq<int>) {
    forall i, j | 0 <= i < j < |ch| :: ch[i] != ch[j]
  }

  /** From free, the chain visits exactly the indices in ch, in that order, and ends. */
  ghost predicate Chained(bufctl: seq<int>, free: int, ch: seq<int>) {
    free == Link(ch, 0) && Distinct(ch) &&
    (forall i | 0 <= i < |ch| :: 0 <= ch[i] < |bufctl|) &&
    (forall i | 0 <= i < |ch| :: bufctl[ch[i]] == Link(ch, i + 1))
  }

  ghost predicate SlabOk(num: int, s: Slab, ch: seq<int>) {
    0 < num <= SLAB_LIMIT && |s.bufctl| == num && Chained(s.bufctl, s.free, ch) && s.inuse == num - |ch|
  }

  lemma {:induction false} ChainEnds(num: int, s: Slab, ch: seq<int>)
    requires SlabOk(num, s, ch)
    ensures ch == [] <==> s.free == BUFCTL_END
    ensures ch != [] ==> 0 <= s.free < num && s.free == ch[0]
  {
  }

  /** __kmem_cache_alloc_one on the chain. */
  lemma {:induction false} ChainPop(num: int, s: Slab, ch: seq<int>)
    requires SlabOk(num, s, ch) && ch != []
    ensures 0 <= s.free < num && SlabOk(num, s.(inuse := s.inuse + 1, free := s.bufctl[s.free]), ch[1..])
    ensures forall i :: i in ch <==> i == s.free || i in ch[1..]
    ensures s.free !in ch[1..]
  {
    var rest := ch[1..];
    forall i | 0 <= i < |rest| ensures s.bufctl[rest[i]] == Link(rest, i + 1) {
      assert s.bufctl[ch[i + 1]] == Link(ch, i + 2);
    }
    assert s.bufctl[ch[0]] == Link(ch, 1);
  }

  /** __kmem_cache_free_one on the chain. */
  lemma {:induction false} ChainPush(num: int, s: Slab, ch: seq<int>, i: int)
    requires SlabOk(num, s, ch) && 0 <= i < num && i !in ch
    ensures SlabOk(num, s.(bufctl := s.bufctl[i := s.free], free := i, inuse := s.inuse - 1), [i] + ch)
  {
    var more, bufctl := [i] + ch, s.bufctl[i := s.free];
    forall j | 0 <= j < |more| ensures bufctl[more[j]] == Link(more, j + 1) {
      if j > 0 {
        assert s.bufctl[ch[j - 1]] == Link(ch, j);
      }
    }
  }

  function UpTo(n: nat): (ch: seq<int>)
    ensures |ch| == n && forall i | 0 <= i < n :: ch[i] == i
  {
    seq(n, i => i)
  }

  /** The chain that kmem_cache_grow threads through a new slab. */
  function Threaded(num: int): (b: seq<int>)
    requires num > 0
    ensures |b| == num && forall i | 0 <= i < num :: b[i] == if i == num - 1 then BUFCTL_END else i + 1
  {
    seq(num, i => if i == num - 1 then BUFCTL_END else i + 1)
  }

  lemma {:induction false} ChainInit(num: int, cache: int, mgmt: int)
    requires 0 < num <= SLAB_LIMIT
    ensures SlabOk(num, Slab(cache, mgmt, 0, 0, Threaded(num)), UpTo(num))
  {
  }

  ghost function Elems(ch: seq<int>): set<int> {
    set i | 0 <= i < |ch| :: ch[i]
  }

  lemma {:induction false} DistinctCount(ch: seq<int>)
    requires Distinct(ch)
    ensures |Elems(ch)| == |ch|
  {
    if ch != [] {
      var n := |ch| - 1;
      DistinctCount(ch[..n]);
      assert Elems(ch) == Elems(ch[..n]) + {ch[n]};
    }
  }

  /** The number in use is the number of indices off the chain. */
  lemma {:induction false} InUseCount(num: int, s: Slab, ch: seq<int>)
    requires SlabOk(num, s, ch)
    ensures |set i | 0 <= i < num && i !in ch| == s.inuse
  {
    var all, used := Elems(UpTo(num)), set i | 0 <= i < num && i !in ch;
    DistinctCount(ch);
    DistinctCount(UpTo(num));
    forall i ensures i in all <==> 0 <= i < num {
      if 0 <= i < num {
        assert UpTo(num)[i] == i;
      }
    }
    assert used == all - Elems(ch);
    assert Elems(ch) <= all;
    assert all == used + Elems(ch);
  }

  /** When one object is in use, it is the only one off the chain. */
  lemma {:induction false} LastInUse(num: int, s: Slab, ch: seq<int>, i: int, j: int)
    requires SlabOk(num, s, ch) && s.inuse == 1
    requires 0 <= i < num && i !in ch && 0 <= j < num && j !in ch
    ensures i == j
  {
    InUseCount(num, s, ch);
    var used := set k | 0 <= k < num && k !in ch;
    if i != j {
      assert {i, j} <= used;
      SubsetCount({i, j}, used);
    }
  }

  lemma {:induction false} SubsetCount(a: set<int>, b: set<int>)
    requires a <= b
    ensures |a| <= |b|
  {
    assert b == a + (b - a);
  }

  // Lists

  /** list_del */
  function Remove(l: seq<int>, x: int): seq<int> {
    if l == [] then [] else if l[0] == x then l[1..] else [l[0]] + Remove(l[1..], x)
  }

  lemma {:induction false} RemoveProps(l: seq<int>, x: int)
    requires Distinct(l)
    ensures Distinct(Remove(l, x)) && forall y :: y in Remove(l, x) <==> y in l && y != x
  {
    if l != [] {
      assert l == [l[0]] + l[1..];
      assert forall y :: y in l <==> y == l[0] || y in l[1..];
      RemoveProps(l[1..], x);
      if l[0] != x {
        AddProps(Remove(l[1..], x), l[0]);
      }
    }
  }

  lemma {:induction false} AddProps(l: seq<int>, x: int)
    requires Distinct(l) && x !in l
    ensures Distinct([x] + l) && forall y :: y in [x] + l <==> y in l || y == x
  {
  }

  /** The two lists of a cache hold exactly its slabs, divided by whether all is in use. */
  ghost predicate ListsOk(c: int, num: int, slabs: map<int, Slab>, full: seq<int>, notfull: seq<int>) {
    Distinct(full) && Distinct(notfull) &&
    (forall b :: b in full <==> b in slabs && slabs[b].cache == c && slabs[b].inuse == num) &&
    (forall b :: b in notfull <==> b in slabs && slabs[b].cache == c && slabs[b].inuse != num)
  }

  lemma {:induction false} ListsOther(
    c: int, num: int, slabs: map<int, Slab>, slabs': map<int, Slab>, full: seq<int>, notfull: seq<int>, b: int)
    requires ListsOk(c, num, slabs, full, notfull)
    requires forall d | d != b :: (d in slabs' <==> d in slabs) && (d in slabs ==> slabs'[d] == slabs[d])
    requires b in slabs ==> slabs[b].cache != c
    requires b in slabs' ==> slabs'[b].cache != c
    ensures ListsOk(c, num, slabs', full, notfull)
  {
  }

  /** A slab changes without becoming full. */
  lemma {:induction false} ListsStay(
    c: int, num: int, slabs: map<int, Slab>, full: seq<int>, notfull: seq<int>, b: int, s: Slab)
    requires ListsOk(c, num, slabs, full, notfull) && b in slabs && slabs[b].cache == s.cache == c
    requires slabs[b].inuse != num && s.inuse != num
    ensures ListsOk(c, num, slabs[b := s], full, notfull)
  {
  }

  lemma {:induction false} ListsToFull(
    c: int, num: int, slabs: map<int, Slab>, full: seq<int>, notfull: seq<int>, b: int, s: Slab)
    requires ListsOk(c, num, slabs, full, notfull) && b in slabs && slabs[b].cache == s.cache == c
    requires slabs[b].inuse != num && s.inuse == num
    ensures ListsOk(c, num, slabs[b := s], [b] + full, Remove(notfull, b))
  {
    RemoveProps(notfull, b);
    AddProps(full, b);
  }

  lemma {:induction false} ListsToNotFull(
    c: int, num: int, slabs: map<int, Slab>, full: seq<int>, notfull: seq<int>, b: int, s: Slab)
    requires ListsOk(c, num, slabs, full, notfull) && b in slabs && slabs[b].cache == s.cache == c
    requires slabs[b].inuse == num && s.inuse != num
    ensures ListsOk(c, num, slabs[b := s], Remove(full, b), [b] + notfull)
  {
    RemoveProps(full, b);
    AddProps(notfull, b);
  }

  lemma {:induction false} ListsDrop(c: int, num: int, slabs: map<int, Slab>, full: seq<int>, notfull: seq<int>, b: int)
    requires ListsOk(c, num, slabs, full, notfull)
    ensures ListsOk(c, num, slabs - {b}, Remove(full, b), Remove(notfull, b))
  {
    RemoveProps(full, b);
    RemoveProps(notfull, b);
  }

  lemma {:induction false} ListsNew(
    c: int, num: int, slabs: map<int, Slab>, full: seq<int>, notfull: seq<int>, b: int, s: Slab)
    requires ListsOk(c, num, slabs, full, notfull) && b !in slabs && s.cache == c && s.inuse != num
    ensures ListsOk(c, num, slabs[b := s], full, [b] + notfull)
  {
    AddProps(notfull, b);
  }
}
