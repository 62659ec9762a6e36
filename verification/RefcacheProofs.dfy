/** What every step of the reference-count cache keeps. */
module RefcacheProofs {
  import opened Common
  import opened RefcacheSpec

  // ----- sums over the CPUs -----

  function Sum(cpus: seq<Cpu>, hash: Hash, o: Id): int {
    if cpus == [] then 0 else Sum(cpus[..|cpus| - 1], hash, o) + Delta(cpus[|cpus| - 1], hash, o)
  }

  /** How many CPUs have yet to flush in epoch g. */
  function Behind(cpus: seq<Cpu>, g: int): nat {
    if cpus == [] then 0 else Behind(cpus[..|cpus| - 1], g) + if cpus[|cpus| - 1].localEpoch == g then 0 else 1
  }

  lemma {:induction false} SumUpdate(cpus: seq<Cpu>, c: nat, cpu: Cpu, hash: Hash, o: Id)
    requires c < |cpus|
    ensures Sum(cpus[c := cpu], hash, o) == Sum(cpus, hash, o) - Delta(cpus[c], hash, o) + Delta(cpu, hash, o)
  {
    var n := |cpus| - 1;
    if c == n {
      assert cpus[c := cpu][..n] == cpus[..n];
    } else {
      assert cpus[c := cpu][..n] == cpus[..n][c := cpu];
      SumUpdate(cpus[..n], c, cpu, hash, o);
    }
  }

  lemma {:induction false} SumZero(cpus: seq<Cpu>, hash: Hash, o: Id)
    requires forall c :: 0 <= c < |cpus| ==> Delta(cpus[c], hash, o) == 0
    ensures Sum(cpus, hash, o) == 0
  {
    if cpus != [] {
      SumZero(cpus[..|cpus| - 1], hash, o);
    }
  }

  lemma {:induction false} BehindUpdate(cpus: seq<Cpu>, c: nat, cpu: Cpu, g: int)
    requires c < |cpus|
    ensures Behind(cpus[c := cpu], g) ==
      Behind(cpus, g) - (if cpus[c].localEpoch == g then 0 else 1) + (if cpu.localEpoch == g then 0 else 1)
  {
    var n := |cpus| - 1;
    if c == n {
      assert cpus[c := cpu][..n] == cpus[..n];
    } else {
      assert cpus[c := cpu][..n] == cpus[..n][c := cpu];
      BehindUpdate(cpus[..n], c, cpu, g);
    }
  }

  lemma {:induction false} BehindNone(cpus: seq<Cpu>, g: int)
    requires Behind(cpus, g) == 0
    ensures forall c :: 0 <= c < |cpus| ==> cpus[c].localEpoch == g
  {
    if cpus != [] {
      var n := |cpus| - 1;
      BehindNone(cpus[..n], g);
      forall c | 0 <= c < |cpus| ensures cpus[c].localEpoch == g {
        assert c < n ==> cpus[c] == cpus[..n][c];
      }
    }
  }

  lemma {:induction false} BehindAll(cpus: seq<Cpu>, g: int)
    requires forall c :: 0 <= c < |cpus| ==> cpus[c].localEpoch != g
    ensures Behind(cpus, g) == |cpus|
  {
    if cpus != [] {
      BehindAll(cpus[..|cpus| - 1], g);
    }
  }

  // ----- the invariant -----

  /** Between flushes: every CPU is in the current epoch or one behind, and `left` counts the latter. */
  ghost predicate EpochInv(s: State) {
    s.globalEpoch >= 1 && s.left >= 1 && s.left == Behind(s.cpus, s.globalEpoch) &&
    forall c :: 0 <= c < |s.cpus| ==> s.globalEpoch - 1 <= s.cpus[c].localEpoch <= s.globalEpoch
  }

  ghost predicate Sized(s: State, log: Log, hash: Hash) {
    Hashes(hash) && |s.cpus| >= 1 && WaysOk(s) && log.Keys == s.objs.Keys && s.globalEpoch >= 1 &&
    (forall c, k :: 0 <= c < |s.cpus| && 0 <= k < |s.cpus[c].ways| && s.cpus[c].ways[k].obj.Some? ==>
      hash(s.cpus[c].ways[k].obj.value) == k && -(WORD / 2) <= s.cpus[c].ways[k].delta < WORD / 2) &&
    (forall o :: o in s.objs ==> 0 <= s.objs[o].refcount < WORD) &&
    (forall c :: 0 <= c < |s.cpus| ==> s.globalEpoch - 1 <= s.cpus[c].localEpoch <= s.globalEpoch)
  }

  predicate NoDup(q: seq<Id>) {
    forall i, j :: 0 <= i < j < |q| ==> q[i] != q[j]
  }

  /** An object is on a review queue, in one place, iff its review_epoch is not zero. */
  ghost predicate QueueInv(s: State, log: Log) {
    log.Keys == s.objs.Keys &&
    (forall c, i :: 0 <= c < |s.cpus| && 0 <= i < |s.cpus[c].queue| ==>
      s.cpus[c].queue[i] in s.objs && s.objs[s.cpus[c].queue[i]].reviewEpoch != 0 &&
      log[s.cpus[c].queue[i]].owner == c) &&
    (forall c :: 0 <= c < |s.cpus| ==> NoDup(s.cpus[c].queue)) &&
    (forall o :: o in s.objs && s.objs[o].reviewEpoch != 0 ==>
      log[o].owner < |s.cpus| && o in s.cpus[log[o].owner].queue)
  }

  /** What is true of a queued object.  `busy` is the CPU in the middle of a flush, or -1. */
  ghost predicate TraceInv(s: State, hash: Hash, o: Id, ob: Obj, t: Trace, busy: int) {
    ob.reviewEpoch != 0 ==>
      t.queuedAt <= s.globalEpoch && t.queuedAt + 2 <= ob.reviewEpoch &&
      (forall c :: 0 <= c < |s.cpus| && c != busy && s.cpus[c].localEpoch > t.queuedAt ==> c in t.flushed) &&
      (!t.evicted ==> ob.refcount == 0 && !ob.dirty) &&
      (t.evicted && ob.refcount == 0 ==> ob.dirty) &&
      (!t.evicted && !t.poked ==> forall c :: 0 <= c < |s.cpus| && c in t.flushed ==> Delta(s.cpus[c], hash, o) == 0)
  }

  /** The global count plus all cached deltas is incs minus decs, modulo 2^32. */
  ghost predicate Conserved(s: State, hash: Hash, o: Id, ob: Obj, t: Trace) {
    (ob.refcount + Sum(s.cpus, hash, o)) % WORD == t.net % WORD
  }

  ghost predicate Inv(s: State, log: Log, hash: Hash, busy: int) {
    Sized(s, log, hash) && QueueInv(s, log) &&
    (forall o :: o in s.objs ==> TraceInv(s, hash, o, s.objs[o], log[o], busy)) &&
    (forall o :: o in s.objs ==> Conserved(s, hash, o, s.objs[o], log[o]))
  }

  // ----- eviction -----

  lemma {:induction false} ModAdd(a: int, b: int, c: int)
    ensures (a % WORD + b) % WORD == (a + b) % WORD
    ensures a % WORD == c % WORD ==> (a + b) % WORD == (c + b) % WORD
  {
  }

  /** The CPU after an eviction. */
  lemma {:induction false} EvictDelta(s: State, hash: Hash, c: nat, k: nat, o: Id)
    requires CanEvict(s, c, k) && hash(s.cpus[c].ways[k].obj.value) == k
    ensures Delta(Evict(s, c, k).cpus[c], hash, o) ==
      if o == s.cpus[c].ways[k].obj.value then 0 else Delta(s.cpus[c], hash, o)
  {
  }

  lemma {:induction false} EvictSized(s: State, log: Log, hash: Hash, c: nat, k: nat)
    requires Sized(s, log, hash) && CanEvict(s, c, k)
    ensures Sized(Evict(s, c, k), EvictLog(s, log, c, k), hash)
  {
  }

  lemma {:induction false} EvictQueue(s: State, log: Log, hash: Hash, c: nat, k: nat)
    requires Sized(s, log, hash) && QueueInv(s, log) && CanEvict(s, c, k)
    ensures QueueInv(Evict(s, c, k), EvictLog(s, log, c, k))
  {
    var e := s.cpus[c].ways[k].obj.value;
    var s', log' := Evict(s, c, k), EvictLog(s, log, c, k);
    var q, q' := s.cpus[c].queue, s'.cpus[c].queue;
    if Queues(s.objs[e], s.cpus[c].ways[k].delta) {
      assert e !in q;
      assert q' == q + [e];
      assert q'[|q|] == e;
    }
  }

  lemma {:induction false} EvictTrace(s: State, log: Log, hash: Hash, busy: int, c: nat, k: nat, o: Id)
    requires Inv(s, log, hash, busy) && CanEvict(s, c, k) && s.cpus[c].ways[k].delta != 0 && o in s.objs
    ensures TraceInv(Evict(s, c, k), hash, o, Evict(s, c, k).objs[o], EvictLog(s, log, c, k)[o], busy)
  {
    EvictDelta(s, hash, c, k, o);
    assert TraceInv(s, hash, o, s.objs[o], log[o], busy);
  }

  lemma {:induction false} EvictConserved(s: State, log: Log, hash: Hash, busy: int, c: nat, k: nat, o: Id)
    requires Inv(s, log, hash, busy) && CanEvict(s, c, k) && o in s.objs
    ensures Conserved(Evict(s, c, k), hash, o, Evict(s, c, k).objs[o], EvictLog(s, log, c, k)[o])
  {
    var s', e, delta := Evict(s, c, k), s.cpus[c].ways[k].obj.value, s.cpus[c].ways[k].delta;
    assert hash(e) == k && log.Keys == s.objs.Keys;
    hide Conserved, Sum, Settled, Queues, TraceInv;
    EvictDelta(s, hash, c, k, o);
    SumUpdate(s.cpus, c, s'.cpus[c], hash, o);
    Settles(s.objs[e], delta, s.cpus[c].localEpoch);
    Moves(s, s', hash, o, s.objs[o], s'.objs[o], log[o], EvictLog(s, log, c, k)[o], if o == e then delta else 0);
  }

  predicate SameCount(ob: Obj, ob': Obj, d: int) {
    ob'.refcount % WORD == (ob.refcount + d) % WORD
  }

  lemma {:induction false} Settles(ob: Obj, delta: int, localEpoch: int)
    ensures SameCount(ob, Settled(ob, delta, localEpoch), delta)
  {
  }

  /** Moving a delta from the caches to the count changes nothing. */
  lemma {:induction false} Moves(s: State, s': State, hash: Hash, o: Id, ob: Obj, ob': Obj, t: Trace, t': Trace, d: int)
    requires Conserved(s, hash, o, ob, t) && (if d == 0 && ob' == ob then true else SameCount(ob, ob', d)) &&
      t'.net == t.net
    requires Sum(s'.cpus, hash, o) == Sum(s.cpus, hash, o) - d
    ensures Conserved(s', hash, o, ob', t')
  {
    ModAdd(ob'.refcount, Sum(s.cpus, hash, o) - d, ob.refcount + d);
  }

  lemma {:induction false} EvictInv(s: State, log: Log, hash: Hash, busy: int, c: nat, k: nat)
    requires Inv(s, log, hash, busy) && CanEvict(s, c, k) && s.cpus[c].ways[k].delta != 0
    ensures Inv(Evict(s, c, k), EvictLog(s, log, c, k), hash, busy)
  {
    assert log.Keys == s.objs.Keys;
    hide Sized, QueueInv, TraceInv, Conserved;
    EvictSized(s, log, hash, c, k);
    EvictQueue(s, log, hash, c, k);
    var s', log' := Evict(s, c, k), EvictLog(s, log, c, k);
    forall o | o in s'.objs
      ensures TraceInv(s', hash, o, s'.objs[o], log'[o], busy) && Conserved(s', hash, o, s'.objs[o], log'[o])
    {
      EvictTrace(s, log, hash, busy, c, k, o);
      EvictConserved(s, log, hash, busy, c, k, o);
    }
  }

  // ----- inc and dec -----

  lemma {:induction false} WrapMod(x: int)
    ensures Wrap(x) % WORD == x % WORD && -(WORD / 2) <= Wrap(x) < WORD / 2
  {
  }

  /** The way of o on c, free or o's own, after an inc or dec. */
  function Cached(s: State, hash: Hash, c: nat, o: Id, delta: int): State
    requires c < |s.cpus| && hash(o) < |s.cpus[c].ways|
  {
    s.(cpus := s.cpus[c := s.cpus[c].(ways := s.cpus[c].ways[hash(o) := Way(Some(o), delta)])])
  }

  ghost predicate OwnWay(s: State, hash: Hash, c: nat, o: Id) {
    c < |s.cpus| && hash(o) < |s.cpus[c].ways| && o in s.objs &&
    (s.cpus[c].ways[hash(o)].obj == None || s.cpus[c].ways[hash(o)].obj == Some(o))
  }

  lemma {:induction false} CachedDelta(s: State, hash: Hash, c: nat, o: Id, delta: int, x: Id)
    requires OwnWay(s, hash, c, o)
    ensures Delta(Cached(s, hash, c, o, delta).cpus[c], hash, x) == if x == o then delta else Delta(s.cpus[c], hash, x)
  {
  }

  lemma {:induction false} CachedSized(s: State, log: Log, hash: Hash, c: nat, o: Id, delta: int, t: Trace)
    requires Sized(s, log, hash) && QueueInv(s, log) && OwnWay(s, hash, c, o) && -(WORD / 2) <= delta < WORD / 2
    requires t == log[o].(net := t.net, poked := true)
    ensures Sized(Cached(s, hash, c, o, delta), log[o := t], hash) &&
      QueueInv(Cached(s, hash, c, o, delta), log[o := t])
  {
  }

  lemma {:induction false} CachedTrace(s: State, log: Log, hash: Hash, c: nat, o: Id, delta: int, t: Trace, x: Id)
    requires Inv(s, log, hash, -1) && OwnWay(s, hash, c, o) && x in s.objs && t == log[o].(net := t.net, poked := true)
    ensures TraceInv(Cached(s, hash, c, o, delta), hash, x, s.objs[x], log[o := t][x], -1)
  {
    CachedDelta(s, hash, c, o, delta, x);
    assert TraceInv(s, hash, x, s.objs[x], log[x], -1);
  }

  lemma {:induction false} CachedConserved(s: State, log: Log, hash: Hash, c: nat, o: Id, delta: int, t: Trace, x: Id)
    requires Inv(s, log, hash, -1) && OwnWay(s, hash, c, o) && x in s.objs
    requires NetMoves(log[o], t, delta - Delta(s.cpus[c], hash, o))
    ensures Conserved(Cached(s, hash, c, o, delta), hash, x, s.objs[x], log[o := t][x])
  {
    hide Conserved, Sum, Cached, Delta, TraceInv, NetMoves;
    SumOfCached(s, hash, c, o, delta, x);
    Changes(
      s, Cached(s, hash, c, o, delta), hash, x, s.objs[x], log[x], log[o := t][x],
      if x == o then delta - Delta(s.cpus[c], hash, o) else 0);
  }

  predicate NetMoves(t: Trace, t': Trace, d: int) {
    t'.net % WORD == (t.net + d) % WORD
  }

  /** A change of the cached deltas that the net count shares. */
  lemma {:induction false} Changes(s: State, s': State, hash: Hash, o: Id, ob: Obj, t: Trace, t': Trace, d: int)
    requires Conserved(s, hash, o, ob, t) && Sum(s'.cpus, hash, o) == Sum(s.cpus, hash, o) + d
    requires if d == 0 && t' == t then true else NetMoves(t, t', d)
    ensures Conserved(s', hash, o, ob, t')
  {
    ModAdd(ob.refcount + Sum(s.cpus, hash, o), d, t.net);
  }

  lemma {:induction false} SumOfCached(s: State, hash: Hash, c: nat, o: Id, delta: int, x: Id)
    requires OwnWay(s, hash, c, o)
    ensures var s' := Cached(s, hash, c, o, delta);
            Sum(s'.cpus, hash, x) == Sum(s.cpus, hash, x) + if x == o then delta - Delta(s.cpus[c], hash, o) else 0
  {
    CachedDelta(s, hash, c, o, delta, x);
    SumUpdate(s.cpus, c, Cached(s, hash, c, o, delta).cpus[c], hash, x);
  }

  lemma {:induction false} CachedInv(s: State, log: Log, hash: Hash, c: nat, o: Id, delta: int, t: Trace)
    requires Inv(s, log, hash, -1) && OwnWay(s, hash, c, o) && -(WORD / 2) <= delta < WORD / 2
    requires t == log[o].(net := t.net, poked := true)
    requires NetMoves(log[o], t, delta - Delta(s.cpus[c], hash, o))
    ensures Inv(Cached(s, hash, c, o, delta), log[o := t], hash, -1)
  {
    var s', log' := Cached(s, hash, c, o, delta), log[o := t];
    hide Sized, QueueInv, TraceInv, Conserved, Delta, NetMoves;
    CachedSized(s, log, hash, c, o, delta, t);
    forall x | x in s'.objs
      ensures TraceInv(s', hash, x, s'.objs[x], log'[x], -1) && Conserved(s', hash, x, s'.objs[x], log'[x])
    {
      CachedTrace(s, log, hash, c, o, delta, t, x);
      CachedConserved(s, log, hash, c, o, delta, t, x);
    }
  }

  lemma {:induction false} MakeRoomInv(s: State, log: Log, hash: Hash, c: nat, o: Id)
    requires Inv(s, log, hash, -1) && CanBump(s, hash, c, o)
    ensures Inv(MakeRoom(s, hash, c, o), MakeRoomLog(s, log, hash, c, o), hash, -1)
    ensures OwnWay(MakeRoom(s, hash, c, o), hash, c, o) &&
      MakeRoomLog(s, log, hash, c, o).Keys == MakeRoom(s, hash, c, o).objs.Keys
  {
    hide Sized, QueueInv, TraceInv, Conserved;
    assert log.Keys == s.objs.Keys by { KeysOf(s, log, hash, -1); }
    var w := s.cpus[c].ways[hash(o)];
    if w.obj.Some? && w.obj.value != o {
      EvictInv(s, log, hash, -1, c, hash(o));
    }
  }

  lemma {:induction false} KeysOf(s: State, log: Log, hash: Hash, busy: int)
    requires Inv(s, log, hash, busy)
    ensures log.Keys == s.objs.Keys
  {
  }

  /** inc and dec keep the invariant. */
  lemma {:induction false} BumpInv(s: State, log: Log, hash: Hash, c: nat, o: Id, amount: int)
    requires Inv(s, log, hash, -1) && CanBump(s, hash, c, o)
    ensures Inv(Bump(s, hash, c, o, amount), BumpLog(s, log, hash, c, o, amount), hash, -1)
  {
    hide Inv, MakeRoom, MakeRoomLog, Wrap, NetMoves;
    KeysOf(s, log, hash, -1);
    MakeRoomInv(s, log, hash, c, o);
    var s1, log1 := MakeRoom(s, hash, c, o), MakeRoomLog(s, log, hash, c, o);
    var w1 := s1.cpus[c].ways[hash(o)];
    var d0 := if w1.obj == None then 0 else w1.delta;
    var t := log1[o].(net := log1[o].net + amount, poked := true);
    BumpMod(d0, amount, log1[o], t);
    CachedInv(s1, log1, hash, c, o, Wrap(d0 + amount), t);
  }

  lemma {:induction false} BumpMod(d: int, amount: int, t: Trace, t': Trace)
    requires t'.net == t.net + amount
    ensures NetMoves(t, t', Wrap(d + amount) - d)
    ensures -(WORD / 2) <= Wrap(d + amount) < WORD / 2
  {
    WrapMod(d + amount);
    ModAdd(d + amount, t.net - d, Wrap(d + amount));
  }

  // ----- flush -----

  /** A change on one CPU that no object notices: same queue, same deltas, and the same local
      epoch unless that CPU is the one busy flushing. */
  ghost predicate Inert(s: State, s': State, hash: Hash, busy: int, busy': int, c: nat) {
    c < |s.cpus| && s'.objs == s.objs && s'.globalEpoch == s.globalEpoch && |s'.cpus| == |s.cpus| &&
    s'.cpus == s.cpus[c := s'.cpus[c]] &&
    s'.cpus[c].queue == s.cpus[c].queue && (forall o :: Delta(s'.cpus[c], hash, o) == Delta(s.cpus[c], hash, o)) &&
    (busy' == busy || busy == -1) && (s'.cpus[c].localEpoch == s.cpus[c].localEpoch || c == busy')
  }

  lemma {:induction false} InertTrace(
    s: State, s': State, hash: Hash, busy: int, busy': int, c: nat, o: Id, ob: Obj, t: Trace)
    requires Inert(s, s', hash, busy, busy', c) && TraceInv(s, hash, o, ob, t, busy)
    ensures TraceInv(s', hash, o, ob, t, busy')
  {
    hide Delta;
    assert forall d :: 0 <= d < |s.cpus| && d != c ==> s'.cpus[d] == s.cpus[d];
  }

  lemma {:induction false} InertConserved(
    s: State, s': State, hash: Hash, busy: int, busy': int, c: nat, o: Id, ob: Obj, t: Trace)
    requires Inert(s, s', hash, busy, busy', c) && Conserved(s, hash, o, ob, t)
    ensures Conserved(s', hash, o, ob, t)
  {
    hide Delta, Sum;
    SumUpdate(s.cpus, c, s'.cpus[c], hash, o);
  }

  lemma {:induction false} InertInv(s: State, s': State, log: Log, hash: Hash, busy: int, busy': int, c: nat)
    requires Inv(s, log, hash, busy) && Inert(s, s', hash, busy, busy', c) && Sized(s', log, hash)
    ensures Inv(s', log, hash, busy')
  {
    hide Sized, TraceInv, Conserved, Delta;
    assert QueueInv(s', log);
    forall o | o in s.objs
      ensures TraceInv(s', hash, o, s.objs[o], log[o], busy') && Conserved(s', hash, o, s.objs[o], log[o])
    {
      InertTrace(s, s', hash, busy, busy', c, o, s.objs[o], log[o]);
      InertConserved(s, s', hash, busy, busy', c, o, s.objs[o], log[o]);
    }
  }

  /** A way with nothing to settle is emptied. */
  lemma {:induction false} ClearInv(s: State, log: Log, hash: Hash, busy: int, c: nat, k: nat)
    requires Inv(s, log, hash, busy) && CanEvict(s, c, k) && s.cpus[c].ways[k].delta == 0
    ensures Inv(FlushWay(s, c, k), log, hash, busy)
  {
    hide TraceInv, Conserved, QueueInv;
    var s' := FlushWay(s, c, k);
    assert hash(s.cpus[c].ways[k].obj.value) == k;
    assert Sized(s', log, hash);
    InertInv(s, s', log, hash, busy, busy, c);
  }

  lemma {:induction false} FlushWayInv(s: State, log: Log, hash: Hash, busy: int, c: nat, k: nat)
    requires Inv(s, log, hash, busy) && c < |s.cpus| && k < |s.cpus[c].ways|
    ensures s.cpus[c].ways[k].obj.Some? ==> s.cpus[c].ways[k].obj.value in s.objs
    ensures log.Keys == s.objs.Keys
    ensures Inv(FlushWay(s, c, k), FlushWayLog(s, log, c, k), hash, busy)
  {
    hide Conserved, TraceInv, QueueInv;
    if s.cpus[c].ways[k].obj.Some? {
      if s.cpus[c].ways[k].delta != 0 {
        EvictInv(s, log, hash, busy, c, k);
      } else {
        ClearInv(s, log, hash, busy, c, k);
      }
    }
  }

  /** How far a flush has got: what it leaves alone, what it has emptied, and that whatever
      it queued is stamped with the current epoch. */
  ghost predicate Midway(before: State, s: State, log: Log, c: nat, k: nat) {
    c < |s.cpus| && |s.cpus[c].ways| == SLOTS && log.Keys == s.objs.Keys &&
    s.globalEpoch == before.globalEpoch && s.left == before.left && |s.cpus| == |before.cpus| &&
    s.objs.Keys == before.objs.Keys &&
    (forall j :: 0 <= j < |s.cpus| ==> s.cpus[j].localEpoch == before.cpus[j].localEpoch) &&
    (forall j :: 0 <= j < k <= SLOTS ==> s.cpus[c].ways[j].obj.None?) &&
    (forall o :: o in s.objs && before.objs[o].reviewEpoch == 0 && s.objs[o].reviewEpoch != 0 ==>
      log[o].queuedAt == s.globalEpoch)
  }

  lemma {:induction false} FlushWayMidway(before: State, s: State, log: Log, c: nat, k: nat)
    requires Midway(before, s, log, c, k) && k < SLOTS
    requires s.cpus[c].ways[k].obj.Some? ==> s.cpus[c].ways[k].obj.value in s.objs
    ensures Midway(before, FlushWay(s, c, k), FlushWayLog(s, log, c, k), c, k + 1)
  {
  }

  lemma {:induction false} FlushWaysInv(before: State, s: State, log: Log, hash: Hash, c: nat, k: nat)
    requires Inv(s, log, hash, c) && Midway(before, s, log, c, k) && k <= SLOTS && WaysOk(s)
    ensures Inv(FlushWays(s, c, k), FlushWaysLog(s, log, c, k), hash, c)
    ensures Midway(before, FlushWays(s, c, k), FlushWaysLog(s, log, c, k), c, SLOTS)
    decreases SLOTS - k
  {
    hide Inv, Midway, WaysOk, FlushWay, FlushWayLog;
    MidwaySizes(before, s, log, c, k);
    if k < SLOTS {
      FlushWayInv(s, log, hash, c, c, k);
      FlushWayMidway(before, s, log, c, k);
      FlushWayKeepsWays(s, c, k);
      FlushWaysInv(before, FlushWay(s, c, k), FlushWayLog(s, log, c, k), hash, c, k + 1);
    }
  }

  lemma {:induction false} MidwaySizes(before: State, s: State, log: Log, c: nat, k: nat)
    requires Midway(before, s, log, c, k)
    ensures c < |s.cpus| && |s.cpus[c].ways| == SLOTS && log.Keys == s.objs.Keys
  {
  }

  lemma {:induction false} StartFlushInv(s: State, log: Log, hash: Hash, c: nat)
    requires Inv(s, log, hash, -1) && c < |s.cpus|
    ensures Inv(StartFlush(s, c), log, hash, c) && Midway(StartFlush(s, c), StartFlush(s, c), log, c, 0)
  {
    hide TraceInv, Conserved, QueueInv;
    InertInv(s, StartFlush(s, c), log, hash, -1, c, c);
  }

  lemma {:induction false} BehindSame(a: seq<Cpu>, b: seq<Cpu>, g: int)
    requires |a| == |b| && forall c :: 0 <= c < |a| ==> a[c].localEpoch == b[c].localEpoch
    ensures Behind(a, g) == Behind(b, g)
  {
    if a != [] {
      BehindSame(a[..|a| - 1], b[..|b| - 1], g);
    }
  }

  /** The epochs after a flush. */
  lemma {:induction false} EndFlushEpochs(before: State, s: State, log: Log, c: nat)
    requires EpochInv(before) && c < |before.cpus| && before.cpus[c].localEpoch != before.globalEpoch
    requires Midway(StartFlush(before, c), s, log, c, SLOTS)
    ensures EpochInv(EndFlush(s))
    ensures EndFlush(s).globalEpoch == s.globalEpoch ||
      (EndFlush(s).globalEpoch == s.globalEpoch + 1 &&
       forall d :: 0 <= d < |s.cpus| ==> s.cpus[d].localEpoch == s.globalEpoch)
  {
    var g := before.globalEpoch;
    BehindUpdate(before.cpus, c, StartFlush(before, c).cpus[c], g);
    BehindSame(s.cpus, StartFlush(before, c).cpus, g);
    if s.left - 1 == 0 {
      BehindNone(s.cpus, g);
      BehindAll(s.cpus, g + 1);
    }
  }

  lemma {:induction false} SawFlushTrace(before: State, s: State, s': State, log: Log, hash: Hash, c: nat, o: Id)
    requires c < |before.cpus| && Inv(s, log, hash, c) && Midway(StartFlush(before, c), s, log, c, SLOTS) && o in s.objs
    requires s'.cpus == s.cpus && s'.globalEpoch >= s.globalEpoch
    ensures TraceInv(s', hash, o, s.objs[o], SawFlush(log, before, c)[o], -1)
  {
    assert TraceInv(s, hash, o, s.objs[o], log[o], c);
    assert forall x :: Delta(s.cpus[c], hash, x) == 0;
    assert s.cpus[c].localEpoch == s.globalEpoch;
    hide Delta, Inv;
  }

  /** The end of a flush keeps tables, counts and queues in shape. */
  lemma {:induction false} EndFlushShape(before: State, s: State, log: Log, hash: Hash, c: nat)
    requires c < |before.cpus| && Inv(s, log, hash, c) && Midway(StartFlush(before, c), s, log, c, SLOTS)
    requires EndFlush(s).globalEpoch == s.globalEpoch ||
      (EndFlush(s).globalEpoch == s.globalEpoch + 1 &&
       forall d :: 0 <= d < |s.cpus| ==> s.cpus[d].localEpoch == s.globalEpoch)
    ensures Sized(EndFlush(s), SawFlush(log, before, c), hash)
  {
    hide TraceInv, Conserved, QueueInv;
  }

  lemma {:induction false} EndFlushQueues(before: State, s: State, log: Log, c: nat)
    requires QueueInv(s, log) && log.Keys == before.objs.Keys
    ensures QueueInv(EndFlush(s), SawFlush(log, before, c))
  {
    hide NoDup;
  }

  lemma {:induction false} EndFlushInv(before: State, s: State, log: Log, hash: Hash, c: nat)
    requires EpochInv(before) && c < |before.cpus| && before.cpus[c].localEpoch != before.globalEpoch
    requires Inv(s, log, hash, c) && Midway(StartFlush(before, c), s, log, c, SLOTS)
    ensures Inv(EndFlush(s), SawFlush(log, before, c), hash, -1) && EpochInv(EndFlush(s))
  {
    EndFlushEpochs(before, s, log, c);
    hide TraceInv, Conserved, EpochInv, QueueInv, Sized;
    MidwaySizes(StartFlush(before, c), s, log, c, SLOTS);
    MidwayObjs(before, s, log, c);
    var s', log' := EndFlush(s), SawFlush(log, before, c);
    EndFlushShape(before, s, log, hash, c);
    EndFlushQueues(before, s, log, c);
    hide Midway;
    forall o | o in s.objs
      ensures TraceInv(s', hash, o, s'.objs[o], log'[o], -1) && Conserved(s', hash, o, s'.objs[o], log'[o])
    {
      SawFlushTrace(before, s, s', log, hash, c, o);
      CountsAsBefore(s, s', hash, o, s.objs[o], log[o], log'[o]);
    }
  }

  lemma {:induction false} MidwayObjs(before: State, s: State, log: Log, c: nat)
    requires c < |before.cpus| && Midway(StartFlush(before, c), s, log, c, SLOTS)
    ensures log.Keys == s.objs.Keys == before.objs.Keys
  {
  }

  lemma {:induction false} CountsAsBefore(s: State, s': State, hash: Hash, o: Id, ob: Obj, t: Trace, t': Trace)
    requires Conserved(s, hash, o, ob, t) && s'.cpus == s.cpus && t'.net == t.net
    ensures Conserved(s', hash, o, ob, t')
  {
  }

  /** flush keeps the invariant. */
  lemma {:induction false} FlushInv(s: State, log: Log, hash: Hash, c: nat)
    requires Inv(s, log, hash, -1) && EpochInv(s) && c < |s.cpus|
    ensures WaysOk(s) && log.Keys == s.objs.Keys
    ensures Inv(Flush(s, c), FlushLog(s, log, c), hash, -1) && EpochInv(Flush(s, c))
  {
    assert WaysOk(s) && log.Keys == s.objs.Keys;
    if s.globalEpoch != s.cpus[c].localEpoch {
      var s1 := StartFlush(s, c);
      assert WaysOk(s1);
      hide Inv, EpochInv, Midway, WaysOk, StartFlush, EndFlush, SawFlush;
      StartFlushInv(s, log, hash, c);
      FlushWaysInv(s1, s1, log, hash, c, 0);
      FlushWaysLogKeys(s1, log, c, 0);
      EndFlushInv(s, FlushWays(s1, c, 0), FlushWaysLog(s1, log, c, 0), hash, c);
    }
  }

  // ----- review -----

  lemma {:induction false} RemovedQueue(q: seq<Id>, i: nat)
    requires i < |q| && NoDup(q)
    ensures NoDup(Removed(q, i)) && q[i] !in Removed(q, i)
    ensures forall x :: x in q && x != q[i] ==> x in Removed(q, i)
    ensures forall x :: x in Removed(q, i) ==> x in q
  {
    var r := Removed(q, i);
    assert forall j :: 0 <= j < |r| ==> r[j] == if j < i then q[j] else q[j + 1];
    forall x | x in q && x != q[i] ensures x in r {
      var j :| 0 <= j < |q| && q[j] == x;
      assert r[if j < i then j else j - 1] == x;
    }
  }

  ghost predicate OnQueue(s: State, c: nat, i: nat) {
    c < |s.cpus| && i < |s.cpus[c].queue| && s.cpus[c].queue[i] in s.objs
  }

  lemma {:induction false} UnqueueQueue(s: State, log: Log, c: nat, i: nat)
    requires QueueInv(s, log) && OnQueue(s, c, i)
    ensures QueueInv(Unqueue(s, c, i), log)
  {
    var q, o, s' := s.cpus[c].queue, s.cpus[c].queue[i], Unqueue(s, c, i);
    RemovedQueue(q, i);
    hide NoDup, Removed;
    forall d, j | 0 <= d < |s'.cpus| && 0 <= j < |s'.cpus[d].queue|
      ensures s'.cpus[d].queue[j] in s'.objs && s'.objs[s'.cpus[d].queue[j]].reviewEpoch != 0 &&
        log[s'.cpus[d].queue[j]].owner == d
    {
      var x := s'.cpus[d].queue[j];
      if d == c {
        assert x in Removed(q, i);
        assert x in q;
      } else {
        assert s.cpus[d].queue[j] == x && log[x].owner == d;
        assert log[o].owner == c;
      }
    }
  }

  lemma {:induction false} UnqueueInv(s: State, log: Log, hash: Hash, c: nat, i: nat)
    requires Inv(s, log, hash, -1) && OnQueue(s, c, i)
    ensures Inv(Unqueue(s, c, i), log, hash, -1)
  {
    var s' := Unqueue(s, c, i);
    hide TraceInv, Conserved, QueueInv;
    UnqueueQueue(s, log, c, i);
    assert Sized(s', log, hash);
    forall o | o in s.objs
      ensures TraceInv(s', hash, o, s'.objs[o], log[o], -1) && Conserved(s', hash, o, s'.objs[o], log[o])
    {
      SameWays(s, s', hash, c, o, s.objs[o], s'.objs[o], log[o]);
    }
  }

  /** Only the queue of c and one review epoch, now zero, differ. */
  lemma {:induction false} SameWays(s: State, s': State, hash: Hash, c: nat, o: Id, ob: Obj, ob': Obj, t: Trace)
    requires c < |s.cpus| == |s'.cpus| && s'.globalEpoch == s.globalEpoch &&
      s'.cpus == s.cpus[c := s.cpus[c].(queue := s'.cpus[c].queue)]
    requires TraceInv(s, hash, o, ob, t, -1) && Conserved(s, hash, o, ob, t)
    requires ob' == ob || ob' == ob.(reviewEpoch := 0)
    ensures TraceInv(s', hash, o, ob', t, -1) && Conserved(s', hash, o, ob', t)
  {
    hide TraceInv, Conserved;
    QueueOnlyDeltas(s, s', hash, c, o);
    QueueOnlyTrace(s, s', hash, c, o, ob, ob', t);
    hide Delta, Sum;
    SumUpdate(s.cpus, c, s'.cpus[c], hash, o);
    CountsAsBefore2(s, hash, o, ob, ob', t, t);
    CountsBySum(s, s', hash, o, ob', t);
  }

  lemma {:induction false} QueueOnlyDeltas(s: State, s': State, hash: Hash, c: nat, o: Id)
    requires c < |s.cpus| == |s'.cpus| && s'.cpus == s.cpus[c := s.cpus[c].(queue := s'.cpus[c].queue)]
    ensures forall d :: 0 <= d < |s.cpus| ==>
      Delta(s'.cpus[d], hash, o) == Delta(s.cpus[d], hash, o) && s'.cpus[d].localEpoch == s.cpus[d].localEpoch
  {
  }

  lemma {:induction false} QueueOnlyTrace(s: State, s': State, hash: Hash, c: nat, o: Id, ob: Obj, ob': Obj, t: Trace)
    requires c < |s.cpus| == |s'.cpus| && s'.globalEpoch == s.globalEpoch && (ob' == ob || ob' == ob.(reviewEpoch := 0))
    requires forall d :: 0 <= d < |s.cpus| ==>
      Delta(s'.cpus[d], hash, o) == Delta(s.cpus[d], hash, o) && s'.cpus[d].localEpoch == s.cpus[d].localEpoch
    requires TraceInv(s, hash, o, ob, t, -1)
    ensures TraceInv(s', hash, o, ob', t, -1)
  {
    hide Delta;
  }

  lemma {:induction false} CountsBySum(s: State, s': State, hash: Hash, o: Id, ob: Obj, t: Trace)
    requires Conserved(s, hash, o, ob, t) && Sum(s'.cpus, hash, o) == Sum(s.cpus, hash, o)
    ensures Conserved(s', hash, o, ob, t)
  {
  }

  function Requeued(t: Trace, epoch: int, c: nat): Trace {
    Trace(t.net, false, false, {}, epoch, c)
  }

  lemma {:induction false} PutBackQueue(s: State, log: Log, c: nat, o: Id, epoch: int)
    requires QueueInv(s, log) && c < |s.cpus| && o in s.objs && s.objs[o].reviewEpoch == 0 && epoch >= 1
    ensures QueueInv(PutBack(s, c, o, epoch), log[o := Requeued(log[o], epoch, c)])
  {
    var q, s', log' := s.cpus[c].queue, PutBack(s, c, o, epoch), log[o := Requeued(log[o], epoch, c)];
    assert o !in q;
    assert s'.cpus[c].queue == q + [o] && (q + [o])[|q|] == o;
    forall x | x in s'.objs && s'.objs[x].reviewEpoch != 0
      ensures log'[x].owner < |s'.cpus| && x in s'.cpus[log'[x].owner].queue
    {
      if x != o {
        assert x in s.cpus[log[x].owner].queue;
      }
    }
  }

  lemma {:induction false} PutBackInv(s: State, log: Log, hash: Hash, c: nat, o: Id)
    requires Inv(s, log, hash, -1) && c < |s.cpus| && o in s.objs && s.objs[o].reviewEpoch == 0 &&
      s.objs[o].refcount == 0
    ensures Inv(PutBack(s, c, o, s.globalEpoch), log[o := Requeued(log[o], s.globalEpoch, c)], hash, -1)
  {
    var s', log' := PutBack(s, c, o, s.globalEpoch), log[o := Requeued(log[o], s.globalEpoch, c)];
    hide Conserved, QueueInv;
    PutBackQueue(s, log, c, o, s.globalEpoch);
    assert Sized(s', log', hash);
    forall x | x in s.objs
      ensures TraceInv(s', hash, x, s'.objs[x], log'[x], -1) && Conserved(s', hash, x, s'.objs[x], log'[x])
    {
      if x == o {
        SameWays(s, s', hash, c, o, s.objs[o], s.objs[o], log[o]);
        CountsAsBefore2(s', hash, o, s.objs[o], s'.objs[o], log[o], log'[o]);
      } else {
        SameWays(s, s', hash, c, x, s.objs[x], s'.objs[x], log[x]);
      }
    }
  }

  lemma {:induction false} CountsAsBefore2(s: State, hash: Hash, o: Id, ob: Obj, ob': Obj, t: Trace, t': Trace)
    requires Conserved(s, hash, o, ob, t) && ob'.refcount == ob.refcount && t'.net == t.net
    ensures Conserved(s, hash, o, ob', t')
  {
  }

  lemma {:induction false} QueuesNamed(s: State, log: Log, c: nat)
    requires QueueInv(s, log) && c < |s.cpus|
    ensures QueueNamed(s, c)
  {
  }

  /** The walk keeps the invariant; the one object it may put back starts afresh. */
  lemma {:induction false} WalkInv(s: State, log: Log, hash: Hash, c: nat, i: nat)
    requires Inv(s, log, hash, -1) && QueueNamed(s, c)
    ensures var r := Walk(s, c, s.globalEpoch, i);
            (r.requeued.Some? ==> r.requeued.value in log) && r.s.globalEpoch == s.globalEpoch &&
            Inv(r.s,
                if r.requeued.Some? then log[r.requeued.value := Requeued(log[r.requeued.value], s.globalEpoch, c)]
                else log,
                hash, -1)
    decreases |s.cpus[c].queue| - i
  {
    if i < |s.cpus[c].queue| {
      var o, s1 := s.cpus[c].queue[i], Unqueue(s, c, i);
      KeysOf(s, log, hash, -1);
      hide Inv;
      match Judge(s.objs[o], s.globalEpoch)
      case Later => WalkInv(s, log, hash, c, i + 1);
      case Drop =>
        UnqueueInv(s, log, hash, c, i);
        WalkInv(s1, log, hash, c, i);
      case Requeue =>
        UnqueueInv(s, log, hash, c, i);
        PutBackInv(s1, log, hash, c, o);
      case Free =>
        UnqueueInv(s, log, hash, c, i);
        WalkInv(s1, log, hash, c, i);
    }
  }

  /** Whatever the walk frees was due, clean and at zero when the walk began. */
  lemma {:induction false} RestOf(q: seq<Id>, i: nat)
    requires NoDup(q) && i < |q|
    ensures forall x :: x in q[i + 1..] ==> x in q[i..] && x != q[i]
  {
  }

  lemma {:induction false} WalkFreed(s: State, c: nat, epoch: int, i: nat)
    requires QueueNamed(s, c) && NoDup(s.cpus[c].queue)
    ensures forall o :: o in Walk(s, c, epoch, i).freed ==>
      o in s.objs && o in s.cpus[c].queue[if i <= |s.cpus[c].queue| then i else 0..] && Judge(s.objs[o], epoch) == Free
    decreases |s.cpus[c].queue| - i
  {
    var q := s.cpus[c].queue;
    if i < |q| {
      var o, s1 := q[i], Unqueue(s, c, i);
      RestOf(q, i);
      match Judge(s.objs[o], epoch)
      case Later => WalkFreed(s, c, epoch, i + 1);
      case Requeue =>
      case Drop =>
        RemovedQueue(q, i);
        assert Removed(q, i)[i..] == q[i + 1..];
        WalkFreed(s1, c, epoch, i);
      case Free =>
        RemovedQueue(q, i);
        assert Removed(q, i)[i..] == q[i + 1..];
        WalkFreed(s1, c, epoch, i);
    }
  }

  lemma {:induction false} ReviewInv(s: State, log: Log, hash: Hash, c: nat)
    requires Inv(s, log, hash, -1) && EpochInv(s) && c < |s.cpus|
    ensures QueueNamed(s, c)
    ensures Inv(Review(s, c).s, ReviewLog(s, log, c), hash, -1) && EpochInv(Review(s, c).s)
  {
    QueuesNamed(s, log, c);
    hide Inv, EpochInv, Walk;
    WalkInv(s, log, hash, c, 0);
    WalkEpochs(s, c, s.globalEpoch, 0);
    EpochsSame(s, Review(s, c).s);
  }

  lemma {:induction false} WalkEpochs(s: State, c: nat, epoch: int, i: nat)
    requires QueueNamed(s, c)
    ensures var s' := Walk(s, c, epoch, i).s;
            s'.globalEpoch == s.globalEpoch && s'.left == s.left && |s'.cpus| == |s.cpus| &&
            (forall d :: 0 <= d < |s.cpus| ==>
              s'.cpus[d].localEpoch == s.cpus[d].localEpoch && s'.cpus[d].ways == s.cpus[d].ways)
    decreases |s.cpus[c].queue| - i
  {
    if i < |s.cpus[c].queue| {
      var o, s1 := s.cpus[c].queue[i], Unqueue(s, c, i);
      assert QueueNamed(s1, c);
      match Judge(s.objs[o], epoch)
      case Later => WalkEpochs(s, c, epoch, i + 1);
      case Requeue =>
      case Drop => WalkEpochs(s1, c, epoch, i);
      case Free => WalkEpochs(s1, c, epoch, i);
    }
  }

  lemma {:induction false} EpochsSame(s: State, s': State)
    requires EpochInv(s) && s'.globalEpoch == s.globalEpoch && s'.left == s.left && |s'.cpus| == |s.cpus|
    requires forall d :: 0 <= d < |s.cpus| ==> s'.cpus[d].localEpoch == s.cpus[d].localEpoch
    ensures EpochInv(s')
  {
    BehindSame(s.cpus, s'.cpus, s.globalEpoch);
  }

  /** An object whose review is due has seen every CPU complete a flush since it was queued. */
  lemma {:induction false} DueIsFlushed(s: State, log: Log, hash: Hash, o: Id, d: nat)
    requires Inv(s, log, hash, -1) && o in s.objs && d < |s.cpus|
    requires s.objs[o].reviewEpoch != 0 && s.objs[o].reviewEpoch <= s.globalEpoch
    ensures o in log && d in log[o].flushed
  {
    hide Conserved, QueueInv;
    assert TraceInv(s, hash, o, s.objs[o], log[o], -1);
    assert s.globalEpoch - 1 <= s.cpus[d].localEpoch;
  }

  /** Only an object that is queued and due is changed by the walk. */
  lemma {:induction false} WalkDecides(s: State, c: nat, epoch: int, i: nat, o: Id)
    requires QueueNamed(s, c) && o in s.objs
    ensures o in Walk(s, c, epoch, i).s.objs
    ensures Walk(s, c, epoch, i).s.objs[o] != s.objs[o] ==> o in s.cpus[c].queue && s.objs[o].reviewEpoch <= epoch
    decreases |s.cpus[c].queue| - i
  {
    if i < |s.cpus[c].queue| {
      var x, s1 := s.cpus[c].queue[i], Unqueue(s, c, i);
      assert QueueNamed(s1, c);
      match Judge(s.objs[x], epoch)
      case Later => WalkDecides(s, c, epoch, i + 1, o);
      case Requeue =>
      case Drop => WalkDecides(s1, c, epoch, i, o);
      case Free => WalkDecides(s1, c, epoch, i, o);
    }
  }

  /** Every decision of a review, to drop, to put back or to free, is about an object that is due. */
  lemma {:induction false} DecisionIsDue(s: State, log: Log, hash: Hash, c: nat, o: Id)
    requires Inv(s, log, hash, -1) && EpochInv(s) && QueueNamed(s, c) && o in s.objs
    ensures o in Review(s, c).s.objs
    ensures Review(s, c).s.objs[o] != s.objs[o] ==>
      s.objs[o].reviewEpoch != 0 && s.objs[o].reviewEpoch <= s.globalEpoch
  {
    hide TraceInv, Conserved, EpochInv;
    WalkDecides(s, c, s.globalEpoch, 0, o);
    assert forall j :: 0 <= j < |s.cpus[c].queue| ==> s.objs[s.cpus[c].queue[j]].reviewEpoch != 0;
  }

  lemma {:induction false} FreedIsClean(s: State, log: Log, c: nat, o: Id)
    requires QueueInv(s, log) && QueueNamed(s, c) && o in Review(s, c).freed
    ensures o in s.objs && s.objs[o].reviewEpoch != 0 && Judge(s.objs[o], s.globalEpoch) == Free
  {
    WalkFreed(s, c, s.globalEpoch, 0);
    var j :| 0 <= j < |s.cpus[c].queue| && s.cpus[c].queue[j] == o;
  }

  /** What is known of an object that is clean, due and at zero. */
  lemma {:induction false} CleanState(s: State, log: Log, hash: Hash, o: Id)
    requires Inv(s, log, hash, -1) && o in s.objs
    requires s.objs[o].reviewEpoch != 0 && Judge(s.objs[o], s.globalEpoch) == Free
    ensures o in log && !log[o].evicted && forall d :: 0 <= d < |s.cpus| ==> d in log[o].flushed
    ensures !log[o].poked ==> forall d :: 0 <= d < |s.cpus| ==> Delta(s.cpus[d], hash, o) == 0
    ensures log[o].net % WORD == Sum(s.cpus, hash, o) % WORD
  {
    hide Sum, Delta, QueueInv;
    assert TraceInv(s, hash, o, s.objs[o], log[o], -1) && Conserved(s, hash, o, s.objs[o], log[o]);
    hide Inv;
    forall d | 0 <= d < |s.cpus| ensures d in log[o].flushed {
      DueIsFlushed(s, log, hash, o, d);
    }
  }

  /** An object onzero is called for: its count is 0, no eviction has touched it and every CPU
      has flushed since it was queued; if nobody used it either, its true count is 0. */
  lemma {:induction false} OnzeroState(s: State, log: Log, hash: Hash, c: nat, o: Id)
    requires Inv(s, log, hash, -1) && EpochInv(s) && QueueNamed(s, c) && o in Review(s, c).freed
    ensures o in s.objs && o in log && s.objs[o].refcount == 0 && s.objs[o].reviewEpoch != 0
    ensures s.objs[o].reviewEpoch <= s.globalEpoch
    ensures !log[o].evicted && (forall d :: 0 <= d < |s.cpus| ==> d in log[o].flushed)
    ensures !log[o].poked ==> log[o].net % WORD == 0
  {
    assert QueueInv(s, log);
    hide Inv, QueueInv, EpochInv, Review, QueueNamed, Sum, Delta;
    FreedIsClean(s, log, c, o);
    CleanState(s, log, hash, o);
    if !log[o].poked {
      SumZero(s.cpus, hash, o);
    }
  }
}
