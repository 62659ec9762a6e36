/** Whole runs of the reference-count cache, stated without the bookkeeping of the proofs. */
module RefcacheRuns {
  import opened Common
  import opened RefcacheSpec
  import opened RefcacheProofs

  datatype Event = IncOn(cpu: nat, obj: Id) | DecOn(cpu: nat, obj: Id) | FlushOn(cpu: nat) | ReviewOn(cpu: nat)

  predicate Uses(e: Event, o: Id) {
    (e.IncOn? || e.DecOn?) && e.obj == o
  }

  function Amount(e: Event): int {
    if e.IncOn? then 1 else -1
  }

  /** What a caller owes: a CPU and an object that exist; and the assert in __evict. */
  predicate Legal(s: State, hash: Hash, e: Event) {
    e.cpu < |s.cpus| && (e.IncOn? || e.DecOn? ==> CanBump(s, hash, e.cpu, e.obj))
  }

  ghost predicate Defined(s: State) {
    WaysOk(s) && forall c :: 0 <= c < |s.cpus| ==> QueueNamed(s, c)
  }

  ghost function Step(s: State, hash: Hash, e: Event): State
    requires Legal(s, hash, e) && Defined(s)
  {
    match e
    case IncOn(c, o) => Bump(s, hash, c, o, 1)
    case DecOn(c, o) => Bump(s, hash, c, o, -1)
    case FlushOn(c) => Flush(s, c)
    case ReviewOn(c) => Review(s, c).s
  }

  ghost function StepLog(s: State, log: Log, hash: Hash, e: Event): Log
    requires Legal(s, hash, e) && Defined(s) && log.Keys == s.objs.Keys
  {
    match e
    case IncOn(c, o) => BumpLog(s, log, hash, c, o, 1)
    case DecOn(c, o) => BumpLog(s, log, hash, c, o, -1)
    case FlushOn(c) => FlushLog(s, log, c)
    case ReviewOn(c) => ReviewLog(s, log, c)
  }

  /** refcache_init on n CPUs, refcache_refobj_init on the objects. */
  function Init(n: nat, ids: set<Id>): State {
    State(1, n, seq(n, i => Cpu(seq(SLOTS, k => Way(None, 0)), 0, [])), map o | o in ids :: Obj(0, 0, false))
  }

  /** A run: states and the events between them. */
  ghost predicate IsRun(n: nat, ids: set<Id>, hash: Hash, states: seq<State>, events: seq<Event>) {
    n >= 1 && Hashes(hash) && |states| == |events| + 1 && states[0] == Init(n, ids) &&
    forall i :: 0 <= i < |events| ==>
      Legal(states[i], hash, events[i]) && (Defined(states[i]) ==> states[i + 1] == Step(states[i], hash, events[i]))
  }

  lemma {:induction false} StepInv(s: State, log: Log, hash: Hash, e: Event)
    requires Inv(s, log, hash, -1) && EpochInv(s) && Legal(s, hash, e)
    ensures Defined(s) && log.Keys == s.objs.Keys
    ensures Inv(Step(s, hash, e), StepLog(s, log, hash, e), hash, -1) && EpochInv(Step(s, hash, e))
  {
    assert Defined(s) && log.Keys == s.objs.Keys;
    hide Inv, EpochInv, Defined, Bump, BumpLog, Flush, FlushLog, Review, ReviewLog;
    match e
    case IncOn(c, o) => BumpInv(s, log, hash, c, o, 1); BumpEpochs(s, hash, c, o, 1);
    case DecOn(c, o) => BumpInv(s, log, hash, c, o, -1); BumpEpochs(s, hash, c, o, -1);
    case FlushOn(c) => FlushInv(s, log, hash, c);
    case ReviewOn(c) => ReviewInv(s, log, hash, c);
  }

  lemma {:induction false} BumpEpochs(s: State, hash: Hash, c: nat, o: Id, amount: int)
    requires EpochInv(s) && CanBump(s, hash, c, o)
    ensures EpochInv(Bump(s, hash, c, o, amount))
  {
    EpochsSame(s, Bump(s, hash, c, o, amount));
  }

  function InitLog(ids: set<Id>): Log {
    map o | o in ids :: Trace(0, false, false, {}, 0, 0)
  }

  lemma {:induction false} InitInv(n: nat, ids: set<Id>, hash: Hash)
    requires n >= 1 && Hashes(hash)
    ensures Inv(Init(n, ids), InitLog(ids), hash, -1) && EpochInv(Init(n, ids))
  {
    var s := Init(n, ids);
    BehindAll(s.cpus, 1);
    forall o | o in ids ensures Sum(s.cpus, hash, o) == 0 {
      SumZero(s.cpus, hash, o);
    }
  }

  /** The bookkeeping along a run. */
  ghost function LogAt(n: nat, ids: set<Id>, hash: Hash, states: seq<State>, events: seq<Event>, i: nat): (log: Log)
    requires IsRun(n, ids, hash, states, events) && i <= |events|
    ensures log.Keys == states[i].objs.Keys && Inv(states[i], log, hash, -1) && EpochInv(states[i])
  {
    hide Inv, EpochInv, Defined;
    if i == 0 then
      InitInv(n, ids, hash);
      InitLog(ids)
    else
      var log := LogAt(n, ids, hash, states, events, i - 1);
      StepInv(states[i - 1], log, hash, events[i - 1]);
      KeysOf(Step(states[i - 1], hash, events[i - 1]), StepLog(states[i - 1], log, hash, events[i - 1]), hash, -1);
      StepLog(states[i - 1], log, hash, events[i - 1])
  }

  // ----- how one step changes the bookkeeping of an object -----

  /** What happens to the record of an object that an eviction touches or does not touch. */
  ghost predicate Ages(t: Trace, t': Trace, ob: Obj, ob': Obj, touched: bool) {
    t'.net == t.net &&
    (ob.reviewEpoch != 0 ==>
      ob'.reviewEpoch != 0 && t'.flushed == t.flushed && t'.poked == t.poked &&
      (t'.evicted <==> t.evicted || touched)) &&
    (ob.reviewEpoch == 0 && ob'.reviewEpoch != 0 ==> t'.flushed == {} && !t'.poked && !t'.evicted)
  }

  lemma {:induction false} EvictAges(s: State, log: Log, c: nat, k: nat, o: Id)
    requires CanEvict(s, c, k) && log.Keys == s.objs.Keys && o in log && s.cpus[c].localEpoch >= 0
    ensures Ages(log[o], EvictLog(s, log, c, k)[o], s.objs[o], Evict(s, c, k).objs[o], s.cpus[c].ways[k].obj == Some(o))
  {
  }

  predicate Dirty(w: Way, o: Id) {
    w.obj == Some(o) && w.delta != 0
  }

  /** A way of c, from number k on, caches a delta for o that is not zero. */
  ghost predicate Caches(s: State, c: nat, k: nat, o: Id) {
    c < |s.cpus| && exists j :: k <= j < |s.cpus[c].ways| && Dirty(s.cpus[c].ways[j], o)
  }

  lemma {:induction false} FlushWayAges(s: State, log: Log, c: nat, k: nat, o: Id)
    requires WaysOk(s) && c < |s.cpus| && k < SLOTS && log.Keys == s.objs.Keys && o in log && s.cpus[c].localEpoch >= 0
    ensures FlushWayLog(s, log, c, k).Keys == log.Keys == FlushWay(s, c, k).objs.Keys
    ensures
      Ages(log[o], FlushWayLog(s, log, c, k)[o], s.objs[o], FlushWay(s, c, k).objs[o], Dirty(s.cpus[c].ways[k], o))
    ensures FlushWay(s, c, k).cpus[c].localEpoch == s.cpus[c].localEpoch
    ensures Caches(s, c, k, o) <==> Dirty(s.cpus[c].ways[k], o) || Caches(FlushWay(s, c, k), c, k + 1, o)
  {
    if s.cpus[c].ways[k].obj.Some? && s.cpus[c].ways[k].delta != 0 {
      EvictAges(s, log, c, k, o);
    }
    hide Ages;
    var s1 := FlushWay(s, c, k);
    assert forall j :: k < j < SLOTS ==> s1.cpus[c].ways[j] == s.cpus[c].ways[j];
    if Caches(s, c, k, o) {
      var j :| k <= j < SLOTS && Dirty(s.cpus[c].ways[j], o);
      assert j > k ==> Dirty(s1.cpus[c].ways[j], o);
    }
  }

  lemma {:induction false} AgesTrans(t: Trace, t1: Trace, t': Trace, ob: Obj, ob1: Obj, ob': Obj, a: bool, b: bool)
    requires Ages(t, t1, ob, ob1, a) && Ages(t1, t', ob1, ob', b)
    requires b && ob.reviewEpoch == 0 ==> ob1.reviewEpoch == 0
    ensures Ages(t, t', ob, ob', a || b)
  {
  }

  lemma {:induction false} FlushWaysAges(s: State, log: Log, c: nat, k: nat, o: Id)
    requires WaysOk(s) && c < |s.cpus| && k <= SLOTS && log.Keys == s.objs.Keys && o in log && s.cpus[c].localEpoch >= 0
    requires forall i, j :: k <= i < j < SLOTS && Dirty(s.cpus[c].ways[i], o) ==> !Dirty(s.cpus[c].ways[j], o)
    ensures FlushWaysLog(s, log, c, k).Keys == log.Keys == FlushWays(s, c, k).objs.Keys
    ensures Ages(log[o], FlushWaysLog(s, log, c, k)[o], s.objs[o], FlushWays(s, c, k).objs[o], Caches(s, c, k, o))
    decreases SLOTS - k
  {
    if k < SLOTS {
      FlushWayKeepsWays(s, c, k);
      FlushWayAges(s, log, c, k, o);
      var s1, log1 := FlushWay(s, c, k), FlushWayLog(s, log, c, k);
      assert forall j :: k < j < SLOTS ==> s1.cpus[c].ways[j] == s.cpus[c].ways[j];
      assert Dirty(s.cpus[c].ways[k], o) || s1.objs[o] == s.objs[o];
      hide WaysOk, FlushWay, FlushWayLog, Ages, Dirty;
      FlushWaysAges(s1, log1, c, k + 1, o);
      AgesTrans(
        log[o], log1[o], FlushWaysLog(s1, log1, c, k + 1)[o], s.objs[o], s1.objs[o], FlushWays(s1, c, k + 1).objs[o],
        Dirty(s.cpus[c].ways[k], o), Caches(s1, c, k + 1, o));
    }
  }

  /** Step e of the run puts o on a review queue, or puts it back there. */
  ghost predicate QueuedBy(s: State, hash: Hash, e: Event, o: Id)
    requires Legal(s, hash, e) && Defined(s)
  {
    var s' := Step(s, hash, e);
    o in s.objs && o in s'.objs &&
    ((s.objs[o].reviewEpoch == 0 && s'.objs[o].reviewEpoch != 0) ||
     (e.ReviewOn? && Review(s, e.cpu).requeued == Some(o)))
  }

  /** A flush that is not a repetition within the epoch. */
  predicate Flushes(s: State, e: Event, d: nat) {
    e == FlushOn(d) && d < |s.cpus| && s.cpus[d].localEpoch != s.globalEpoch
  }

  /** The step adds the delta that a CPU caches for o to its count: another object takes the way,
      or the CPU completes a flush with a delta that is not zero. */
  ghost predicate Evicts(s: State, hash: Hash, e: Event, o: Id) {
    e.cpu < |s.cpus| &&
    match e
    case FlushOn(c) => Flushes(s, e, c) && Caches(s, c, 0, o)
    case ReviewOn(_) => false
    case _ => e.obj != o && hash(e.obj) < |s.cpus[e.cpu].ways| && s.cpus[e.cpu].ways[hash(e.obj)].obj == Some(o)
  }

  /** What a step that does not queue o does to its record. */
  ghost predicate Carries(s: State, s': State, hash: Hash, e: Event, o: Id, t: Trace, t': Trace)
    requires o in s.objs && o in s'.objs
  {
    s'.objs[o].reviewEpoch != 0 ==>
      s.objs[o].reviewEpoch != 0 && (forall d :: d in t'.flushed <==> d in t.flushed || Flushes(s, e, d)) &&
      (t'.evicted <==> t.evicted || Evicts(s, hash, e, o)) && (t'.poked <==> t.poked || Uses(e, o))
  }

  ghost predicate StepFacts(s: State, log: Log, hash: Hash, e: Event, o: Id)
    requires Legal(s, hash, e) && Defined(s) && log.Keys == s.objs.Keys && o in s.objs
  {
    var s', log' := Step(s, hash, e), StepLog(s, log, hash, e);
    o in s'.objs && o in log' && log'[o].net == log[o].net + (if Uses(e, o) then Amount(e) else 0) &&
    Follows(s, s', hash, e, o, log[o], log'[o], QueuedBy(s, hash, e, o))
  }

  ghost predicate Follows(s: State, s': State, hash: Hash, e: Event, o: Id, t: Trace, t': Trace, queued: bool)
    requires o in s.objs && o in s'.objs
  {
    if queued then t'.flushed == {} && !t'.poked && !t'.evicted else Carries(s, s', hash, e, o, t, t')
  }

  /** The record of one object across a flush. */
  lemma {:induction false} FlushFollows(
    s: State, s': State, hash: Hash, e: Event, o: Id, t: Trace, t1: Trace, t': Trace)
    requires o in s.objs && o in s'.objs && e.FlushOn? && Flushes(s, e, e.cpu)
    requires Ages(t, t1, s.objs[o], s'.objs[o], Evicts(s, hash, e, o))
    requires t' == if s.objs[o].reviewEpoch != 0 then t1.(flushed := t1.flushed + {e.cpu}) else t1
    ensures Follows(s, s', hash, e, o, t, t', s.objs[o].reviewEpoch == 0 && s'.objs[o].reviewEpoch != 0)
    ensures t'.net == t.net
  {
    hide Evicts;
  }

  lemma {:induction false} BumpFacts(s: State, log: Log, hash: Hash, e: Event, o: Id)
    requires Legal(s, hash, e) && Defined(s) && log.Keys == s.objs.Keys && o in s.objs && (e.IncOn? || e.DecOn?)
    requires s.cpus[e.cpu].localEpoch >= 0
    ensures StepFacts(s, log, hash, e, o)
  {
    var w := s.cpus[e.cpu].ways[hash(e.obj)];
    if w.obj.Some? && w.obj.value != e.obj {
      EvictAges(s, log, e.cpu, hash(e.obj), o);
    }
  }

  lemma {:induction false} FlushFacts(s: State, log: Log, hash: Hash, e: Event, o: Id)
    requires Legal(s, hash, e) && Defined(s) && log.Keys == s.objs.Keys && o in s.objs && e.FlushOn? &&
      s.globalEpoch >= 0
    requires OneWay(s, e.cpu, o)
    ensures StepFacts(s, log, hash, e, o)
  {
    var c := e.cpu;
    if s.globalEpoch != s.cpus[c].localEpoch {
      var s1 := StartFlush(s, c);
      assert WaysOk(s1) && s1.objs == s.objs && s1.cpus[c].ways == s.cpus[c].ways;
      FlushWaysAges(s1, log, c, 0, o);
      FlushParts(s, log, c);
      var s2, log2 := FlushWays(s1, c, 0), FlushWaysLog(s1, log, c, 0);
      var s', log' := EndFlush(s2), SawFlush(log2, s, c);
      assert Caches(s1, c, 0, o) <==> Evicts(s, hash, e, o);
      hide FlushWays, FlushWaysLog, Flush, FlushLog, WaysOk, Follows, Ages, Evicts, Caches;
      assert Step(s, hash, e) == s' && StepLog(s, log, hash, e) == log' && s'.objs == s2.objs;
      FlushFollows(s, s', hash, e, o, log[o], log2[o], log'[o]);
    }
  }

  /** At most one way of c caches something for o. */
  ghost predicate OneWay(s: State, c: nat, o: Id)
    requires c < |s.cpus|
  {
    forall i, j :: 0 <= i < j < |s.cpus[c].ways| && Dirty(s.cpus[c].ways[i], o) ==> !Dirty(s.cpus[c].ways[j], o)
  }

  lemma {:induction false} SizedOneWay(s: State, log: Log, hash: Hash, c: nat, o: Id)
    requires Sized(s, log, hash) && c < |s.cpus|
    ensures OneWay(s, c, o)
  {
  }

  lemma {:induction false} FlushParts(s: State, log: Log, c: nat)
    requires WaysOk(s) && c < |s.cpus| && log.Keys == s.objs.Keys && s.globalEpoch != s.cpus[c].localEpoch &&
      WaysOk(StartFlush(s, c))
    ensures FlushWaysLog(StartFlush(s, c), log, c, 0).Keys == s.objs.Keys
    ensures Flush(s, c) == EndFlush(FlushWays(StartFlush(s, c), c, 0))
    ensures FlushLog(s, log, c) == SawFlush(FlushWaysLog(StartFlush(s, c), log, c, 0), s, c)
  {
    FlushWaysLogKeys(StartFlush(s, c), log, c, 0);
  }

  lemma {:induction false} WalkObjs(s: State, c: nat, epoch: int, i: nat, o: Id)
    requires QueueNamed(s, c) && o in s.objs
    ensures var r := Walk(s, c, epoch, i);
            o in r.s.objs &&
            (r.requeued != Some(o) ==>
              r.s.objs[o] == s.objs[o] || r.s.objs[o] == s.objs[o].(reviewEpoch := 0))
    decreases |s.cpus[c].queue| - i
  {
    if i < |s.cpus[c].queue| {
      var x, s1 := s.cpus[c].queue[i], Unqueue(s, c, i);
      assert QueueNamed(s1, c);
      match Judge(s.objs[x], epoch)
      case Later => WalkObjs(s, c, epoch, i + 1, o);
      case Requeue =>
      case Drop => WalkObjs(s1, c, epoch, i, o);
      case Free => WalkObjs(s1, c, epoch, i, o);
    }
  }

  lemma {:induction false} ReviewFacts(s: State, log: Log, hash: Hash, e: Event, o: Id)
    requires Legal(s, hash, e) && Defined(s) && log.Keys == s.objs.Keys && o in s.objs && e.ReviewOn?
    ensures StepFacts(s, log, hash, e, o)
  {
    WalkObjs(s, e.cpu, s.globalEpoch, 0, o);
  }

  lemma {:induction false} AllFacts(s: State, log: Log, hash: Hash, e: Event, o: Id)
    requires Legal(s, hash, e) && Inv(s, log, hash, -1) && EpochInv(s) && o in s.objs
    ensures Defined(s) && log.Keys == s.objs.Keys && StepFacts(s, log, hash, e, o)
  {
    StepInv(s, log, hash, e);
    assert s.globalEpoch >= 0 && s.cpus[e.cpu].localEpoch >= 0;
    SizedOneWay(s, log, hash, e.cpu, o);
    hide Inv, EpochInv, Defined, StepFacts, OneWay;
    match e
    case IncOn(_, _) => BumpFacts(s, log, hash, e, o);
    case DecOn(_, _) => BumpFacts(s, log, hash, e, o);
    case FlushOn(_) => FlushFacts(s, log, hash, e, o);
    case ReviewOn(_) => ReviewFacts(s, log, hash, e, o);
  }

  // ----- the theorems -----

  /** In every reachable state: incs minus decs is what the count and the caches hold together. */
  function Net(events: seq<Event>, o: Id): int {
    if events == [] then 0
    else
      var e := events[|events| - 1];
      Net(events[..|events| - 1], o) + if Uses(e, o) then Amount(e) else 0
  }

  lemma {:induction false} NetIs(
    n: nat, ids: set<Id>, hash: Hash, states: seq<State>, events: seq<Event>, i: nat, o: Id)
    requires IsRun(n, ids, hash, states, events) && i <= |events| && o in ids
    ensures o in states[i].objs && LogAt(n, ids, hash, states, events, i)[o].net == Net(events[..i], o)
  {
    hide Inv, EpochInv, Defined, Legal, StepFacts;
    if i == 0 {
      assert events[..0] == [];
    } else {
      NetIs(n, ids, hash, states, events, i - 1, o);
      var log := LogAt(n, ids, hash, states, events, i - 1);
      AllFacts(states[i - 1], log, hash, events[i - 1], o);
      FactsNet(states[i - 1], log, hash, events[i - 1], o);
      assert events[..i][..i - 1] == events[..i - 1];
    }
  }

  lemma {:induction false} FactsNet(s: State, log: Log, hash: Hash, e: Event, o: Id)
    requires Legal(s, hash, e) && Defined(s) && log.Keys == s.objs.Keys && o in s.objs && StepFacts(s, log, hash, e, o)
    ensures o in Step(s, hash, e).objs && o in StepLog(s, log, hash, e)
    ensures StepLog(s, log, hash, e)[o].net == log[o].net + (if Uses(e, o) then Amount(e) else 0)
  {
  }

  lemma {:induction false} Conservation(
    n: nat, ids: set<Id>, hash: Hash, states: seq<State>, events: seq<Event>, i: nat, o: Id)
    requires IsRun(n, ids, hash, states, events) && i <= |events| && o in ids
    ensures o in states[i].objs &&
      (states[i].objs[o].refcount + Sum(states[i].cpus, hash, o)) % WORD == Net(events[..i], o) % WORD
  {
    hide Inv, EpochInv, Net, Sum, Defined, Legal;
    NetIs(n, ids, hash, states, events, i, o);
    CountsUp(states[i], LogAt(n, ids, hash, states, events, i), hash, o);
  }

  lemma {:induction false} CountsUp(s: State, log: Log, hash: Hash, o: Id)
    requires Inv(s, log, hash, -1) && o in s.objs
    ensures o in log && (s.objs[o].refcount + Sum(s.cpus, hash, o)) % WORD == log[o].net % WORD
  {
    hide Sum;
    assert Conserved(s, hash, o, s.objs[o], log[o]);
  }

  ghost predicate QueuedAt(s: State, c: nat, j: nat, o: Id) {
    c < |s.cpus| && j < |s.cpus[c].queue| && s.cpus[c].queue[j] == o
  }

  /** In every reachable state: an object is on a queue, in exactly one place, iff its review
      epoch is not zero; every CPU is in the current epoch or one behind and `left` counts those. */
  lemma {:induction false} QueuesAndEpochs(
    n: nat, ids: set<Id>, hash: Hash, states: seq<State>, events: seq<Event>, i: nat, o: Id)
    requires IsRun(n, ids, hash, states, events) && i <= |events| && o in ids
    ensures Defined(states[i]) && EpochInv(states[i]) && o in states[i].objs
    ensures states[i].objs[o].reviewEpoch != 0 <==> exists c, j :: QueuedAt(states[i], c, j, o)
    ensures forall c, j, c', j' :: QueuedAt(states[i], c, j, o) && QueuedAt(states[i], c', j', o) ==> c == c' && j == j'
  {
    NetIs(n, ids, hash, states, events, i, o);
    var s, log := states[i], LogAt(n, ids, hash, states, events, i);
    hide EpochInv;
    if s.objs[o].reviewEpoch != 0 {
      var j :| 0 <= j < |s.cpus[log[o].owner].queue| && s.cpus[log[o].owner].queue[j] == o;
      assert QueuedAt(s, log[o].owner, j, o);
    }
  }

  /** The state after the last step before i that queued o, or 0. */
  ghost function LastQueued(
    n: nat, ids: set<Id>, hash: Hash, states: seq<State>, events: seq<Event>, i: nat, o: Id): (q: nat)
    requires IsRun(n, ids, hash, states, events) && i <= |events|
    ensures q <= i
  {
    hide Inv, EpochInv, Defined;
    if i == 0 then 0
    else
      var log := LogAt(n, ids, hash, states, events, i - 1);
      StepInv(states[i - 1], log, hash, events[i - 1]);
      if QueuedBy(states[i - 1], hash, events[i - 1], o) then i else LastQueued(n, ids, hash, states, events, i - 1, o)
  }

  /** CPU d completes a flush in one of the steps q .. i-1. */
  ghost predicate FlushedIn(states: seq<State>, events: seq<Event>, q: nat, i: nat, d: nat)
    requires i <= |events| && |states| == |events| + 1
  {
    exists k :: q <= k < i && Flushes(states[k], events[k], d)
  }

  /** Some step from q to i - 1 evicts o. */
  ghost predicate EvictedIn(hash: Hash, states: seq<State>, events: seq<Event>, q: nat, i: nat, o: Id)
    requires i <= |events| && |states| == |events| + 1
  {
    exists k :: q <= k < i && Evicts(states[k], hash, events[k], o)
  }

  /** The record of an object says exactly what happened in the run since step q. */
  ghost predicate Recorded(hash: Hash, states: seq<State>, events: seq<Event>, q: nat, i: nat, o: Id, t: Trace)
    requires q <= i <= |events| && |states| == |events| + 1
  {
    (forall d :: d in t.flushed <==> FlushedIn(states, events, q, i, d)) &&
    (t.poked <==> exists k :: q <= k < i && Uses(events[k], o)) &&
    (t.evicted <==> EvictedIn(hash, states, events, q, i, o)) &&
    (!t.evicted ==> forall k :: q <= k <= i ==> o in states[k].objs && states[k].objs[o].refcount == 0)
  }

  lemma {:induction false} History(
    n: nat, ids: set<Id>, hash: Hash, states: seq<State>, events: seq<Event>, i: nat, o: Id)
    requires IsRun(n, ids, hash, states, events) && i <= |events| && o in ids
    ensures o in states[i].objs
    ensures states[i].objs[o].reviewEpoch != 0 ==>
      var q := LastQueued(n, ids, hash, states, events, i, o);
      Recorded(hash, states, events, q, i, o, LogAt(n, ids, hash, states, events, i)[o])
  {
    hide Inv, EpochInv, Defined, Legal, StepFacts, Recorded;
    NetIs(n, ids, hash, states, events, i, o);
    if i > 0 {
      var s, e, log := states[i - 1], events[i - 1], LogAt(n, ids, hash, states, events, i - 1);
      NetIs(n, ids, hash, states, events, i - 1, o);
      AllFacts(s, log, hash, e, o);
      var log' := LogAt(n, ids, hash, states, events, i);
      var q := LastQueued(n, ids, hash, states, events, i - 1, o);
      CleanIsZero(states[i], log', hash, o);
      if QueuedBy(s, hash, e, o) {
        RecordedAtQueueing(states, events, hash, i, o, log, log'[o]);
      } else {
        History(n, ids, hash, states, events, i - 1, o);
        RecordedOneMore(states, events, hash, q, i, o, log, log'[o]);
      }
    }
  }

  /** A queued object no eviction touched is still at zero. */
  lemma {:induction false} CleanIsZero(s: State, log: Log, hash: Hash, o: Id)
    requires Inv(s, log, hash, -1) && o in s.objs
    ensures o in log && (s.objs[o].reviewEpoch != 0 && !log[o].evicted ==> s.objs[o].refcount == 0)
  {
    assert TraceInv(s, hash, o, s.objs[o], log[o], -1);
  }

  lemma {:induction false} RecordedAtQueueing(
    states: seq<State>, events: seq<Event>, hash: Hash, i: nat, o: Id, log: Log, t': Trace)
    requires 0 < i <= |events| && |states| == |events| + 1
    requires Legal(states[i - 1], hash, events[i - 1]) && Defined(states[i - 1]) &&
      log.Keys == states[i - 1].objs.Keys && o in states[i - 1].objs
    requires StepFacts(states[i - 1], log, hash, events[i - 1], o) && QueuedBy(states[i - 1], hash, events[i - 1], o)
    requires t' == StepLog(states[i - 1], log, hash, events[i - 1])[o]
    requires o in states[i].objs &&
      (states[i].objs[o].reviewEpoch != 0 && !t'.evicted ==> states[i].objs[o].refcount == 0)
    ensures states[i].objs[o].reviewEpoch != 0 ==> Recorded(hash, states, events, i, i, o, t')
  {
  }

  lemma {:induction false} RecordedOneMore(
    states: seq<State>, events: seq<Event>, hash: Hash, q: nat, i: nat, o: Id, log: Log, t': Trace)
    requires 0 < i <= |events| && |states| == |events| + 1 && q < i
    requires Legal(states[i - 1], hash, events[i - 1]) && Defined(states[i - 1]) &&
      log.Keys == states[i - 1].objs.Keys && o in states[i - 1].objs
    requires StepFacts(states[i - 1], log, hash, events[i - 1], o) && !QueuedBy(states[i - 1], hash, events[i - 1], o)
    requires states[i] == Step(states[i - 1], hash, events[i - 1]) &&
      t' == StepLog(states[i - 1], log, hash, events[i - 1])[o]
    requires o in states[i].objs &&
      (states[i].objs[o].reviewEpoch != 0 && !t'.evicted ==> states[i].objs[o].refcount == 0)
    requires states[i - 1].objs[o].reviewEpoch != 0 ==> Recorded(hash, states, events, q, i - 1, o, log[o])
    ensures states[i].objs[o].reviewEpoch != 0 ==> Recorded(hash, states, events, q, i, o, t')
  {
    var e := events[i - 1];
    assert Carries(states[i - 1], states[i], hash, e, o, log[o], t');
    hide Step, StepLog, Legal, Defined, StepFacts, QueuedBy, Evicts, Flushes, Uses;
    if states[i].objs[o].reviewEpoch != 0 {
      forall d ensures d in t'.flushed <==> FlushedIn(states, events, q, i, d) {
        FlushedOneMore(states, events, q, i, d);
      }
      EvictedOneMore(hash, states, events, q, i, o);
      UsedOneMore(events, q, i, o);
    }
  }

  lemma {:induction false} FlushedOneMore(states: seq<State>, events: seq<Event>, q: nat, i: nat, d: nat)
    requires q < i <= |events| && |states| == |events| + 1
    ensures FlushedIn(states, events, q, i, d) <==>
      FlushedIn(states, events, q, i - 1, d) || Flushes(states[i - 1], events[i - 1], d)
  {
    hide Flushes;
  }

  lemma {:induction false} EvictedOneMore(hash: Hash, states: seq<State>, events: seq<Event>, q: nat, i: nat, o: Id)
    requires q < i <= |events| && |states| == |events| + 1
    ensures EvictedIn(hash, states, events, q, i, o) <==>
      EvictedIn(hash, states, events, q, i - 1, o) || Evicts(states[i - 1], hash, events[i - 1], o)
  {
    hide Evicts;
  }

  lemma {:induction false} UsedOneMore(events: seq<Event>, q: nat, i: nat, o: Id)
    requires q < i <= |events|
    ensures (exists k :: q <= k < i && Uses(events[k], o)) <==>
      (exists k :: q <= k < i - 1 && Uses(events[k], o)) || Uses(events[i - 1], o)
  {
    hide Uses;
  }

  /** Between the last queueing of an object and the moment its review is due, every CPU completes
      a flush. */
  lemma {:induction false} FlushedWhenDue(
    n: nat, ids: set<Id>, hash: Hash, states: seq<State>, events: seq<Event>, i: nat, o: Id, d: nat)
    requires IsRun(n, ids, hash, states, events) && i <= |events| && o in ids && o in states[i].objs &&
      d < |states[i].cpus|
    requires states[i].objs[o].reviewEpoch != 0 && states[i].objs[o].reviewEpoch <= states[i].globalEpoch
    ensures FlushedIn(states, events, LastQueued(n, ids, hash, states, events, i, o), i, d)
  {
    hide Inv, EpochInv, FlushedIn, Defined, Legal;
    DueIsFlushed(states[i], LogAt(n, ids, hash, states, events, i), hash, o, d);
    History(n, ids, hash, states, events, i, o);
  }

  /** So every decision of a review, whether it drops the object, puts it back or calls onzero, comes
      after a flush of every CPU since the object was queued. */
  lemma {:induction false} FlushedBeforeDecision(
    n: nat, ids: set<Id>, hash: Hash, states: seq<State>, events: seq<Event>, i: nat, o: Id, d: nat)
    requires IsRun(n, ids, hash, states, events) && i < |events| && o in ids && events[i].ReviewOn? &&
      d < |states[i].cpus|
    ensures o in states[i].objs && o in states[i + 1].objs
    ensures states[i + 1].objs[o] != states[i].objs[o] ==>
      FlushedIn(states, events, LastQueued(n, ids, hash, states, events, i, o), i, d)
  {
    hide Inv, EpochInv, FlushedIn, Review, LastQueued;
    var log := LogAt(n, ids, hash, states, events, i);
    NetIs(n, ids, hash, states, events, i, o);
    StepInv(states[i], log, hash, events[i]);
    DecisionIsDue(states[i], log, hash, events[i].cpu, o);
    if states[i + 1].objs[o] != states[i].objs[o] {
      FlushedWhenDue(n, ids, hash, states, events, i, o, d);
    }
  }

  /** Whenever review calls onzero for o: its count has been 0 and nothing cached for it was evicted
      ever since it was last queued, every CPU has completed a flush since, and its true count is what
      is still cached, so it is 0 if no CPU used it since. */
  lemma {:induction false} OnzeroSafety(
    n: nat, ids: set<Id>, hash: Hash, states: seq<State>, events: seq<Event>, i: nat, o: Id)
    requires IsRun(n, ids, hash, states, events) && i < |events| && o in ids
    requires events[i].ReviewOn? && QueueNamed(states[i], events[i].cpu) && o in Review(states[i], events[i].cpu).freed
    ensures var q := LastQueued(n, ids, hash, states, events, i, o);
            (forall k :: q <= k <= i ==> o in states[k].objs && states[k].objs[o].refcount == 0) &&
            (forall k :: q <= k < i ==> !Evicts(states[k], hash, events[k], o)) &&
            (forall d :: 0 <= d < |states[i].cpus| ==> FlushedIn(states, events, q, i, d)) &&
            ((forall k :: q <= k < i ==> !Uses(events[k], o)) ==> Net(events[..i], o) % WORD == 0)
    ensures Net(events[..i], o) % WORD == Sum(states[i].cpus, hash, o) % WORD
  {
    hide Inv, EpochInv, Review, QueueNamed, FlushedIn, Net, Defined, Legal, Evicts;
    var log, q := LogAt(n, ids, hash, states, events, i), LastQueued(n, ids, hash, states, events, i, o);
    OnzeroState(states[i], log, hash, events[i].cpu, o);
    History(n, ids, hash, states, events, i, o);
    NetIs(n, ids, hash, states, events, i, o);
    Conservation(n, ids, hash, states, events, i, o);
    forall d | 0 <= d < |states[i].cpus| ensures FlushedIn(states, events, q, i, d) {
      FlushedWhenDue(n, ids, hash, states, events, i, o, d);
    }
  }
}
