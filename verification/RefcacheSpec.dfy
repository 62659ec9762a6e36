/**
 The reference-count cache as a state machine.

 Each CPU keeps a small table of ways, each caching a delta for one object, and a
 queue of objects to review.  One event is one critical section of the source:
 an inc or dec, a flush, or a review, on one CPU.  Beside the state of the code,
 a Trace per object records what happened to it, which no step looks at.
 */
module RefcacheSpec {
  import opened Common

  const SLOTS := 64
  const WORD := 0x1_0000_0000

  type Id = int

  /** struct refobj */
  datatype Obj = Obj(refcount: int, reviewEpoch: int, dirty: bool)

  /** struct refway; an empty way has no object and its delta means nothing. */
  datatype Way = Way(obj: Option<Id>, delta: int)

  /** struct refcache */
  datatype Cpu = Cpu(ways: seq<Way>, localEpoch: int, queue: seq<Id>)

  datatype State = State(globalEpoch: int, left: int, cpus: seq<Cpu>, objs: map<Id, Obj>)

  /** What happened to an object: incs minus decs; and since it was last put on a review
      queue, whether an eviction or an inc or dec touched it, which CPUs completed a flush,
      the global epoch at that moment and the CPU whose queue it is on. */
  datatype Trace = Trace(net: int, evicted: bool, poked: bool, flushed: set<nat>, queuedAt: int, owner: nat)

  type Log = map<Id, Trace>

  /** The slot an object hashes to; any function into the table will do. */
  type Hash = Id -> nat

  ghost predicate Hashes(hash: Hash) {
    forall o :: hash(o) < SLOTS
  }

  /** The value of a 32-bit signed int. */
  function Wrap(x: int): int {
    (x + WORD / 2) % WORD - WORD / 2
  }

  // ----- the steps -----

  /** obj->refcount += delta, on a 32-bit unsigned int. */
  function Settled(ob: Obj, delta: int, localEpoch: int): Obj {
    var rc := (ob.refcount + delta) % WORD;
    if rc != 0 then ob.(refcount := rc)
    else if ob.reviewEpoch == 0 then Obj(rc, localEpoch + 3, false)
    else Obj(rc, ob.reviewEpoch, true)
  }

  predicate Queues(ob: Obj, delta: int) {
    (ob.refcount + delta) % WORD == 0 && ob.reviewEpoch == 0
  }

  predicate CanEvict(s: State, c: nat, k: nat) {
    c < |s.cpus| && k < |s.cpus[c].ways| && s.cpus[c].ways[k].obj.Some? && s.cpus[c].ways[k].obj.value in s.objs
  }

  /** __evict */
  function Evict(s: State, c: nat, k: nat): State
    requires CanEvict(s, c, k)
  {
    var cpu := s.cpus[c];
    var o, delta := cpu.ways[k].obj.value, cpu.ways[k].delta;
    var cpu' := cpu.(ways := cpu.ways[k := Way(None, delta)],
                     queue := if Queues(s.objs[o], delta) then cpu.queue + [o] else cpu.queue);
    s.(cpus := s.cpus[c := cpu'], objs := s.objs[o := Settled(s.objs[o], delta, cpu.localEpoch)])
  }

  function EvictLog(s: State, log: Log, c: nat, k: nat): Log
    requires CanEvict(s, c, k) && s.cpus[c].ways[k].obj.value in log
  {
    var o, delta := s.cpus[c].ways[k].obj.value, s.cpus[c].ways[k].delta;
    log[o := if Queues(s.objs[o], delta) then Trace(log[o].net, false, false, {}, s.globalEpoch, c)
             else log[o].(evicted := true)]
  }

  /** What inc and dec need of their caller, and of the way they use: __evict asserts a
      non-zero delta when another object has to make room. */
  predicate CanBump(s: State, hash: Hash, c: nat, o: Id) {
    c < |s.cpus| && hash(o) < |s.cpus[c].ways| && o in s.objs &&
    var w := s.cpus[c].ways[hash(o)];
    w.obj.Some? && w.obj.value != o ==> w.obj.value in s.objs && w.delta != 0
  }

  /** __get_my_way, up to the way it returns: the other object, if any, is evicted. */
  function MakeRoom(s: State, hash: Hash, c: nat, o: Id): State
    requires CanBump(s, hash, c, o)
  {
    var w := s.cpus[c].ways[hash(o)];
    if w.obj.Some? && w.obj.value != o then Evict(s, c, hash(o)) else s
  }

  function MakeRoomLog(s: State, log: Log, hash: Hash, c: nat, o: Id): Log
    requires CanBump(s, hash, c, o) && log.Keys == s.objs.Keys
  {
    var w := s.cpus[c].ways[hash(o)];
    if w.obj.Some? && w.obj.value != o then EvictLog(s, log, c, hash(o)) else log
  }

  /** The delta cached for o on a CPU. */
  function Delta(cpu: Cpu, hash: Hash, o: Id): int {
    if hash(o) < |cpu.ways| && cpu.ways[hash(o)].obj == Some(o) then cpu.ways[hash(o)].delta else 0
  }

  /** refcache_refobj_inc (amount = 1) and refcache_refobj_dec (amount = -1) */
  function Bump(s: State, hash: Hash, c: nat, o: Id, amount: int): State
    requires CanBump(s, hash, c, o)
  {
    var s1 := MakeRoom(s, hash, c, o);
    var cpu := s1.cpus[c];
    var w := cpu.ways[hash(o)];
    var delta := if w.obj == None then 0 else w.delta;
    s1.(cpus := s1.cpus[c := cpu.(ways := cpu.ways[hash(o) := Way(Some(o), Wrap(delta + amount))])])
  }

  function BumpLog(s: State, log: Log, hash: Hash, c: nat, o: Id, amount: int): Log
    requires CanBump(s, hash, c, o) && log.Keys == s.objs.Keys
  {
    var log1 := MakeRoomLog(s, log, hash, c, o);
    log1[o := log1[o].(net := log1[o].net + amount, poked := true)]
  }

  /** One turn of the loop of flush. */
  function FlushWay(s: State, c: nat, k: nat): State
    requires c < |s.cpus| && k < |s.cpus[c].ways|
    requires s.cpus[c].ways[k].obj.Some? ==> s.cpus[c].ways[k].obj.value in s.objs
  {
    var w := s.cpus[c].ways[k];
    if w.obj == None then s
    else if w.delta != 0 then Evict(s, c, k)
    else s.(cpus := s.cpus[c := s.cpus[c].(ways := s.cpus[c].ways[k := Way(None, 0)])])
  }

  function FlushWayLog(s: State, log: Log, c: nat, k: nat): Log
    requires c < |s.cpus| && k < |s.cpus[c].ways| && log.Keys == s.objs.Keys
    requires s.cpus[c].ways[k].obj.Some? ==> s.cpus[c].ways[k].obj.value in s.objs
  {
    var w := s.cpus[c].ways[k];
    if w.obj.Some? && w.delta != 0 then EvictLog(s, log, c, k) else log
  }

  /** Every object named by a way exists, and the tables have their size. */
  ghost predicate WaysOk(s: State) {
    forall c :: 0 <= c < |s.cpus| ==>
      |s.cpus[c].ways| == SLOTS &&
      forall k :: 0 <= k < SLOTS && s.cpus[c].ways[k].obj.Some? ==> s.cpus[c].ways[k].obj.value in s.objs
  }

  lemma {:induction false} FlushWayKeepsWays(s: State, c: nat, k: nat)
    requires WaysOk(s) && c < |s.cpus| && k < SLOTS
    ensures WaysOk(FlushWay(s, c, k)) && |FlushWay(s, c, k).cpus| == |s.cpus| &&
      FlushWay(s, c, k).objs.Keys == s.objs.Keys
  {
  }

  ghost function FlushWays(s: State, c: nat, k: nat): State
    requires WaysOk(s) && c < |s.cpus| && k <= SLOTS
    decreases SLOTS - k
  {
    if k == SLOTS then s
    else
      FlushWayKeepsWays(s, c, k);
      FlushWays(FlushWay(s, c, k), c, k + 1)
  }

  ghost function FlushWaysLog(s: State, log: Log, c: nat, k: nat): Log
    requires WaysOk(s) && c < |s.cpus| && k <= SLOTS && log.Keys == s.objs.Keys
    decreases SLOTS - k
  {
    if k == SLOTS then log
    else
      FlushWayKeepsWays(s, c, k);
      FlushWaysLog(FlushWay(s, c, k), FlushWayLog(s, log, c, k), c, k + 1)
  }

  /** The end of flush: the last CPU of an epoch opens the next one. */
  function EndFlush(s: State): State {
    if s.left - 1 == 0 then s.(left := s.left - 1 + |s.cpus|, globalEpoch := s.globalEpoch + 1)
    else s.(left := s.left - 1)
  }

  function StartFlush(s: State, c: nat): State
    requires c < |s.cpus|
  {
    s.(cpus := s.cpus[c := s.cpus[c].(localEpoch := s.globalEpoch)])
  }

  /** flush */
  ghost function Flush(s: State, c: nat): State
    requires WaysOk(s) && c < |s.cpus|
  {
    if s.globalEpoch == s.cpus[c].localEpoch then s else EndFlush(FlushWays(StartFlush(s, c), c, 0))
  }

  /** Whoever was queued when the flush began has now seen this CPU flush. */
  ghost function SawFlush(log: Log, before: State, c: nat): Log
    requires log.Keys == before.objs.Keys
  {
    map o | o in log :: if before.objs[o].reviewEpoch != 0 then log[o].(flushed := log[o].flushed + {c}) else log[o]
  }

  ghost function FlushLog(s: State, log: Log, c: nat): Log
    requires WaysOk(s) && c < |s.cpus| && log.Keys == s.objs.Keys
    ensures FlushLog(s, log, c).Keys == log.Keys
  {
    if s.globalEpoch == s.cpus[c].localEpoch then log
    else
      FlushWaysLogKeys(StartFlush(s, c), log, c, 0);
      SawFlush(FlushWaysLog(StartFlush(s, c), log, c, 0), s, c)
  }

  lemma {:induction false} FlushWaysLogKeys(s: State, log: Log, c: nat, k: nat)
    requires WaysOk(s) && c < |s.cpus| && k <= SLOTS && log.Keys == s.objs.Keys
    ensures FlushWaysLog(s, log, c, k).Keys == log.Keys
    decreases SLOTS - k
  {
    if k < SLOTS {
      FlushWayKeepsWays(s, c, k);
      FlushWaysLogKeys(FlushWay(s, c, k), FlushWayLog(s, log, c, k), c, k + 1);
    }
  }

  // ----- review -----

  function Removed(q: seq<Id>, i: nat): seq<Id>
    requires i < |q|
  {
    q[..i] + q[i + 1..]
  }

  function SetQueue(s: State, c: nat, q: seq<Id>): State
    requires c < |s.cpus|
  {
    s.(cpus := s.cpus[c := s.cpus[c].(queue := q)])
  }

  /** What review decides about an object on the queue. */
  datatype Verdict = Later | Drop | Requeue | Free

  function Judge(ob: Obj, epoch: int): Verdict {
    if ob.reviewEpoch > epoch then Later
    else if ob.refcount != 0 then Drop
    else if ob.dirty then Requeue
    else Free
  }

  /** An object leaves the queue of c. */
  function Unqueue(s: State, c: nat, i: nat): State
    requires c < |s.cpus| && i < |s.cpus[c].queue| && s.cpus[c].queue[i] in s.objs
  {
    var o := s.cpus[c].queue[i];
    SetQueue(s, c, Removed(s.cpus[c].queue, i)).(objs := s.objs[o := s.objs[o].(reviewEpoch := 0)])
  }

  /** An object goes back to the tail of the queue of c, clean, for two epochs later. */
  function PutBack(s: State, c: nat, o: Id, epoch: int): State
    requires c < |s.cpus| && o in s.objs
  {
    SetQueue(s, c, s.cpus[c].queue + [o]).(objs := s.objs[o := Obj(s.objs[o].refcount, epoch + 2, false)])
  }

  ghost predicate QueueNamed(s: State, c: nat) {
    c < |s.cpus| && forall j :: 0 <= j < |s.cpus[c].queue| ==> s.cpus[c].queue[j] in s.objs
  }

  datatype Reviewed = Reviewed(s: State, freed: seq<Id>, requeued: Option<Id>)

  /** The walk of review along the queue of c, from position i; epoch is the global epoch read
      at its start, `freed` the objects onzero is called for.  An object put back at the tail
      ends the walk: the next pointer of its entry then is the list head. */
  ghost function Walk(s: State, c: nat, epoch: int, i: nat): Reviewed
    requires QueueNamed(s, c)
    decreases |s.cpus[c].queue| - i
  {
    if i >= |s.cpus[c].queue| then Reviewed(s, [], None)
    else
      var o := s.cpus[c].queue[i];
      match Judge(s.objs[o], epoch)
      case Later => Walk(s, c, epoch, i + 1)
      case Drop => Walk(Unqueue(s, c, i), c, epoch, i)
      case Requeue => Reviewed(PutBack(Unqueue(s, c, i), c, o, epoch), [], Some(o))
      case Free =>
        var r := Walk(Unqueue(s, c, i), c, epoch, i);
        r.(freed := [o] + r.freed)
  }

  /** One position of the walk. */
  lemma {:induction false} WalkAt(s: State, c: nat, epoch: int, i: nat)
    requires QueueNamed(s, c)
    ensures i >= |s.cpus[c].queue| ==> Walk(s, c, epoch, i) == Reviewed(s, [], None)
    ensures i < |s.cpus[c].queue| ==>
      var o, s1 := s.cpus[c].queue[i], Unqueue(s, c, i);
      QueueNamed(s1, c) &&
      match Judge(s.objs[o], epoch)
      case Later => Walk(s, c, epoch, i) == Walk(s, c, epoch, i + 1)
      case Drop => Walk(s, c, epoch, i) == Walk(s1, c, epoch, i)
      case Requeue =>
        Walk(s, c, epoch, i) == Reviewed(PutBack(s1, c, o, epoch), [], Some(o)) &&
        QueueNamed(PutBack(s1, c, o, epoch), c)
      case Free =>
        Walk(s, c, epoch, i).s == Walk(s1, c, epoch, i).s &&
        Walk(s, c, epoch, i).freed == [o] + Walk(s1, c, epoch, i).freed
  {
  }

  /** review */
  ghost function Review(s: State, c: nat): Reviewed
    requires QueueNamed(s, c)
  {
    Walk(s, c, s.globalEpoch, 0)
  }

  ghost function ReviewLog(s: State, log: Log, c: nat): Log
    requires QueueNamed(s, c)
  {
    var r := Review(s, c).requeued;
    if r.Some? && r.value in log then log[r.value := Trace(log[r.value].net, false, false, {}, s.globalEpoch, c)]
    else log
  }
}
