/** No object is lost: one whose count came to 0 is watched until onzero is called or the count rises. */
module RefcacheLive {
  import opened Common
  import opened RefcacheSpec
  import opened RefcacheProofs
  import opened RefcacheRuns

  // ----- what one review does -----

  predicate Due(ob: Obj, epoch: int) {
    ob.reviewEpoch <= epoch
  }

  /** Due, at 0, and brought there more than once since it was queued. */
  predicate Unsettled(ob: Obj, epoch: int) {
    Due(ob, epoch) && ob.refcount == 0 && ob.dirty
  }

  predicate Dead(ob: Obj, epoch: int) {
    Due(ob, epoch) && ob.refcount == 0 && !ob.dirty
  }

  /** The review comes to position j of a queue, from position i on: nothing is put back before. */
  ghost predicate Reaches(s: State, c: nat, epoch: int, i: nat, j: nat)
    requires QueueNamed(s, c) && j < |s.cpus[c].queue|
  {
    i <= j && forall h {:trigger s.cpus[c].queue[h]} :: i <= h < j ==> !Unsettled(s.objs[s.cpus[c].queue[h]], epoch)
  }

  ghost predicate FreedAt(s: State, c: nat, epoch: int, i: nat, j: nat, o: Id)
    requires QueueNamed(s, c)
  {
    j < |s.cpus[c].queue| && s.cpus[c].queue[j] == o && Reaches(s, c, epoch, i, j) && Dead(s.objs[o], epoch)
  }

  /** o is on the queue from i on, the review comes to it, and it is dead. */
  ghost predicate Frees(s: State, c: nat, epoch: int, i: nat, o: Id)
    requires QueueNamed(s, c)
  {
    exists j: nat :: FreedAt(s, c, epoch, i, j, o)
  }

  /** The queue without its entry at i, seen from i on. */
  lemma {:induction false} UnqueuedRest(s: State, c: nat, i: nat)
    requires QueueNamed(s, c) && NoDup(s.cpus[c].queue) && i < |s.cpus[c].queue|
    ensures var s', q := Unqueue(s, c, i), s.cpus[c].queue;
            QueueNamed(s', c) && NoDup(s'.cpus[c].queue) && |s'.cpus[c].queue| == |q| - 1 &&
            (forall j {:trigger s'.cpus[c].queue[j]} :: i <= j < |q| - 1 ==>
              s'.cpus[c].queue[j] == q[j + 1] && s'.objs[q[j + 1]] == s.objs[q[j + 1]]) &&
            (forall j {:trigger s'.cpus[c].queue[j]} :: 0 <= j < i ==>
              s'.cpus[c].queue[j] == q[j] && s'.objs[q[j]] == s.objs[q[j]])
  {
    RemovedQueue(s.cpus[c].queue, i);
  }

  lemma {:induction false} UnqueuedFreed(s: State, c: nat, epoch: int, i: nat, o: Id)
    requires QueueNamed(s, c) && NoDup(s.cpus[c].queue) && i < |s.cpus[c].queue|
    requires !Unsettled(s.objs[s.cpus[c].queue[i]], epoch)
    ensures QueueNamed(Unqueue(s, c, i), c)
    ensures Frees(s, c, epoch, i, o) <==>
      (s.cpus[c].queue[i] == o && Dead(s.objs[o], epoch)) || Frees(Unqueue(s, c, i), c, epoch, i, o)
  {
    UnqueuedRest(s, c, i);
    var q, s' := s.cpus[c].queue, Unqueue(s, c, i);
    var q' := s'.cpus[c].queue;
    hide Unqueue, Unsettled, Dead;
    if q[i] == o && Dead(s.objs[o], epoch) {
      assert FreedAt(s, c, epoch, i, i, o);
    }
    if j: nat :| FreedAt(s, c, epoch, i, j, o) && j > i {
      forall h | i <= h < j - 1 ensures !Unsettled(s'.objs[q'[h]], epoch) {
        assert q'[h] == q[h + 1];
      }
      assert q'[j - 1] == q[j];
      assert FreedAt(s', c, epoch, i, j - 1, o);
    }
    if j: nat :| FreedAt(s', c, epoch, i, j, o) {
      assert q'[j] == q[j + 1];
      forall h | i <= h < j + 1 ensures !Unsettled(s.objs[q[h]], epoch) {
        if h > i {
          assert q'[h - 1] == q[h];
        }
      }
      assert FreedAt(s, c, epoch, i, j + 1, o);
    }
  }

  lemma {:induction false} WalkFrees(s: State, c: nat, epoch: int, i: nat, o: Id)
    requires QueueNamed(s, c) && NoDup(s.cpus[c].queue)
    ensures o in Walk(s, c, epoch, i).freed <==> Frees(s, c, epoch, i, o)
    decreases |s.cpus[c].queue| - i
  {
    var q := s.cpus[c].queue;
    if i < |q| {
      UnqueuedRest(s, c, i);
      var x, s1 := q[i], Unqueue(s, c, i);
      if !Unsettled(s.objs[x], epoch) {
        UnqueuedFreed(s, c, epoch, i, o);
      }
      hide Unqueue, QueueNamed, NoDup;
      WalkAt(s, c, epoch, i);
      hide Walk;
      match Judge(s.objs[x], epoch)
      case Later =>
        WalkFrees(s, c, epoch, i + 1, o);
        LaterFreed(s, c, epoch, i, o);
      case Requeue =>
      case Drop => WalkFrees(s1, c, epoch, i, o);
      case Free => WalkFrees(s1, c, epoch, i, o);
    }
  }

  lemma {:induction false} LaterFreed(s: State, c: nat, epoch: int, i: nat, o: Id)
    requires QueueNamed(s, c) && i < |s.cpus[c].queue| && !Due(s.objs[s.cpus[c].queue[i]], epoch)
    ensures Frees(s, c, epoch, i, o) <==> Frees(s, c, epoch, i + 1, o)
  {
    var q, i' := s.cpus[c].queue, i + 1;
    if j: nat :| FreedAt(s, c, epoch, i, j, o) {
      assert FreedAt(s, c, epoch, i', j, o);
    }
    if j: nat :| FreedAt(s, c, epoch, i', j, o) {
      assert FreedAt(s, c, epoch, i, j, o);
    }
  }

  /** The entries before i were left for later. */
  ghost predicate Passed(s: State, c: nat, epoch: int, i: nat)
    requires QueueNamed(s, c)
  {
    forall j {:trigger s.cpus[c].queue[j]} :: 0 <= j < i && j < |s.cpus[c].queue| ==>
      !Due(s.objs[s.cpus[c].queue[j]], epoch)
  }

  lemma {:induction false} WalkLeaves(s: State, c: nat, epoch: int, i: nat)
    requires QueueNamed(s, c) && NoDup(s.cpus[c].queue) && Passed(s, c, epoch, i)
    requires Walk(s, c, epoch, i).requeued == None
    ensures var s' := Walk(s, c, epoch, i).s; QueueNamed(s', c) && Passed(s', c, epoch, |s'.cpus[c].queue|)
    decreases |s.cpus[c].queue| - i
  {
    var q := s.cpus[c].queue;
    if i < |q| {
      UnqueuedRest(s, c, i);
      var s1 := Unqueue(s, c, i);
      hide Unqueue, NoDup;
      match Judge(s.objs[q[i]], epoch)
      case Later => WalkLeaves(s, c, epoch, i + 1);
      case Drop => WalkLeaves(s1, c, epoch, i);
      case Free => WalkLeaves(s1, c, epoch, i);
    }
  }

  lemma {:induction false} QueueDistinct(s: State, log: Log, hash: Hash, c: nat)
    requires Inv(s, log, hash, -1) && c < |s.cpus|
    ensures QueueNamed(s, c) && NoDup(s.cpus[c].queue)
  {
  }

  /** In every run, a review calls onzero exactly for the objects on its queue that are due, at 0 and clean
      and have nothing before them that is put back. */
  lemma {:induction false} FreedIff(
    n: nat, ids: set<Id>, hash: Hash, states: seq<State>, events: seq<Event>, i: nat, o: Id)
    requires IsRun(n, ids, hash, states, events) && i < |events| && events[i].ReviewOn?
    ensures QueueNamed(states[i], events[i].cpu)
    ensures o in Review(states[i], events[i].cpu).freed <==>
      Frees(states[i], events[i].cpu, states[i].globalEpoch, 0, o)
  {
    hide Inv, EpochInv, Walk, Frees;
    QueueDistinct(states[i], LogAt(n, ids, hash, states, events, i), hash, events[i].cpu);
    WalkFrees(states[i], events[i].cpu, states[i].globalEpoch, 0, o);
  }

  /** In every run, a review that puts nothing back leaves nothing due on its queue. */
  lemma {:induction false} NothingDueLeft(
    n: nat, ids: set<Id>, hash: Hash, states: seq<State>, events: seq<Event>, i: nat, j: nat)
    requires IsRun(n, ids, hash, states, events) && i < |events| && events[i].ReviewOn?
    ensures QueueNamed(states[i], events[i].cpu) && |states[i + 1].cpus| == |states[i].cpus|
    ensures Review(states[i], events[i].cpu).requeued == None && j < |states[i + 1].cpus[events[i].cpu].queue| ==>
      var o := states[i + 1].cpus[events[i].cpu].queue[j];
      o in states[i + 1].objs && states[i + 1].objs[o].reviewEpoch > states[i + 1].globalEpoch
  {
    hide Inv, EpochInv, Walk;
    var s, c, log := states[i], events[i].cpu, LogAt(n, ids, hash, states, events, i);
    StepInv(s, log, hash, events[i]);
    QueueDistinct(s, log, hash, c);
    WalkEpochs(s, c, s.globalEpoch, 0);
    if Review(s, c).requeued == None {
      WalkLeaves(s, c, s.globalEpoch, 0);
    }
  }

  // ----- an object at 0 is watched -----

  predicate Watched(s: State, o: Id) {
    o in s.objs && (s.objs[o].refcount != 0 || s.objs[o].reviewEpoch != 0)
  }

  lemma {:induction false} EvictWatched(s: State, c: nat, k: nat, o: Id)
    requires CanEvict(s, c, k) && s.cpus[c].localEpoch >= 0 && o in s.objs
    ensures Watched(s, o) || s.cpus[c].ways[k].obj == Some(o) ==> Watched(Evict(s, c, k), o)
  {
  }

  lemma {:induction false} FlushWaysWatched(s: State, c: nat, k: nat, o: Id)
    requires WaysOk(s) && c < |s.cpus| && k <= SLOTS && o in s.objs && s.cpus[c].localEpoch >= 0
    ensures Watched(s, o) || Caches(s, c, k, o) ==> Watched(FlushWays(s, c, k), o)
    decreases SLOTS - k
  {
    if k < SLOTS {
      FlushWayKeepsWays(s, c, k);
      var s1, w := FlushWay(s, c, k), s.cpus[c].ways[k];
      if w.obj.Some? && w.delta != 0 {
        EvictWatched(s, c, k, o);
      }
      assert s1.cpus[c].localEpoch == s.cpus[c].localEpoch;
      assert forall j :: k < j < SLOTS ==> s1.cpus[c].ways[j] == s.cpus[c].ways[j];
      if Caches(s, c, k, o) {
        var j :| k <= j < SLOTS && Dirty(s.cpus[c].ways[j], o);
        assert j > k ==> Dirty(s1.cpus[c].ways[j], o);
      }
      hide WaysOk, FlushWay, Watched;
      FlushWaysWatched(s1, c, k + 1, o);
    }
  }

  lemma {:induction false} WalkWatched(s: State, c: nat, epoch: int, i: nat, o: Id)
    requires QueueNamed(s, c) && Watched(s, o) && epoch >= 0 && o !in Walk(s, c, epoch, i).freed
    ensures Watched(Walk(s, c, epoch, i).s, o)
    decreases |s.cpus[c].queue| - i
  {
    if i < |s.cpus[c].queue| {
      var x, s1 := s.cpus[c].queue[i], Unqueue(s, c, i);
      assert QueueNamed(s1, c);
      match Judge(s.objs[x], epoch)
      case Later => WalkWatched(s, c, epoch, i + 1, o);
      case Requeue =>
      case Drop => WalkWatched(s1, c, epoch, i, o);
      case Free =>
        assert x in Walk(s, c, epoch, i).freed;
        WalkWatched(s1, c, epoch, i, o);
    }
  }

  /** The step calls onzero for o. */
  ghost predicate Onzero(s: State, e: Event, o: Id) {
    e.ReviewOn? && QueueNamed(s, e.cpu) && o in Review(s, e.cpu).freed
  }

  lemma {:induction false} StepWatched(s: State, hash: Hash, e: Event, o: Id)
    requires Legal(s, hash, e) && Defined(s) && o in s.objs && s.globalEpoch >= 0 && s.cpus[e.cpu].localEpoch >= 0
    requires Evicts(s, hash, e, o) || (Watched(s, o) && !Onzero(s, e, o))
    ensures Watched(Step(s, hash, e), o)
  {
    match e
    case FlushOn(c) =>
      if s.globalEpoch != s.cpus[c].localEpoch {
        var s1 := StartFlush(s, c);
        assert WaysOk(s1) && s1.objs == s.objs && s1.cpus[c].ways == s.cpus[c].ways;
        assert Caches(s, c, 0, o) ==> Caches(s1, c, 0, o);
        hide FlushWays;
        FlushWaysWatched(s1, c, 0, o);
      }
    case ReviewOn(c) => WalkWatched(s, c, s.globalEpoch, 0, o);
    case _ =>
      var w := s.cpus[e.cpu].ways[hash(e.obj)];
      if w.obj.Some? && w.obj.value != e.obj {
        EvictWatched(s, e.cpu, hash(e.obj), o);
      }
  }

  lemma {:induction false} EpochsPositive(s: State, log: Log, hash: Hash)
    requires Inv(s, log, hash, -1)
    ensures s.globalEpoch >= 0 && forall c :: 0 <= c < |s.cpus| ==> s.cpus[c].localEpoch >= 0
  {
  }

  /** In every run, once a CPU has added what it cached for an object to its count, the count is not 0 or
      the object is on a review queue, until a review calls onzero for it. */
  lemma {:induction false} WatchedUntilOnzero(
    n: nat, ids: set<Id>, hash: Hash, states: seq<State>, events: seq<Event>, k: nat, i: nat, o: Id)
    requires IsRun(n, ids, hash, states, events) && k < i <= |events| && o in ids
    requires Evicts(states[k], hash, events[k], o)
    requires forall j :: k < j < i ==> !Onzero(states[j], events[j], o)
    ensures o in states[i].objs && (states[i].objs[o].refcount != 0 || states[i].objs[o].reviewEpoch != 0)
  {
    hide Inv, EpochInv, Legal, Defined, Evicts, Onzero;
    var s, e, log := states[i - 1], events[i - 1], LogAt(n, ids, hash, states, events, i - 1);
    NetIs(n, ids, hash, states, events, i - 1, o);
    StepInv(s, log, hash, e);
    EpochsPositive(s, log, hash);
    CpuExists(s, hash, e);
    if k < i - 1 {
      WatchedUntilOnzero(n, ids, hash, states, events, k, i - 1, o);
    }
    StepWatched(s, hash, e, o);
  }

  lemma {:induction false} CpuExists(s: State, hash: Hash, e: Event)
    requires Legal(s, hash, e)
    ensures e.cpu < |s.cpus|
  {
  }

  // ----- a review is never far off -----

  predicate Soon(s: State, o: Id) {
    o in s.objs && s.objs[o].reviewEpoch <= s.globalEpoch + 3
  }

  lemma {:induction false} FlushWaysSoon(s: State, c: nat, k: nat, o: Id)
    requires WaysOk(s) && c < |s.cpus| && k <= SLOTS && Soon(s, o) && s.cpus[c].localEpoch <= s.globalEpoch
    ensures Soon(FlushWays(s, c, k), o)
    decreases SLOTS - k
  {
    if k < SLOTS {
      FlushWayKeepsWays(s, c, k);
      var s1 := FlushWay(s, c, k);
      assert s1.cpus[c].localEpoch == s.cpus[c].localEpoch && Soon(s1, o);
      hide WaysOk, FlushWay, Soon;
      FlushWaysSoon(s1, c, k + 1, o);
    }
  }

  lemma {:induction false} WalkSoon(s: State, c: nat, i: nat, o: Id)
    requires QueueNamed(s, c) && Soon(s, o) && s.globalEpoch >= 0
    ensures Soon(Walk(s, c, s.globalEpoch, i).s, o)
    decreases |s.cpus[c].queue| - i
  {
    if i < |s.cpus[c].queue| {
      var x, s1 := s.cpus[c].queue[i], Unqueue(s, c, i);
      assert QueueNamed(s1, c);
      match Judge(s.objs[x], s.globalEpoch)
      case Later => WalkSoon(s, c, i + 1, o);
      case Requeue =>
      case Drop => WalkSoon(s1, c, i, o);
      case Free => WalkSoon(s1, c, i, o);
    }
  }

  lemma {:induction false} StepSoon(s: State, hash: Hash, e: Event, o: Id)
    requires Legal(s, hash, e) && Defined(s) && Soon(s, o) && 0 <= s.globalEpoch
    requires s.cpus[e.cpu].localEpoch <= s.globalEpoch
    ensures Soon(Step(s, hash, e), o)
  {
    match e
    case FlushOn(c) =>
      if s.globalEpoch != s.cpus[c].localEpoch {
        var s1 := StartFlush(s, c);
        assert WaysOk(s1);
        hide FlushWays;
        FlushWaysSoon(s1, c, 0, o);
      }
    case ReviewOn(c) => WalkSoon(s, c, 0, o);
    case _ =>
  }

  lemma {:induction false} LocalEpochs(s: State, log: Log, hash: Hash)
    requires Inv(s, log, hash, -1)
    ensures s.globalEpoch >= 0 && forall c :: 0 <= c < |s.cpus| ==> s.cpus[c].localEpoch <= s.globalEpoch
  {
  }

  lemma {:induction false} WalkPutsBack(s: State, c: nat, epoch: int, i: nat)
    requires QueueNamed(s, c)
    ensures
      var r := Walk(s, c, epoch, i);
      r.requeued.Some? ==> r.requeued.value in r.s.objs && r.s.objs[r.requeued.value].reviewEpoch == epoch + 2
    decreases |s.cpus[c].queue| - i
  {
    if i < |s.cpus[c].queue| {
      var x, s1 := s.cpus[c].queue[i], Unqueue(s, c, i);
      assert QueueNamed(s1, c);
      match Judge(s.objs[x], epoch)
      case Later => WalkPutsBack(s, c, epoch, i + 1);
      case Requeue =>
      case Drop => WalkPutsBack(s1, c, epoch, i);
      case Free => WalkPutsBack(s1, c, epoch, i);
    }
  }

  /** The step puts o back on its queue. */
  ghost predicate PutsBack(s: State, e: Event, o: Id) {
    e.ReviewOn? && QueueNamed(s, e.cpu) && Review(s, e.cpu).requeued == Some(o)
  }

  /** In every run, whatever is on a review queue is due three epochs later at the latest, and what a review
      has put back after two. */
  lemma {:induction false} DueSoon(
    n: nat, ids: set<Id>, hash: Hash, states: seq<State>, events: seq<Event>, i: nat, o: Id)
    requires IsRun(n, ids, hash, states, events) && i <= |events| && o in ids
    ensures o in states[i].objs && states[i].objs[o].reviewEpoch <= states[i].globalEpoch + 3
    ensures i > 0 && PutsBack(states[i - 1], events[i - 1], o) ==>
      states[i].objs[o].reviewEpoch == states[i - 1].globalEpoch + 2
  {
    hide Inv, EpochInv, Legal, Defined, Walk;
    if i > 0 {
      if PutsBack(states[i - 1], events[i - 1], o) {
        WalkPutsBack(states[i - 1], events[i - 1].cpu, states[i - 1].globalEpoch, 0);
      }
      var s, e, log := states[i - 1], events[i - 1], LogAt(n, ids, hash, states, events, i - 1);
      DueSoon(n, ids, hash, states, events, i - 1, o);
      StepInv(s, log, hash, e);
      LocalEpochs(s, log, hash);
      CpuExists(s, hash, e);
      StepSoon(s, hash, e, o);
    }
  }
}
