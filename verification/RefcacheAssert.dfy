/** When exactly the assert in __evict fails, in terms of the events of a run. */
module RefcacheAssert {
  import opened Common
  import opened RefcacheSpec
  import opened RefcacheProofs
  import opened RefcacheRuns

  /** The object last used in a slot, and its incs minus decs there since it took the slot. */
  datatype Tenant = Tenant(obj: Option<Id>, net: int)

  predicate UsesSlot(hash: Hash, e: Event, c: nat, k: nat) {
    (e.IncOn? || e.DecOn?) && e.cpu == c && hash(e.obj) == k
  }

  /** The tenant of slot k on CPU c after i steps, since the last flush that c completed.  The tables
      of the CPUs do not enter here. */
  ghost function TenantAt(hash: Hash, states: seq<State>, events: seq<Event>, c: nat, k: nat, i: nat): Tenant
    requires i <= |events| && |states| == |events| + 1
  {
    if i == 0 then Tenant(None, 0)
    else
      var t, e := TenantAt(hash, states, events, c, k, i - 1), events[i - 1];
      if Flushes(states[i - 1], e, c) then Tenant(None, 0)
      else if !UsesSlot(hash, e, c, k) then t
      else if t.obj == Some(e.obj) then Tenant(t.obj, t.net + Amount(e))
      else Tenant(Some(e.obj), Amount(e))
  }

  /** A way agrees with its tenant. */
  predicate Holds(w: Way, t: Tenant) {
    w.obj == t.obj && (w.obj.Some? ==> w.delta == Wrap(t.net))
  }

  ghost predicate WayOf(s: State, c: nat, k: nat, t: Tenant) {
    c < |s.cpus| && k < |s.cpus[c].ways| && Holds(s.cpus[c].ways[k], t)
  }

  lemma {:induction false} WrapAdd(x: int, y: int)
    ensures Wrap(Wrap(x) + y) == Wrap(x + y) && (Wrap(x) == 0 <==> x % WORD == 0)
    ensures -10 <= x <= 10 ==> Wrap(x) == x
  {
  }

  lemma {:induction false} BumpWays(s: State, hash: Hash, e: Event, c: nat, k: nat, t: Tenant)
    requires (e.IncOn? || e.DecOn?) && CanBump(s, hash, e.cpu, e.obj) && WayOf(s, c, k, t)
    ensures var s' := Bump(s, hash, e.cpu, e.obj, Amount(e));
            WayOf(s', c, k, if !UsesSlot(hash, e, c, k) then t
                            else if t.obj == Some(e.obj) then Tenant(t.obj, t.net + Amount(e))
                            else Tenant(Some(e.obj), Amount(e)))
  {
    hide Wrap;
    WrapAdd(t.net, Amount(e));
    WrapAdd(Amount(e), 0);
  }

  lemma {:induction false} FlushWaysWays(s: State, c: nat, i: nat, d: nat, k: nat)
    requires WaysOk(s) && c < |s.cpus| && i <= SLOTS && d < |s.cpus| && k < SLOTS
    ensures var s' := FlushWays(s, c, i);
            |s'.cpus| == |s.cpus| && |s'.cpus[d].ways| == SLOTS &&
            (d != c || k < i ==> s'.cpus[d].ways[k] == s.cpus[d].ways[k]) &&
            (d == c && k >= i ==> s'.cpus[d].ways[k].obj == None)
    decreases SLOTS - i
  {
    if i < SLOTS {
      FlushWayKeepsWays(s, c, i);
      var s1 := FlushWay(s, c, i);
      assert d != c || k != i ==> s1.cpus[d].ways[k] == s.cpus[d].ways[k];
      assert s1.cpus[c].ways[i].obj == None;
      hide WaysOk, FlushWay;
      FlushWaysWays(s1, c, i + 1, d, k);
    }
  }

  lemma {:induction false} FlushTenant(s: State, e: Event, c: nat, k: nat, t: Tenant)
    requires WaysOk(s) && e.FlushOn? && e.cpu < |s.cpus| && WayOf(s, c, k, t) && k < SLOTS
    ensures WayOf(Flush(s, e.cpu), c, k, if Flushes(s, e, c) then Tenant(None, 0) else t)
  {
    if s.globalEpoch != s.cpus[e.cpu].localEpoch {
      var s1 := StartFlush(s, e.cpu);
      assert WaysOk(s1) && s1.cpus[c].ways == s.cpus[c].ways;
      FlushWaysWays(s1, e.cpu, 0, c, k);
    }
  }

  lemma {:induction false} StepTenant(s: State, hash: Hash, e: Event, c: nat, k: nat, t: Tenant)
    requires Legal(s, hash, e) && Defined(s) && WayOf(s, c, k, t) && k < SLOTS
    ensures WayOf(Step(s, hash, e), c, k,
                  if Flushes(s, e, c) then Tenant(None, 0)
                  else if !UsesSlot(hash, e, c, k) then t
                  else if t.obj == Some(e.obj) then Tenant(t.obj, t.net + Amount(e))
                  else Tenant(Some(e.obj), Amount(e)))
  {
    match e
    case IncOn(_, _) => BumpWays(s, hash, e, c, k, t);
    case DecOn(_, _) => BumpWays(s, hash, e, c, k, t);
    case FlushOn(_) => FlushTenant(s, e, c, k, t);
    case ReviewOn(d) => WalkEpochs(s, d, s.globalEpoch, 0);
  }

  /** In every reachable state each way holds what the events say. */
  lemma {:induction false} TenantHeld(
    n: nat, ids: set<Id>, hash: Hash, states: seq<State>, events: seq<Event>, c: nat, k: nat, i: nat)
    requires IsRun(n, ids, hash, states, events) && i <= |events| && c < n && k < SLOTS
    ensures WayOf(states[i], c, k, TenantAt(hash, states, events, c, k, i))
  {
    hide Inv, EpochInv, Legal, Defined, WayOf;
    if i == 0 {
      InitTenant(n, ids, c, k);
    } else {
      TenantHeld(n, ids, hash, states, events, c, k, i - 1);
      StepInv(states[i - 1], LogAt(n, ids, hash, states, events, i - 1), hash, events[i - 1]);
      StepTenant(states[i - 1], hash, events[i - 1], c, k, TenantAt(hash, states, events, c, k, i - 1));
    }
  }

  lemma {:induction false} InitTenant(n: nat, ids: set<Id>, c: nat, k: nat)
    requires c < n && k < SLOTS
    ensures WayOf(Init(n, ids), c, k, Tenant(None, 0))
  {
  }

  /** An inc or dec of o on c fails the assert exactly if another object was the last one used in its
      slot on c since the last flush c completed, and the incs and decs of that object there since it
      took the slot cancel out modulo 2^32. */
  lemma {:induction false} AssertFailsIff(
    n: nat, ids: set<Id>, hash: Hash, states: seq<State>, events: seq<Event>, i: nat, c: nat, o: Id)
    requires IsRun(n, ids, hash, states, events) && i <= |events| && c < n && o in ids
    ensures hash(o) < SLOTS
    ensures var t := TenantAt(hash, states, events, c, hash(o), i);
            !CanBump(states[i], hash, c, o) <==> t.obj.Some? && t.obj.value != o && t.net % WORD == 0
  {
    var t := TenantAt(hash, states, events, c, hash(o), i);
    hide TenantAt, Inv, Legal, Wrap;
    NetIs(n, ids, hash, states, events, i, o);
    TenantHeld(n, ids, hash, states, events, c, hash(o), i);
    QueuesAndEpochs(n, ids, hash, states, events, i, o);
    WrapAdd(t.net, 0);
  }

  // ----- the true count of an object that is freed -----

  /** The incs minus decs of o on d after i steps, since the last flush that d completed. */
  ghost function NetSince(states: seq<State>, events: seq<Event>, d: nat, o: Id, i: nat): int
    requires i <= |events| && |states| == |events| + 1
  {
    if i == 0 || Flushes(states[i - 1], events[i - 1], d) then 0
    else
      NetSince(states, events, d, o, i - 1) +
      if Uses(events[i - 1], o) && events[i - 1].cpu == d then Amount(events[i - 1]) else 0
  }

  /** The same on the first m CPUs together. */
  ghost function NetSinceAll(states: seq<State>, events: seq<Event>, o: Id, i: nat, m: nat): int
    requires i <= |events| && |states| == |events| + 1
  {
    if m == 0 then 0 else NetSinceAll(states, events, o, i, m - 1) + NetSince(states, events, m - 1, o, i)
  }

  /** Its slot holds all of it, or there is none. */
  predicate InSlot(t: Tenant, o: Id, net: int) {
    if t.obj == Some(o) then t.net == net else net == 0
  }

  lemma {:induction false} SlotKept(hash: Hash, s: State, e: Event, d: nat, o: Id, t: Tenant, net: int)
    requires InSlot(t, o, net) && !Evicts(s, hash, e, o) && WayOf(s, d, hash(o), t)
    ensures InSlot(
              if !UsesSlot(hash, e, d, hash(o)) then t
              else if t.obj == Some(e.obj) then Tenant(t.obj, t.net + Amount(e))
              else Tenant(Some(e.obj), Amount(e)),
              o, net + if Uses(e, o) && e.cpu == d then Amount(e) else 0)
  {
  }

  /** Since d completed a flush and nothing cached for o was evicted, the slot of o on d holds all its uses
      there. */
  lemma {:induction false} SlotHolds(
    n: nat, ids: set<Id>, hash: Hash, states: seq<State>, events: seq<Event>, q: nat, i: nat, d: nat, o: Id)
    requires IsRun(n, ids, hash, states, events) && q <= i <= |events| && d < n
    requires FlushedIn(states, events, q, i, d) && forall k :: q <= k < i ==> !Evicts(states[k], hash, events[k], o)
    ensures InSlot(TenantAt(hash, states, events, d, hash(o), i), o, NetSince(states, events, d, o, i))
  {
    hide WayOf, Evicts, Inv, Legal, Defined;
    if !Flushes(states[i - 1], events[i - 1], d) {
      SlotHolds(n, ids, hash, states, events, q, i - 1, d, o);
      TenantHeld(n, ids, hash, states, events, d, hash(o), i - 1);
      var t, net := TenantAt(hash, states, events, d, hash(o), i - 1), NetSince(states, events, d, o, i - 1);
      SlotKept(hash, states[i - 1], events[i - 1], d, o, t, net);
    }
  }

  lemma {:induction false} StepSize(s: State, hash: Hash, e: Event)
    requires Legal(s, hash, e) && Defined(s)
    ensures |Step(s, hash, e).cpus| == |s.cpus|
  {
    match e
    case IncOn(_, _) =>
    case DecOn(_, _) =>
    case FlushOn(c) =>
      if s.globalEpoch != s.cpus[c].localEpoch {
        var s1 := StartFlush(s, c);
        assert WaysOk(s1);
        FlushWaysWays(s1, c, 0, c, 0);
      }
    case ReviewOn(c) => WalkEpochs(s, c, s.globalEpoch, 0);
  }

  lemma {:induction false} RunSize(n: nat, ids: set<Id>, hash: Hash, states: seq<State>, events: seq<Event>, i: nat)
    requires IsRun(n, ids, hash, states, events) && i <= |events|
    ensures |states[i].cpus| == n
  {
    hide Inv, EpochInv, Legal, Defined;
    if i > 0 {
      RunSize(n, ids, hash, states, events, i - 1);
      StepInv(states[i - 1], LogAt(n, ids, hash, states, events, i - 1), hash, events[i - 1]);
      StepSize(states[i - 1], hash, events[i - 1]);
    }
  }

  lemma {:induction false} RunLength(n: nat, ids: set<Id>, hash: Hash, states: seq<State>, events: seq<Event>)
    requires IsRun(n, ids, hash, states, events)
    ensures |states| == |events| + 1 && Hashes(hash)
  {
  }

  lemma {:induction false} SlotDelta(s: State, hash: Hash, d: nat, o: Id, t: Tenant, net: int)
    requires WayOf(s, d, hash(o), t) && InSlot(t, o, net)
    ensures Delta(s.cpus[d], hash, o) % WORD == net % WORD
  {
    hide Wrap;
    WrapMod(net);
  }

  lemma {:induction false} DeltaSince(
    n: nat, ids: set<Id>, hash: Hash, states: seq<State>, events: seq<Event>, q: nat, i: nat, d: nat, o: Id)
    requires IsRun(n, ids, hash, states, events) && q <= i <= |events| && d < n
    requires FlushedIn(states, events, q, i, d) && forall k :: q <= k < i ==> !Evicts(states[k], hash, events[k], o)
    ensures d < |states[i].cpus| && Delta(states[i].cpus[d], hash, o) % WORD == NetSince(states, events, d, o, i) % WORD
  {
    RunLength(n, ids, hash, states, events);
    RunSize(n, ids, hash, states, events, i);
    hide WayOf, Evicts, FlushedIn, TenantAt, InSlot, NetSince, Delta, IsRun;
    SlotHolds(n, ids, hash, states, events, q, i, d, o);
    TenantHeld(n, ids, hash, states, events, d, hash(o), i);
    SlotDelta(
      states[i], hash, d, o, TenantAt(hash, states, events, d, hash(o), i), NetSince(states, events, d, o, i));
  }

  lemma {:induction false} SumsAgree(a: int, b: int, c: int, d: int)
    requires a % WORD == c % WORD && b % WORD == d % WORD
    ensures (a + b) % WORD == (c + d) % WORD
  {
    ModAdd(a, b, c);
    ModAdd(b, c, d);
  }

  /** What the first m CPUs cache for o is its uses there since their last flushes. */
  lemma {:induction false} CachedSince(
    n: nat, ids: set<Id>, hash: Hash, states: seq<State>, events: seq<Event>, q: nat, i: nat, o: Id, m: nat)
    requires IsRun(n, ids, hash, states, events) && q <= i <= |events| && m <= n == |states[i].cpus|
    requires forall d :: 0 <= d < n ==> FlushedIn(states, events, q, i, d)
    requires forall k :: q <= k < i ==> !Evicts(states[k], hash, events[k], o)
    ensures Sum(states[i].cpus[..m], hash, o) % WORD == NetSinceAll(states, events, o, i, m) % WORD
  {
    if m > 0 {
      hide Evicts, FlushedIn, NetSince, Delta, IsRun;
      var d, cpus := m - 1, states[i].cpus;
      CachedSince(n, ids, hash, states, events, q, i, o, d);
      DeltaSince(n, ids, hash, states, events, q, i, d, o);
      assert cpus[..m][..d] == cpus[..d];
      SumsAgree(
        Sum(cpus[..d], hash, o), Delta(cpus[d], hash, o),
        NetSinceAll(states, events, o, i, d), NetSince(states, events, d, o, i));
    }
  }

  /** The true count of o when review calls onzero for it, in events alone: its incs minus decs on each CPU since
      the last flush of that CPU, together. */
  lemma {:induction false} OnzeroCount(
    n: nat, ids: set<Id>, hash: Hash, states: seq<State>, events: seq<Event>, i: nat, o: Id)
    requires IsRun(n, ids, hash, states, events) && i < |events| && o in ids
    requires events[i].ReviewOn? && QueueNamed(states[i], events[i].cpu) && o in Review(states[i], events[i].cpu).freed
    ensures Net(events[..i], o) % WORD == NetSinceAll(states, events, o, i, n) % WORD
  {
    hide Inv, EpochInv, Review, QueueNamed, FlushedIn, Net, Defined, Legal, Evicts, IsRun, NetSinceAll, Sum;
    RunLength(n, ids, hash, states, events);
    RunSize(n, ids, hash, states, events, i);
    OnzeroSafety(n, ids, hash, states, events, i, o);
    CachedSince(n, ids, hash, states, events, LastQueued(n, ids, hash, states, events, i, o), i, o, n);
    assert states[i].cpus[..n] == states[i].cpus;
  }

  // ----- a run that fails it -----

  const A: Id := 7
  const B: Id := 8

  function OneSlot(o: Id): nat { 0 }

  /** An inc and a dec of A, before the first tick. */
  function UpAndDown(): seq<Event> {
    [IncOn(0, A), DecOn(0, A)]
  }

  /** After it, from the zeroed start, counting B fails the assert. */
  lemma {:induction false} ZeroDeltaTrips() returns (states: seq<State>)
    ensures IsRun(1, {A, B}, OneSlot, states, UpAndDown())
    ensures !CanBump(states[2], OneSlot, 0, B)
  {
    var s0 := Init(1, {A, B});
    var events := UpAndDown();
    InitInv(1, {A, B}, OneSlot);
    var s1 := Bump(s0, OneSlot, 0, A, 1);
    StepInv(s0, InitLog({A, B}), OneSlot, events[0]);
    assert CanBump(s1, OneSlot, 0, A);
    var s2 := Bump(s1, OneSlot, 0, A, -1);
    states := [s0, s1, s2];
    assert IsRun(1, {A, B}, OneSlot, states, events);
    hide IsRun, Init, Bump;
    AssertFailsIff(1, {A, B}, OneSlot, states, events, 2, 0, B);
    UpAndDownTenant(states);
  }

  lemma {:induction false} UpAndDownTenant(states: seq<State>)
    requires |states| == 3
    ensures TenantAt(OneSlot, states, UpAndDown(), 0, 0, 2) == Tenant(Some(A), 0)
  {
    var events := UpAndDown();
    assert TenantAt(OneSlot, states, events, 0, 0, 0) == Tenant(None, 0);
    assert TenantAt(OneSlot, states, events, 0, 0, 1) == Tenant(Some(A), 1);
  }
}
