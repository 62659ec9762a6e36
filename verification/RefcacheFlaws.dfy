/** A run of the reference-count cache in which onzero is called while a reference exists. */
module RefcacheFlaws {
  import opened Common
  import opened RefcacheSpec
  import opened RefcacheRuns

  // ----- states of two CPUs that share one object, number 7, in slot 0 -----

  const OBJ: Id := 7

  function Slot0(o: Id): nat { 0 }

  function Table(w: Way): seq<Way> {
    seq(SLOTS, k => if k == 0 then w else Way(None, 0))
  }

  /** A way holding the object with this delta, or an empty one that held it last. */
  function Holds(delta: int): Way { Way(Some(OBJ), delta) }
  function Clear(delta: int): Way { Way(None, delta) }

  function Two(epoch: int, left: int, e0: int, e1: int, w0: Way, w1: Way, q1: seq<Id>, ob: Obj): State {
    State(epoch, left, [Cpu(Table(w0), e0, []), Cpu(Table(w1), e1, q1)], map[OBJ := ob])
  }

  lemma {:induction false} TableSet(w: Way, w': Way)
    ensures Table(w)[0] == w && Table(w)[0 := w'] == Table(w')
  {
  }

  /** With only slot 0 in use a flush of the table is a flush of that slot. */
  lemma {:induction false} RestEmpty(s: State, c: nat, k: nat)
    requires WaysOk(s) && c < |s.cpus| && 1 <= k <= SLOTS
    requires forall j :: 1 <= j < SLOTS ==> s.cpus[c].ways[j].obj == None
    ensures FlushWays(s, c, k) == s
    decreases SLOTS - k
  {
    if k < SLOTS {
      RestEmpty(s, c, k + 1);
    }
  }

  lemma {:induction false} FlushSlot0(s: State, c: nat)
    requires WaysOk(s) && c < |s.cpus| && s.globalEpoch != s.cpus[c].localEpoch
    requires forall j :: 1 <= j < SLOTS ==> s.cpus[c].ways[j].obj == None
    ensures WaysOk(StartFlush(s, c)) && Flush(s, c) == EndFlush(FlushWay(StartFlush(s, c), c, 0))
  {
    var s1 := StartFlush(s, c);
    FlushWayKeepsWays(s1, c, 0);
    RestEmpty(FlushWay(s1, c, 0), c, 1);
  }

  lemma {:induction false} TwoOk(epoch: int, left: int, e0: int, e1: int, w0: Way, w1: Way, q1: seq<Id>, ob: Obj)
    requires w0.obj in {None, Some(OBJ)} && w1.obj in {None, Some(OBJ)} && forall j :: 0 <= j < |q1| ==> q1[j] == OBJ
    ensures Defined(Two(epoch, left, e0, e1, w0, w1, q1, ob))
    ensures CanBump(Two(epoch, left, e0, e1, w0, w1, q1, ob), Slot0, 0, OBJ) &&
      CanBump(Two(epoch, left, e0, e1, w0, w1, q1, ob), Slot0, 1, OBJ)
  {
  }

  function Bumped(w: Way, amount: int): Way {
    Holds(Wrap((if w.obj == None then 0 else w.delta) + amount))
  }

  lemma {:induction false} Bumps(
    epoch: int, left: int, e0: int, e1: int, w0: Way, w1: Way, q1: seq<Id>, ob: Obj, amount: int)
    requires w0.obj in {None, Some(OBJ)} && w1.obj in {None, Some(OBJ)} && forall j :: 0 <= j < |q1| ==> q1[j] == OBJ
    ensures var s := Two(epoch, left, e0, e1, w0, w1, q1, ob);
            CanBump(s, Slot0, 0, OBJ) && CanBump(s, Slot0, 1, OBJ) &&
            Bump(s, Slot0, 0, OBJ, amount) == Two(epoch, left, e0, e1, Bumped(w0, amount), w1, q1, ob) &&
            Bump(s, Slot0, 1, OBJ, amount) == Two(epoch, left, e0, e1, w0, Bumped(w1, amount), q1, ob)
  {
    TwoOk(epoch, left, e0, e1, w0, w1, q1, ob);
    TableSet(w0, Bumped(w0, amount));
    TableSet(w1, Bumped(w1, amount));
  }

  function Flushed(w: Way): Way {
    Way(None, w.delta)
  }

  ghost predicate Fits(w0: Way, w1: Way, q1: seq<Id>) {
    w0.obj in {None, Some(OBJ)} && w1.obj in {None, Some(OBJ)} && forall j :: 0 <= j < |q1| ==> q1[j] == OBJ
  }

  predicate Settles(w: Way) {
    w.obj.Some? && w.delta != 0
  }

  lemma {:induction false} FlushWay0(epoch: int, left: int, e0: int, e1: int, w0: Way, w1: Way, q1: seq<Id>, ob: Obj)
    requires Fits(w0, w1, q1) && !Queues(ob, w0.delta)
    ensures FlushWay(Two(epoch, left, e0, e1, w0, w1, q1, ob), 0, 0) ==
            Two(epoch, left, e0, e1, Flushed(w0), w1, q1, if Settles(w0) then Settled(ob, w0.delta, e0) else ob)
  {
    TableSet(w0, Flushed(w0));
  }

  lemma {:induction false} FlushWay1(epoch: int, left: int, e0: int, e1: int, w0: Way, w1: Way, q1: seq<Id>, ob: Obj)
    requires Fits(w0, w1, q1)
    ensures FlushWay(Two(epoch, left, e0, e1, w0, w1, q1, ob), 1, 0) ==
            Two(epoch, left, e0, e1, w0, Flushed(w1), if Settles(w1) && Queues(ob, w1.delta) then q1 + [OBJ] else q1,
                if Settles(w1) then Settled(ob, w1.delta, e1) else ob)
  {
    TableSet(w1, Flushed(w1));
  }

  lemma {:induction false} Starts(epoch: int, left: int, e0: int, e1: int, w0: Way, w1: Way, q1: seq<Id>, ob: Obj)
    ensures StartFlush(Two(epoch, left, e0, e1, w0, w1, q1, ob), 0) == Two(epoch, left, epoch, e1, w0, w1, q1, ob)
    ensures StartFlush(Two(epoch, left, e0, e1, w0, w1, q1, ob), 1) == Two(epoch, left, e0, epoch, w0, w1, q1, ob)
  {
  }

  lemma {:induction false} Ends(epoch: int, left: int, e0: int, e1: int, w0: Way, w1: Way, q1: seq<Id>, ob: Obj)
    requires left in {1, 2}
    ensures EndFlush(Two(epoch, left, e0, e1, w0, w1, q1, ob)) ==
            Two(if left == 1 then epoch + 1 else epoch, if left == 1 then 2 else 1, e0, e1, w0, w1, q1, ob)
  {
  }

  /** CPU 0 flushes, and nothing is queued. */
  lemma {:induction false} Flush0(epoch: int, left: int, e0: int, e1: int, w0: Way, w1: Way, q1: seq<Id>, ob: Obj)
    requires Fits(w0, w1, q1) && e0 != epoch && !Queues(ob, w0.delta) && left in {1, 2}
    ensures var s := Two(epoch, left, e0, e1, w0, w1, q1, ob);
            Defined(s) &&
            Flush(s, 0) == Two(if left == 1 then epoch + 1 else epoch, if left == 1 then 2 else 1,
                               epoch, e1, Flushed(w0), w1, q1,
                               if Settles(w0) then Settled(ob, w0.delta, epoch) else ob)
  {
    TwoOk(epoch, left, e0, e1, w0, w1, q1, ob);
    FlushSlot0(Two(epoch, left, e0, e1, w0, w1, q1, ob), 0);
    hide Flush, FlushWay, StartFlush, EndFlush, WaysOk, Settled, Queues, Settles, Flushed;
    Starts(epoch, left, e0, e1, w0, w1, q1, ob);
    FlushWay0(epoch, left, epoch, e1, w0, w1, q1, ob);
    Ends(epoch, left, epoch, e1, Flushed(w0), w1, q1, if Settles(w0) then Settled(ob, w0.delta, epoch) else ob);
  }

  lemma {:induction false} Flush1(epoch: int, left: int, e0: int, e1: int, w0: Way, w1: Way, q1: seq<Id>, ob: Obj)
    requires Fits(w0, w1, q1) && e1 != epoch && left in {1, 2}
    ensures var s := Two(epoch, left, e0, e1, w0, w1, q1, ob);
            Defined(s) &&
            Flush(s, 1) == Two(if left == 1 then epoch + 1 else epoch, if left == 1 then 2 else 1,
                               e0, epoch, w0, Flushed(w1),
                               if Settles(w1) && Queues(ob, w1.delta) then q1 + [OBJ] else q1,
                               if Settles(w1) then Settled(ob, w1.delta, epoch) else ob)
  {
    TwoOk(epoch, left, e0, e1, w0, w1, q1, ob);
    FlushSlot0(Two(epoch, left, e0, e1, w0, w1, q1, ob), 1);
    hide Flush, FlushWay, StartFlush, EndFlush, WaysOk, Settled, Queues, Settles, Flushed;
    Starts(epoch, left, e0, e1, w0, w1, q1, ob);
    FlushWay1(epoch, left, e0, epoch, w0, w1, q1, ob);
    Ends(epoch, left, e0, epoch, w0, Flushed(w1), if Settles(w1) && Queues(ob, w1.delta) then q1 + [OBJ] else q1,
         if Settles(w1) then Settled(ob, w1.delta, epoch) else ob);
  }

  // ----- a run that frees a referenced object -----

  /** Two CPUs hand one reference back and forth, each time after the tick of the CPU that
      takes it and before the tick of the CPU that gives it up. */
  function HandOver(): seq<Event> {
    [IncOn(0, OBJ), FlushOn(0), ReviewOn(0), IncOn(0, OBJ), DecOn(1, OBJ), FlushOn(1), ReviewOn(1),
     FlushOn(1), ReviewOn(1), IncOn(1, OBJ), DecOn(0, OBJ), FlushOn(0), ReviewOn(0),
     FlushOn(0), ReviewOn(0), IncOn(0, OBJ), DecOn(1, OBJ), FlushOn(1), ReviewOn(1)]
  }

  /** Flush and review come in pairs, as refcache_tick calls them. */
  predicate Ticks(events: seq<Event>) {
    forall i :: 0 <= i < |events| ==>
      (events[i].FlushOn? ==> i + 1 < |events| && events[i + 1] == ReviewOn(events[i].cpu)) &&
      (events[i].ReviewOn? ==> i > 0 && events[i - 1] == FlushOn(events[i].cpu))
  }

  /** The states of that run, up to the last review. */
  function HandStates(): seq<State> {
    var empty := Clear(0);
    var zero, one, due := Obj(0, 0, false), Obj(1, 0, false), Obj(0, 4, false);
    [Two(1, 2, 0, 0, empty, empty, [], zero),
     Two(1, 2, 0, 0, Holds(1), empty, [], zero),
     Two(1, 1, 1, 0, Clear(1), empty, [], one),
     Two(1, 1, 1, 0, Clear(1), empty, [], one),
     Two(1, 1, 1, 0, Holds(1), empty, [], one),
     Two(1, 1, 1, 0, Holds(1), Holds(-1), [], one),
     Two(2, 2, 1, 1, Holds(1), Clear(-1), [OBJ], due),
     Two(2, 2, 1, 1, Holds(1), Clear(-1), [OBJ], due),
     Two(2, 1, 1, 2, Holds(1), Clear(-1), [OBJ], due),
     Two(2, 1, 1, 2, Holds(1), Clear(-1), [OBJ], due),
     Two(2, 1, 1, 2, Holds(1), Holds(1), [OBJ], due),
     Two(2, 1, 1, 2, Holds(0), Holds(1), [OBJ], due),
     Two(3, 2, 2, 2, Clear(0), Holds(1), [OBJ], due),
     Two(3, 2, 2, 2, Clear(0), Holds(1), [OBJ], due),
     Two(3, 1, 3, 2, Clear(0), Holds(1), [OBJ], due),
     Two(3, 1, 3, 2, Clear(0), Holds(1), [OBJ], due),
     Two(3, 1, 3, 2, Holds(1), Holds(1), [OBJ], due),
     Two(3, 1, 3, 2, Holds(1), Holds(0), [OBJ], due),
     Two(4, 2, 3, 3, Holds(1), Clear(0), [OBJ], due)]
  }

  ghost predicate Next(s: State, e: Event, s': State) {
    Legal(s, Slot0, e) && Defined(s) && s' == Step(s, Slot0, e)
  }

  lemma {:induction false} NextBump(epoch: int, left: int, e0: int, e1: int, w0: Way, w1: Way, q1: seq<Id>, ob: Obj)
    requires Fits(w0, w1, q1)
    ensures var s := Two(epoch, left, e0, e1, w0, w1, q1, ob);
            Next(s, IncOn(0, OBJ), Two(epoch, left, e0, e1, Bumped(w0, 1), w1, q1, ob)) &&
            Next(s, DecOn(0, OBJ), Two(epoch, left, e0, e1, Bumped(w0, -1), w1, q1, ob)) &&
            Next(s, IncOn(1, OBJ), Two(epoch, left, e0, e1, w0, Bumped(w1, 1), q1, ob)) &&
            Next(s, DecOn(1, OBJ), Two(epoch, left, e0, e1, w0, Bumped(w1, -1), q1, ob))
  {
    hide Bump, Bumped, WaysOk;
    TwoOk(epoch, left, e0, e1, w0, w1, q1, ob);
    Bumps(epoch, left, e0, e1, w0, w1, q1, ob, 1);
    Bumps(epoch, left, e0, e1, w0, w1, q1, ob, -1);
  }

  lemma {:induction false} NextFlush0(epoch: int, left: int, e0: int, e1: int, w0: Way, w1: Way, q1: seq<Id>, ob: Obj)
    requires Fits(w0, w1, q1) && e0 != epoch && !Queues(ob, w0.delta) && left in {1, 2}
    ensures Next(Two(epoch, left, e0, e1, w0, w1, q1, ob), FlushOn(0),
                 Two(if left == 1 then epoch + 1 else epoch, if left == 1 then 2 else 1, epoch, e1, Flushed(w0), w1, q1,
                     if Settles(w0) then Settled(ob, w0.delta, epoch) else ob))
  {
    hide Flush, WaysOk;
    Flush0(epoch, left, e0, e1, w0, w1, q1, ob);
  }

  lemma {:induction false} NextFlush1(epoch: int, left: int, e0: int, e1: int, w0: Way, w1: Way, q1: seq<Id>, ob: Obj)
    requires Fits(w0, w1, q1) && e1 != epoch && left in {1, 2}
    ensures Next(Two(epoch, left, e0, e1, w0, w1, q1, ob), FlushOn(1),
                 Two(if left == 1 then epoch + 1 else epoch, if left == 1 then 2 else 1, e0, epoch, w0, Flushed(w1),
                     if Settles(w1) && Queues(ob, w1.delta) then q1 + [OBJ] else q1,
                     if Settles(w1) then Settled(ob, w1.delta, epoch) else ob))
  {
    hide Flush, WaysOk;
    Flush1(epoch, left, e0, e1, w0, w1, q1, ob);
  }

  /** A review that finds nothing due changes nothing. */
  lemma {:induction false} NextReview(
    epoch: int, left: int, e0: int, e1: int, w0: Way, w1: Way, q1: seq<Id>, ob: Obj, c: nat)
    requires Fits(w0, w1, q1) && (c == 0 || (c == 1 && (q1 == [] || (|q1| == 1 && ob.reviewEpoch > epoch))))
    ensures var s := Two(epoch, left, e0, e1, w0, w1, q1, ob); Next(s, ReviewOn(c), s)
  {
    hide WaysOk;
    TwoOk(epoch, left, e0, e1, w0, w1, q1, ob);
    var s := Two(epoch, left, e0, e1, w0, w1, q1, ob);
    assert QueueNamed(s, c);
    if c == 1 && |q1| == 1 {
      assert Judge(s.objs[q1[0]], epoch) == Later;
      assert Walk(s, c, epoch, 1) == Reviewed(s, [], None);
    }
    assert Walk(s, c, epoch, 0) == Reviewed(s, [], None);
  }

  lemma {:induction false} HandSteps1()
    ensures var h, e := HandStates(), HandOver(); forall i :: 0 <= i < 4 ==> Next(h[i], e[i], h[i + 1])
  {
    hide Next, Two;
    var empty, zero, one := Clear(0), Obj(0, 0, false), Obj(1, 0, false);
    NextBump(1, 2, 0, 0, empty, empty, [], zero);
    NextFlush0(1, 2, 0, 0, Holds(1), empty, [], zero);
    NextReview(1, 1, 1, 0, Clear(1), empty, [], one, 0);
    NextBump(1, 1, 1, 0, Clear(1), empty, [], one);
  }

  lemma {:induction false} HandSteps2()
    ensures var h, e := HandStates(), HandOver(); forall i :: 4 <= i < 7 ==> Next(h[i], e[i], h[i + 1])
  {
    hide Next, Two;
    var empty, one, due := Clear(0), Obj(1, 0, false), Obj(0, 4, false);
    NextBump(1, 1, 1, 0, Holds(1), empty, [], one);
    NextFlush1(1, 1, 1, 0, Holds(1), Holds(-1), [], one);
    assert [] + [OBJ] == [OBJ];
    NextReview(2, 2, 1, 1, Holds(1), Clear(-1), [OBJ], due, 1);
  }

  lemma {:induction false} HandSteps3()
    ensures var h, e := HandStates(), HandOver(); forall i :: 7 <= i < 13 ==> Next(h[i], e[i], h[i + 1])
  {
    hide Next, Two;
    var due := Obj(0, 4, false);
    NextFlush1(2, 2, 1, 1, Holds(1), Clear(-1), [OBJ], due);
    NextReview(2, 1, 1, 2, Holds(1), Clear(-1), [OBJ], due, 1);
    NextBump(2, 1, 1, 2, Holds(1), Clear(-1), [OBJ], due);
    NextBump(2, 1, 1, 2, Holds(1), Holds(1), [OBJ], due);
    NextFlush0(2, 1, 1, 2, Holds(0), Holds(1), [OBJ], due);
    NextReview(3, 2, 2, 2, Clear(0), Holds(1), [OBJ], due, 0);
  }

  lemma {:induction false} HandSteps4()
    ensures var h, e := HandStates(), HandOver(); forall i :: 13 <= i < 18 ==> Next(h[i], e[i], h[i + 1])
  {
    hide Next, Two;
    var due := Obj(0, 4, false);
    NextFlush0(3, 2, 2, 2, Clear(0), Holds(1), [OBJ], due);
    NextReview(3, 1, 3, 2, Clear(0), Holds(1), [OBJ], due, 0);
    NextBump(3, 1, 3, 2, Clear(0), Holds(1), [OBJ], due);
    NextBump(3, 1, 3, 2, Holds(1), Holds(1), [OBJ], due);
    NextFlush1(3, 1, 3, 2, Holds(1), Holds(0), [OBJ], due);
  }

  lemma {:induction false} RunOf(states: seq<State>, events: seq<Event>)
    requires |states| == |events| + 1 && states[0] == Init(2, {OBJ})
    requires forall i :: 0 <= i < |events| ==> Next(states[i], events[i], states[i + 1])
    ensures IsRun(2, {OBJ}, Slot0, states, events)
  {
    Slot0Hashes();
    hide Legal, Step, Defined, Init, Hashes;
    forall i | 0 <= i < |events|
      ensures Legal(states[i], Slot0, events[i]) && Defined(states[i]) &&
        states[i + 1] == Step(states[i], Slot0, events[i])
    {
      assert Next(states[i], events[i], states[i + 1]);
    }
  }

  lemma {:induction false} Slot0Hashes()
    ensures Hashes(Slot0)
  {
  }

  lemma {:induction false} HandLast(s: State)
    requires s == Two(4, 2, 3, 3, Holds(1), Clear(0), [OBJ], Obj(0, 4, false))
    ensures Legal(s, Slot0, ReviewOn(1)) && Defined(s) && Next(s, ReviewOn(1), Step(s, Slot0, ReviewOn(1)))
  {
    TwoOk(4, 2, 3, 3, Holds(1), Clear(0), [OBJ], Obj(0, 4, false));
  }

  /** A legal run at whose end review calls onzero for an object with one reference left. */
  lemma {:induction false} FreedWhileReferenced() returns (states: seq<State>)
    ensures IsRun(2, {OBJ}, Slot0, states, HandOver()) && Ticks(HandOver())
    ensures QueueNamed(states[18], 1) && OBJ in Review(states[18], 1).freed
    ensures Net(HandOver()[..18], OBJ) == 1
  {
    hide Net, Init, Review, QueueNamed, Next, Legal, Defined, Step, IsRun, Two;
    var h, e := HandStates(), HandOver();
    HandLast(h[18]);
    states := h + [Step(h[18], Slot0, ReviewOn(1))];
    HandSteps1(); HandSteps2(); HandSteps3(); HandSteps4();
    HandInit();
    forall i | 0 <= i < 19 ensures Next(states[i], e[i], states[i + 1]) {
      assert i < 18 ==> Next(h[i], e[i], h[i + 1]);
    }
    RunOf(states, e);
    HandReview(h[18]);
    HandNet();
  }

  lemma {:induction false} HandInit()
    ensures HandStates()[0] == Init(2, {OBJ})
  {
    var i := Init(2, {OBJ});
    assert Table(Clear(0)) == i.cpus[0].ways && Table(Clear(0)) == i.cpus[1].ways;
    assert i.objs == map[OBJ := Obj(0, 0, false)];
  }

  lemma {:induction false} HandReview(s: State)
    requires s == Two(4, 2, 3, 3, Holds(1), Clear(0), [OBJ], Obj(0, 4, false))
    ensures QueueNamed(s, 1) && OBJ in Review(s, 1).freed
  {
    assert s.cpus[1].queue[0] == OBJ && Judge(s.objs[OBJ], 4) == Free;
  }

  lemma {:induction false} NetSnoc(a: seq<Event>, e: Event)
    ensures Net(a + [e], OBJ) == Net(a, OBJ) + if Uses(e, OBJ) then Amount(e) else 0
  {
    assert (a + [e])[..|a|] == a;
  }

  lemma {:induction false} NetNone()
    ensures HandOver()[..0] == [] && Net([], OBJ) == 0
  {
  }

  lemma {:induction false} HandNet()
    ensures Net(HandOver()[..18], OBJ) == 1
  {
    var e := HandOver();
    NetNone();
    hide Net;
    var k := 0;
    while k < 18
      invariant 0 <= k <= 18
      invariant Net(e[..k], OBJ) == [0, 1, 1, 1, 2, 1, 1, 1, 1, 1, 2, 1, 1, 1, 1, 1, 2, 1, 1][k]
    {
      assert e[..k + 1] == e[..k] + [e[k]];
      NetSnoc(e[..k], e[k]);
      k := k + 1;
    }
  }
}
