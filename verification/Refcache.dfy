/** refcache.c as it runs: the fields, the loops and the list walk, against the state machine. */
module Refcache {
  import opened Common
  import opened RefcacheSpec

  class RefcacheSystem {
    var globalEpoch: int
    var epochLeft: int
    var cpus: seq<Cpu>
    var objs: map<Id, Obj>
    /** The objects onzero was called for, in order. */
    var freed: seq<Id>
    const hash: Hash

    function St(): State
      reads this
    {
      State(globalEpoch, epochLeft, cpus, objs)
    }

    /** refcache_init, with refcache_refobj_init on the given objects. */
    constructor (n: nat, ids: set<Id>, hash: Hash)
      ensures this.hash == hash && freed == []
      ensures St() ==
        State(1, n, seq(n, i => Cpu(seq(SLOTS, k => Way(None, 0)), 0, [])), map o | o in ids :: Obj(0, 0, false))
    {
      this.hash := hash;
      globalEpoch, epochLeft := 1, n;
      cpus := seq(n, i => Cpu(seq(SLOTS, k => Way(None, 0)), 0, []));
      objs := map o | o in ids :: Obj(0, 0, false);
      freed := [];
    }

    method SetWay(c: nat, k: nat, w: Way)
      requires c < |cpus| && k < |cpus[c].ways|
      modifies this`cpus
      ensures cpus == old(cpus)[c := old(cpus[c]).(ways := old(cpus[c].ways)[k := w])]
    {
      cpus := cpus[c := cpus[c].(ways := cpus[c].ways[k := w])];
    }

    /** __evict */
    method EvictWay(c: nat, k: nat)
      requires CanEvict(St(), c, k)
      modifies this`cpus, this`objs
      ensures St() == Evict(old(St()), c, k)
    {
      var o, delta := cpus[c].ways[k].obj.value, cpus[c].ways[k].delta;
      objs := objs[o := objs[o].(refcount := (objs[o].refcount + delta) % WORD)];
      if objs[o].refcount == 0 {
        if objs[o].reviewEpoch == 0 {
          objs := objs[o := objs[o].(dirty := false, reviewEpoch := cpus[c].localEpoch + 3)];
          cpus := cpus[c := cpus[c].(queue := cpus[c].queue + [o])];
        } else {
          objs := objs[o := objs[o].(dirty := true)];
        }
      }
      SetWay(c, k, Way(None, delta));
      assert cpus == Evict(old(St()), c, k).cpus;
    }

    /** __get_my_way, then way->delta += amount: refcache_refobj_inc and refcache_refobj_dec. */
    method Count(c: nat, o: Id, amount: int)
      requires CanBump(St(), hash, c, o)
      modifies this`cpus, this`objs
      ensures St() == Bump(old(St()), hash, c, o, amount)
    {
      var k := hash(o);
      if cpus[c].ways[k].obj.Some? && cpus[c].ways[k].obj.value != o {
        EvictWay(c, k);
      }
      ghost var s1 := St();
      assert s1 == MakeRoom(old(St()), hash, c, o);
      if cpus[c].ways[k].obj == None {
        SetWay(c, k, Way(Some(o), 0));
      }
      SetWay(c, k, cpus[c].ways[k].(delta := Wrap(cpus[c].ways[k].delta + amount)));
      assert cpus[c].ways == s1.cpus[c].ways[k := cpus[c].ways[k]];
      assert cpus == Bump(old(St()), hash, c, o, amount).cpus;
    }

    /** The body of the loop of flush. */
    method FlushOne(c: nat, i: nat)
      requires c < |cpus| && i < |cpus[c].ways|
      requires cpus[c].ways[i].obj.Some? ==> cpus[c].ways[i].obj.value in objs
      modifies this`cpus, this`objs
      ensures St() == FlushWay(old(St()), c, i)
    {
      ghost var s := St();
      if cpus[c].ways[i].obj != None {
        if cpus[c].ways[i].delta != 0 {
          EvictWay(c, i);
        }
        SetWay(c, i, Way(None, cpus[c].ways[i].delta));
      }
      assert cpus[c].ways == FlushWay(s, c, i).cpus[c].ways;
      assert cpus == FlushWay(s, c, i).cpus;
    }

    /** flush */
    method FlushCpu(c: nat)
      requires c < |cpus| && WaysOk(St())
      modifies this`cpus, this`objs, this`globalEpoch, this`epochLeft
      ensures St() == Flush(old(St()), c)
    {
      hide FlushWay;
      var ge := globalEpoch;
      if ge == cpus[c].localEpoch {
        return;
      }
      cpus := cpus[c := cpus[c].(localEpoch := ge)];
      ghost var s1 := St();
      assert s1 == StartFlush(old(St()), c) && WaysOk(s1);
      var i := 0;
      while i < SLOTS
        invariant 0 <= i <= SLOTS && c < |cpus| && WaysOk(St())
        invariant FlushWays(St(), c, i) == FlushWays(s1, c, 0)
      {
        ghost var s := St();
        FlushWayKeepsWays(s, c, i);
        FlushOne(c, i);
        i := i + 1;
      }
      epochLeft := epochLeft - 1;
      if epochLeft == 0 {
        epochLeft := epochLeft + |cpus|;
        globalEpoch := globalEpoch + 1;
      }
    }

    /** The body of the loop of review, for the object at position i. */
    method Decide(c: nat, epoch: int, i: nat) returns (verdict: Verdict)
      requires c < |cpus| && i < |cpus[c].queue| && cpus[c].queue[i] in objs
      modifies this`cpus, this`objs, this`freed
      ensures var s, o := old(St()), old(cpus[c].queue[i]);
              verdict == Judge(s.objs[o], epoch) && freed == old(freed) + (if verdict == Free then [o] else []) &&
              match verdict
              case Later => St() == s
              case Requeue => St() == PutBack(Unqueue(s, c, i), c, o, epoch)
              case _ => St() == Unqueue(s, c, i)
    {
      ghost var s := St();
      var o := cpus[c].queue[i];
      if objs[o].reviewEpoch > epoch {
        return Later;
      }
      cpus := cpus[c := cpus[c].(queue := Removed(cpus[c].queue, i))];
      objs := objs[o := objs[o].(reviewEpoch := 0)];
      assert St() == Unqueue(s, c, i);
      if objs[o].refcount != 0 {
        verdict := Drop;
      } else if objs[o].dirty {
        objs := objs[o := objs[o].(dirty := false)];
        objs := objs[o := objs[o].(reviewEpoch := epoch + 2)];
        cpus := cpus[c := cpus[c].(queue := cpus[c].queue + [o])];
        verdict := Requeue;
        assert objs == PutBack(Unqueue(s, c, i), c, o, epoch).objs;
      } else {
        freed := freed + [o];
        verdict := Free;
      }
    }

    /** review; i is the position of the walk in the list, and `stop` that the list head has
        become the next entry. */
    method ReviewCpu(c: nat)
      requires QueueNamed(St(), c)
      modifies this`cpus, this`objs, this`freed
      ensures St() == Review(old(St()), c).s && freed == old(freed) + Review(old(St()), c).freed
    {
      hide Walk, Judge, Unqueue, PutBack;
      var epoch := globalEpoch;
      var i, stop := 0, false;
      ghost var r := Review(St(), c);
      while !stop && i < |cpus[c].queue|
        invariant QueueNamed(St(), c) && globalEpoch == epoch
        invariant !stop ==>
          r.s == Walk(St(), c, epoch, i).s &&
          old(freed) + r.freed == freed + Walk(St(), c, epoch, i).freed
        invariant stop ==> r.s == St() && old(freed) + r.freed == freed
        decreases !stop, |cpus[c].queue| - i
      {
        ghost var f, s, o := freed, St(), cpus[c].queue[i];
        WalkAt(s, c, epoch, i);
        UnqueueShorter(s, c, i);
        var verdict := Decide(c, epoch, i);
        if verdict == Later {
          i := i + 1;
        }
        stop := verdict == Requeue;
        assert f + [] == f;
        assert verdict == Free ==>
          f + ([o] + Walk(St(), c, epoch, i).freed) == (f + [o]) + Walk(St(), c, epoch, i).freed;
      }
      if !stop {
        WalkAt(St(), c, epoch, i);
      }
    }
  }

  lemma {:induction false} UnqueueShorter(s: State, c: nat, i: nat)
    requires c < |s.cpus| && i < |s.cpus[c].queue| && s.cpus[c].queue[i] in s.objs
    ensures |Unqueue(s, c, i).cpus| == |s.cpus| && |Unqueue(s, c, i).cpus[c].queue| == |s.cpus[c].queue| - 1
    ensures Unqueue(s, c, i).globalEpoch == s.globalEpoch
  {
  }
}
