/**
 expr_eliminate_dups1, expr_eliminate_dups2 and expr_eliminate_dups.

 Both passes are called with two pointers into one and the same tree, and what is
 written through one is read through the other.  Here the tree is one value and the
 two pointers are paths from its root; pointer equality is equality of paths.
 */
module KconfigDups {
  import opened Common
  import opened KconfigExpr
  import opened KconfigEq
  import opened KconfigJoin

  /** false goes left, true goes right. */
  type Path = seq<bool>

  /** All nodes above p, below the root t, are op nodes. */
  predicate OnSpine(op: Op, t: Expr, p: Path) {
    p == [] || (IsOp(op, t) && OnSpine(op, if p[0] then t.r else t.l, p[1..]))
  }

  function Get(op: Op, t: Expr, p: Path): Expr
    requires OnSpine(op, t, p)
  {
    if p == [] then t else Get(op, if p[0] then t.r else t.l, p[1..])
  }

  function Put(op: Op, t: Expr, p: Path, x: Expr): Expr
    requires OnSpine(op, t, p)
  {
    if p == [] then x
    else if p[0] then Mk(op, t.l, Put(op, t.r, p[1..], x))
    else Mk(op, Put(op, t.l, p[1..], x), t.r)
  }

  /** The op nodes at the top of a tree. */
  function Spine(op: Op, t: Expr): nat {
    if IsOp(op, t) then 1 + Spine(op, t.l) + Spine(op, t.r) else 0
  }

  /** The two trees have the same op nodes at the top. */
  predicate SameSpine(op: Op, t: Expr, u: Expr) {
    IsOp(op, t) == IsOp(op, u) && (IsOp(op, t) ==> SameSpine(op, t.l, u.l) && SameSpine(op, t.r, u.r))
  }

  lemma {:induction false} SpineSelf(op: Op, t: Expr)
    ensures SameSpine(op, t, t)
  {
    if IsOp(op, t) { SpineSelf(op, t.l); SpineSelf(op, t.r); }
  }

  lemma {:induction false} SpineTrans(op: Op, t: Expr, u: Expr, w: Expr)
    requires SameSpine(op, t, u) && SameSpine(op, u, w)
    ensures SameSpine(op, t, w)
  {
    if IsOp(op, t) { SpineTrans(op, t.l, u.l, w.l); SpineTrans(op, t.r, u.r, w.r); }
  }

  lemma {:induction false} SpineCount(op: Op, t: Expr, u: Expr)
    requires SameSpine(op, t, u)
    ensures Spine(op, t) == Spine(op, u)
  {
    if IsOp(op, t) { SpineCount(op, t.l, u.l); SpineCount(op, t.r, u.r); }
  }

  /** Paths mean the same in trees with the same spine. */
  lemma {:induction false} SpineAt(op: Op, t: Expr, u: Expr, p: Path)
    requires SameSpine(op, t, u) && OnSpine(op, t, p)
    ensures OnSpine(op, u, p) && SameSpine(op, Get(op, t, p), Get(op, u, p)) &&
      Spine(op, Get(op, t, p)) == Spine(op, Get(op, u, p))
  {
    if p == [] {
      SpineCount(op, t, u);
    } else {
      SpineAt(op, if p[0] then t.r else t.l, if p[0] then u.r else u.l, p[1..]);
    }
  }

  lemma {:induction false} Below(op: Op, t: Expr, p: Path, right: bool)
    requires OnSpine(op, t, p) && IsOp(op, Get(op, t, p))
    ensures OnSpine(op, t, p + [right]) && Get(op, t, p + [right]) == if right then Get(op, t, p).r else Get(op, t, p).l
  {
    if p == [] {
      assert p + [right] == [right] && [right][1..] == [];
    } else {
      assert (p + [right])[1..] == p[1..] + [right];
      Below(op, if p[0] then t.r else t.l, p[1..], right);
    }
  }

  lemma {:induction false} GetPut(op: Op, t: Expr, p: Path, x: Expr)
    requires OnSpine(op, t, p)
    ensures OnSpine(op, Put(op, t, p, x), p) && Get(op, Put(op, t, p, x), p) == x
    ensures Put(op, t, p, Get(op, t, p)) == t
    ensures Size(Put(op, t, p, x)) == Size(t) - Size(Get(op, t, p)) + Size(x)
  {
    if p != [] { GetPut(op, if p[0] then t.r else t.l, p[1..], x); }
  }

  lemma {:induction false} PutSpine(op: Op, t: Expr, p: Path, x: Expr)
    requires OnSpine(op, t, p) && SameSpine(op, Get(op, t, p), x)
    ensures SameSpine(op, t, Put(op, t, p, x))
  {
    if p != [] {
      PutSpine(op, if p[0] then t.r else t.l, p[1..], x);
      SpineSelf(op, if p[0] then t.l else t.r);
    }
  }

  /** Two different leaves of the spine do not interfere. */
  lemma {:induction false} GetOther(op: Op, t: Expr, p: Path, q: Path, x: Expr)
    requires OnSpine(op, t, p) && OnSpine(op, t, q) && p != q && !IsOp(op, Get(op, t, p)) && !IsOp(op, Get(op, t, q))
    ensures OnSpine(op, Put(op, t, p, x), q) && Get(op, Put(op, t, p, x), q) == Get(op, t, q)
  {
    if p != [] && q != [] && p[0] == q[0] {
      assert p == [p[0]] + p[1..] && q == [q[0]] + q[1..];
      GetOther(op, if p[0] then t.r else t.l, p[1..], q[1..], x);
    }
  }

  lemma {:induction false} LeafSmaller(op: Op, t: Expr, p: Path)
    requires OnSpine(op, t, p) && p != []
    ensures Size(Get(op, t, p)) < Size(t)
  {
    var u := if p[0] then t.r else t.l;
    if p[1..] != [] { LeafSmaller(op, u, p[1..]); }
  }

  // ----- the value of a spine -----

  /** What the rest of the spine contributes. */
  lemma {:induction false} PutMeans(v: Valuation, op: Op, t: Expr, p: Path, x: Expr)
    requires Ranged(v) && OnSpine(op, t, p)
    ensures Val(v, Put(op, t, p, x)) == Apply(op, Val(v, x), Val(v, Put(op, t, p, Unit(op))))
  {
    ValRange(v, x);
    if p == [] {
      Constants(v);
    } else {
      var u := if p[0] then t.r else t.l;
      PutMeans(v, op, u, p[1..], x);
      hide Ranged, Apply, Val;
      var y, o := Put(op, u, p[1..], x), if p[0] then t.l else t.r;
      var z := Put(op, u, p[1..], Unit(op));
      MkVal(v, op, t.l, y); MkVal(v, op, y, t.r); MkVal(v, op, t.l, z); MkVal(v, op, z, t.r);
      Shuffle(op, Val(v, x), Val(v, z), Val(v, o));
    }
  }

  lemma {:induction false} Shuffle(op: Op, x: int, z: int, o: int)
    ensures Apply(op, Apply(op, x, z), o) == Apply(op, x, Apply(op, z, o))
    ensures Apply(op, o, Apply(op, x, z)) == Apply(op, x, Apply(op, o, z))
  {
  }

  /** Two operands are replaced by the unit and by something worth both. */
  lemma {:induction false} MergeMeans(v: Valuation, op: Op, t: Expr, p: Path, q: Path, x: Expr)
    requires Ranged(v) && OnSpine(op, t, p) && OnSpine(op, t, q) && p != q && !IsOp(op, Get(op, t, p)) &&
      !IsOp(op, Get(op, t, q))
    requires Val(v, x) == Apply(op, Val(v, Get(op, t, p)), Val(v, Get(op, t, q)))
    ensures OnSpine(op, Put(op, t, p, Unit(op)), q) && Val(v, Put(op, Put(op, t, p, Unit(op)), q, x)) == Val(v, t)
  {
    hide Ranged, Apply, Val;
    var e1, e2, t1 := Get(op, t, p), Get(op, t, q), Put(op, t, p, Unit(op));
    GetPut(op, t, p, e1);
    GetOther(op, t, p, q, Unit(op));
    PutMeans(v, op, t, p, e1);
    GetPut(op, t1, q, e2);
    PutMeans(v, op, t1, q, e2);
    PutMeans(v, op, t1, q, x);
    Shuffle(op, Val(v, e1), Val(v, e2), Val(v, Put(op, t1, q, Unit(op))));
  }

  // ----- reducibility -----

  lemma {:induction false} ReducibleAt(op: Op, t: Expr, p: Path)
    requires OnSpine(op, t, p) && (Reducible(Get(op, t, p)) || (p != [] && IsYN(Get(op, t, p))))
    ensures Reducible(t)
  {
    if p != [] && p[1..] != [] {
      ReducibleAt(op, if p[0] then t.r else t.l, p[1..]);
    } else if p != [] {
      assert Get(op, t, p) == if p[0] then t.r else t.l;
    }
  }

  // ----- expr_eliminate_dups1 -----

  /** The tree after a pass, and what the pass added to trans_count. */
  datatype Pass = Pass(t: Expr, count: nat)

  /** A pass keeps the spine and does not grow the tree; a pass that counts a rewrite leaves
      something for expr_eliminate_yn to remove, one that counts none changes nothing. */
  predicate Sound(op: Op, t: Expr, r: Pass) {
    SameSpine(op, t, r.t) && Size(r.t) <= Size(t) && (if r.count == 0 then r.t == t else Reducible(r.t))
  }

  function Other(op: Op): Op {
    if op == OpAnd then OpOr else OpAnd
  }

  lemma {:induction false} SoundTrans(op: Op, t: Expr, a: Pass, b: Pass)
    requires Sound(op, t, a) && Sound(op, a.t, b)
    ensures Sound(op, t, Pass(b.t, a.count + b.count))
  {
    SpineTrans(op, t, a.t, b.t);
  }

  lemma {:induction false} SoundSelf(op: Op, t: Expr)
    ensures Sound(op, t, Pass(t, 0))
  {
    SpineSelf(op, t);
  }

  /** A leaf of the spine is replaced by the result of a pass over that leaf. */
  lemma {:induction false} SoundInside(op: Op, t: Expr, p: Path, n: Pass)
    requires OnSpine(op, t, p) && !IsOp(op, Get(op, t, p)) && Sound(Other(op), Get(op, t, p), n) &&
      (n.count == 0 || IsOp(Other(op), Get(op, t, p)))
    ensures !IsOp(op, n.t) && Sound(op, t, Pass(Put(op, t, p, n.t), n.count))
    ensures OnSpine(op, Put(op, t, p, n.t), p) && Get(op, Put(op, t, p, n.t), p) == n.t
  {
    GetPut(op, t, p, n.t);
    PutSpine(op, t, p, n.t);
    if n.count > 0 {
      ReducibleAt(op, Put(op, t, p, n.t), p);
    }
  }

  /** The join of the leaves at p and q, if there is one, goes to q and the unit to p. */
  function Merge(op: Op, t: Expr, p: Path, q: Path): (r: Pass)
    requires OnSpine(op, t, p) && OnSpine(op, t, q) && p != q && !IsOp(op, Get(op, t, p)) && !IsOp(op, Get(op, t, q))
    ensures Sound(op, t, r)
  {
    var e1, e2 := Get(op, t, p), Get(op, t, q);
    var j := Join(op, e1, e2);
    if j == None then
      SoundSelf(op, t);
      Pass(t, 0)
    else
      JoinShape(op, e1, e2);
      SizePositive(e1); SizePositive(e2);
      GetPut(op, t, p, Unit(op));
      PutSpine(op, t, p, Unit(op));
      GetOther(op, t, p, q, Unit(op));
      var t1 := Put(op, t, p, Unit(op));
      GetPut(op, t1, q, j.value);
      PutSpine(op, t1, q, j.value);
      GetOther(op, t1, q, p, j.value);
      var t2 := Put(op, t1, q, j.value);
      SpineTrans(op, t, t1, t2);
      ReducibleAt(op, t2, p);
      Pass(t2, 1)
  }

  lemma {:induction false} BothRoots(op: Op, t: Expr, p: Path, q: Path)
    requires OnSpine(op, t, p) && OnSpine(op, t, q) && p != q && !IsOp(op, Get(op, t, p))
    ensures p != []
  {
  }

  /** expr_eliminate_dups1 */
  function Dups1(op: Op, t: Expr, p1: Path, p2: Path): (r: Pass)
    requires OnSpine(op, t, p1) && OnSpine(op, t, p2)
    ensures Sound(op, t, r)
    decreases Size(t), Spine(op, Get(op, t, p1)) + Spine(op, Get(op, t, p2))
  {
    hide Sound, Get, OnSpine, SameSpine;
    var e1, e2 := Get(op, t, p1), Get(op, t, p2);
    if IsOp(op, e1) then
      Below(op, t, p1, false); Below(op, t, p1, true);
      var a := Dups1(op, t, p1 + [false], p2);
      Later(op, t, a, p1 + [true], p2);
      var b := Dups1(op, a.t, p1 + [true], p2);
      SoundTrans(op, t, a, b);
      Pass(b.t, a.count + b.count)
    else if IsOp(op, e2) then
      Below(op, t, p2, false); Below(op, t, p2, true);
      var a := Dups1(op, t, p1, p2 + [false]);
      Later(op, t, a, p1, p2 + [true]);
      var b := Dups1(op, a.t, p1, p2 + [true]);
      SoundTrans(op, t, a, b);
      Pass(b.t, a.count + b.count)
    else if p1 == p2 then
      SoundSelf(op, t);
      Pass(t, 0)
    else
      BothRoots(op, t, p1, p2);
      LeafSmaller(op, t, p1);
      Roots(op, e1);
      var n := if IsOp(Other(op), e1) then Dups1(Other(op), e1, [], []) else Pass(e1, 0);
      SoundSelf(Other(op), e1);
      SoundInside(op, t, p1, n);
      GetOther(op, t, p1, p2, n.t);
      var t1 := Put(op, t, p1, n.t);
      var m := Merge(op, t1, p1, p2);
      SoundTrans(op, t, Pass(t1, n.count), m);
      Pass(m.t, n.count + m.count)
  }

  lemma {:induction false} Roots(op: Op, e: Expr)
    ensures OnSpine(op, e, []) && OnSpine(Other(op), e, []) && Get(op, e, []) == e && Get(Other(op), e, []) == e
  {
  }

  /** After a first pass the paths still lead to the same kind of place. */
  lemma {:induction false} Later(op: Op, t: Expr, a: Pass, p: Path, q: Path)
    requires Sound(op, t, a) && OnSpine(op, t, p) && OnSpine(op, t, q)
    ensures Size(a.t) <= Size(t) && OnSpine(op, a.t, p) && OnSpine(op, a.t, q)
    ensures Spine(op, Get(op, a.t, p)) == Spine(op, Get(op, t, p)) &&
      Spine(op, Get(op, a.t, q)) == Spine(op, Get(op, t, q))
  {
    SpineAt(op, t, a.t, p);
    SpineAt(op, t, a.t, q);
  }

  /** Replacing a leaf by one of the same value. */
  lemma {:induction false} PutSame(v: Valuation, op: Op, t: Expr, p: Path, x: Expr)
    requires Ranged(v) && OnSpine(op, t, p) && Val(v, x) == Val(v, Get(op, t, p))
    ensures Val(v, Put(op, t, p, x)) == Val(v, t)
  {
    GetPut(op, t, p, x);
    PutMeans(v, op, t, p, x);
    PutMeans(v, op, t, p, Get(op, t, p));
  }

  lemma {:induction false} MergeKeeps(v: Valuation, op: Op, t: Expr, p: Path, q: Path)
    requires Proper(v) && OnSpine(op, t, p) && OnSpine(op, t, q) && p != q && !IsOp(op, Get(op, t, p)) &&
      !IsOp(op, Get(op, t, q))
    ensures Val(v, Merge(op, t, p, q).t) == Val(v, t)
  {
    assert Ranged(v);
    hide Proper, Ranged;
    var e1, e2 := Get(op, t, p), Get(op, t, q);
    var j := Join(op, e1, e2);
    if j.Some? {
      JoinMeans(v, op, e1, e2);
      MergeMeans(v, op, t, p, q, j.value);
      hide Get, Put, OnSpine, Val;
    }
  }

  /** The first pass keeps the value in every valuation that respects the symbols' types. */
  lemma {:induction false} Dups1Means(v: Valuation, op: Op, t: Expr, p1: Path, p2: Path)
    requires Proper(v) && OnSpine(op, t, p1) && OnSpine(op, t, p2)
    ensures Val(v, Dups1(op, t, p1, p2).t) == Val(v, t)
    decreases Size(t), Spine(op, Get(op, t, p1)) + Spine(op, Get(op, t, p2))
  {
    assert Ranged(v);
    hide Proper, Ranged, Sound, Get, OnSpine, SameSpine, Val;
    var e1, e2 := Get(op, t, p1), Get(op, t, p2);
    if IsOp(op, e1) {
      Below(op, t, p1, false); Below(op, t, p1, true);
      var a := Dups1(op, t, p1 + [false], p2);
      Later(op, t, a, p1 + [true], p2);
      Dups1Means(v, op, t, p1 + [false], p2);
      Dups1Means(v, op, a.t, p1 + [true], p2);
    } else if IsOp(op, e2) {
      Below(op, t, p2, false); Below(op, t, p2, true);
      var a := Dups1(op, t, p1, p2 + [false]);
      Later(op, t, a, p1, p2 + [true]);
      Dups1Means(v, op, t, p1, p2 + [false]);
      Dups1Means(v, op, a.t, p1, p2 + [true]);
    } else if p1 != p2 {
      BothRoots(op, t, p1, p2);
      LeafSmaller(op, t, p1);
      Roots(op, e1);
      var n := if IsOp(Other(op), e1) then Dups1(Other(op), e1, [], []) else Pass(e1, 0);
      if IsOp(Other(op), e1) {
        Dups1Means(v, Other(op), e1, [], []);
      }
      SoundSelf(Other(op), e1);
      SoundInside(op, t, p1, n);
      GetOther(op, t, p1, p2, n.t);
      PutSame(v, op, t, p1, n.t);
      MergeKeeps(v, op, Put(op, t, p1, n.t), p1, p2);
    }
  }

  // ----- expr_eliminate_dups2 -----

  /** n for a conjunction, y for a disjunction */
  function Zero(op: Op): Expr {
    if op == OpAnd then Sym(NO) else Sym(YES)
  }

  /** All operands of the negation of e1 occur among the operands of e2. */
  predicate Excludes(op: Op, e1: Expr, e2: Expr) {
    var x := ExtractEq(op, Transform(Not(e1)), e2);
    (if x.common != [] then ElimYN(x.e1) else x.e1) == Unit(op)
  }

  /** The leaf at p, if the operand at q excludes it, decides the whole spine. */
  function Cancel(op: Op, t: Expr, p: Path, q: Path): (r: Pass)
    requires OnSpine(op, t, p) && OnSpine(op, t, q) && p != [] && !IsOp(op, Get(op, t, p))
    ensures Sound(op, t, r)
  {
    if Excludes(op, Get(op, t, p), Get(op, t, q)) then
      SizePositive(Get(op, t, p));
      GetPut(op, t, p, Zero(op));
      PutSpine(op, t, p, Zero(op));
      ReducibleAt(op, Put(op, t, p, Zero(op)), p);
      Pass(Put(op, t, p, Zero(op)), 1)
    else
      SoundSelf(op, t);
      Pass(t, 0)
  }

  /** expr_eliminate_dups2; with e2 an op node its third branch is taken as well, since the
      source does not return there. */
  function Dups2(op: Op, t: Expr, p1: Path, p2: Path): (r: Pass)
    requires OnSpine(op, t, p1) && OnSpine(op, t, p2)
    ensures Sound(op, t, r)
    decreases Size(t), Spine(op, Get(op, t, p1)) + Spine(op, Get(op, t, p2)), 1
  {
    hide Sound, Get, OnSpine, SameSpine, Excludes;
    var e1 := Get(op, t, p1);
    if IsOp(op, e1) then
      Below(op, t, p1, false); Below(op, t, p1, true);
      var a := Dups2(op, t, p1 + [false], p2);
      Later(op, t, a, p1 + [true], p2);
      var b := Dups2(op, a.t, p1 + [true], p2);
      SoundTrans(op, t, a, b);
      Pass(b.t, a.count + b.count)
    else
      var a := Dups2Right(op, t, p1, p2);
      if p1 == p2 then a
      else
        BothRoots(op, t, p1, p2);
        Later(op, t, a, p1, p2);
        LeafStays(op, t, a, p1);
        var x := Get(op, a.t, p1);
        if !IsOp(Other(op), x) then a
        else
          LeafSmaller(op, a.t, p1);
          Roots(op, x);
          var n := Dups2(Other(op), x, [], []);
          SoundInside(op, a.t, p1, n);
          var t1 := Put(op, a.t, p1, n.t);
          SoundTrans(op, t, a, Pass(t1, n.count));
          Later(op, a.t, Pass(t1, n.count), p1, p2);
          var m := Cancel(op, t1, p1, p2);
          SoundTrans(op, t, Pass(t1, a.count + n.count), m);
          Pass(m.t, a.count + n.count + m.count)
  }

  /** Its second branch: e2 is an op node. */
  function Dups2Right(op: Op, t: Expr, p1: Path, p2: Path): (r: Pass)
    requires OnSpine(op, t, p1) && OnSpine(op, t, p2)
    ensures Sound(op, t, r)
    decreases Size(t), Spine(op, Get(op, t, p1)) + Spine(op, Get(op, t, p2)), 0
  {
    hide Sound, Get, OnSpine, SameSpine;
    if IsOp(op, Get(op, t, p2)) then
      Below(op, t, p2, false); Below(op, t, p2, true);
      var a := Dups2(op, t, p1, p2 + [false]);
      Later(op, t, a, p1, p2 + [true]);
      var b := Dups2(op, a.t, p1, p2 + [true]);
      SoundTrans(op, t, a, b);
      Pass(b.t, a.count + b.count)
    else
      SoundSelf(op, t);
      Pass(t, 0)
  }

  lemma {:induction false} LeafStays(op: Op, t: Expr, a: Pass, p: Path)
    requires Sound(op, t, a) && OnSpine(op, t, p) && !IsOp(op, Get(op, t, p))
    ensures OnSpine(op, a.t, p) && !IsOp(op, Get(op, a.t, p))
  {
    SpineAt(op, t, a.t, p);
  }
}
