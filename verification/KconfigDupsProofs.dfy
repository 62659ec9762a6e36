/** What expr_eliminate_dups keeps, when it stops, and where it changes a value. */
module KconfigDupsProofs {
  import opened KconfigExpr
  import opened KconfigEq
  import opened KconfigJoin
  import opened KconfigDups

  /** No symbol of the expression is m. */
  predicate NoM(v: Valuation, e: Expr) {
    match e
    case Sym(s) => v.tri(s) != 1
    case Not(x) => NoM(v, x)
    case And(l, r) => NoM(v, l) && NoM(v, r)
    case Or(l, r) => NoM(v, l) && NoM(v, r)
    case Equal(_, _) => true
    case Unequal(_, _) => true
  }

  lemma {:induction false} NoMValue(v: Valuation, e: Expr)
    requires Ranged(v) && NoM(v, e)
    ensures Val(v, e) == 0 || Val(v, e) == 2
  {
    match e
    case Not(x) => NoMValue(v, x);
    case And(l, r) => NoMValue(v, l); NoMValue(v, r);
    case Or(l, r) => NoMValue(v, l); NoMValue(v, r);
    case _ =>
  }

  /** Every operand of a spine bounds its value. */
  lemma {:induction false} OperandBounds(v: Valuation, op: Op, t: Expr, p: Path)
    requires OnSpine(op, t, p)
    ensures if op == OpAnd then Val(v, t) <= Val(v, Get(op, t, p)) else Val(v, t) >= Val(v, Get(op, t, p))
  {
    if p != [] { OperandBounds(v, op, if p[0] then t.r else t.l, p[1..]); }
  }

  /** If e2 excludes e1 then together they are at most m (dually, at least m). */
  lemma {:induction false} ExcludesMeans(v: Valuation, op: Op, e1: Expr, e2: Expr)
    requires Proper(v) && Excludes(op, e1, e2)
    ensures if op == OpAnd then Val(v, e2) <= 2 - Val(v, e1) else Val(v, e2) >= 2 - Val(v, e1)
  {
    var neg := Transform(Not(e1));
    assert Ranged(v);
    hide Proper, Ranged, ExtractEq, Transform, ElimYN;
    TransformMeans(v, Not(e1));
    ExtractEqSound(v, op, neg, e2);
    var x := ExtractEq(op, neg, e2);
    ElimYNMeans(v, x.e1);
    FoldRange(v, op, x.common);
    ValRange(v, x.e2);
    Constants(v);
  }

  /** A cancellation rounds the value of the spine away from m and changes no other value. */
  lemma {:induction false} CancelRounds(v: Valuation, op: Op, t: Expr, p: Path, q: Path)
    requires Proper(v) && OnSpine(op, t, p) && OnSpine(op, t, q) && p != [] && !IsOp(op, Get(op, t, p))
    requires Cancel(op, t, p, q).count > 0
    ensures Val(v, Cancel(op, t, p, q).t) == UnitVal(Other(op))
    ensures Val(v, t) == 1 || Val(v, t) == UnitVal(Other(op))
    ensures Val(v, Cancel(op, t, p, q).t) == Val(v, t) <==> Val(v, t) != 1
  {
    assert Ranged(v);
    hide Proper, Ranged, Excludes, Put;
    ValRange(v, t);
    ExcludesMeans(v, op, Get(op, t, p), Get(op, t, q));
    OperandBounds(v, op, t, p);
    OperandBounds(v, op, t, q);
    PutMeans(v, op, t, p, Zero(op));
    ValRange(v, Put(op, t, p, Unit(op)));
    Constants(v);
  }

  /** A value other than m is kept. */
  ghost predicate Rounded(v: Valuation, t: Expr, u: Expr) {
    Val(v, u) == Val(v, t) || Val(v, t) == 1
  }

  /** An operand that is m matters only where the whole is m. */
  lemma {:induction false} PutRounded(v: Valuation, op: Op, t: Expr, p: Path, x: Expr)
    requires Ranged(v) && OnSpine(op, t, p) && Rounded(v, Get(op, t, p), x)
    ensures Rounded(v, t, Put(op, t, p, x))
  {
    hide Put;
    GetPut(op, t, p, x);
    PutMeans(v, op, t, p, x);
    PutMeans(v, op, t, p, Get(op, t, p));
    ValRange(v, Put(op, t, p, Unit(op)));
    ValRange(v, x);
  }

  lemma {:induction false} CancelRounded(v: Valuation, op: Op, t: Expr, p: Path, q: Path)
    requires Proper(v) && OnSpine(op, t, p) && OnSpine(op, t, q) && p != [] && !IsOp(op, Get(op, t, p))
    ensures Rounded(v, t, Cancel(op, t, p, q).t)
  {
    hide Proper, Excludes;
    if Cancel(op, t, p, q).count > 0 {
      CancelRounds(v, op, t, p, q);
    }
  }

  lemma {:induction false} Dups2Rounded(v: Valuation, op: Op, t: Expr, p1: Path, p2: Path)
    requires Proper(v) && OnSpine(op, t, p1) && OnSpine(op, t, p2)
    ensures Rounded(v, t, Dups2(op, t, p1, p2).t)
    decreases Size(t), Spine(op, Get(op, t, p1)) + Spine(op, Get(op, t, p2)), 1
  {
    assert Ranged(v);
    hide Proper, Ranged, Sound, Get, OnSpine, SameSpine, Val, Cancel;
    var e1 := Get(op, t, p1);
    if IsOp(op, e1) {
      Below(op, t, p1, false); Below(op, t, p1, true);
      var a := Dups2(op, t, p1 + [false], p2);
      Later(op, t, a, p1 + [true], p2);
      Dups2Rounded(v, op, t, p1 + [false], p2);
      Dups2Rounded(v, op, a.t, p1 + [true], p2);
    } else {
      var a := Dups2Right(op, t, p1, p2);
      Dups2RightRounded(v, op, t, p1, p2);
      if p1 != p2 {
        BothRoots(op, t, p1, p2);
        Later(op, t, a, p1, p2);
        LeafStays(op, t, a, p1);
        var x := Get(op, a.t, p1);
        if IsOp(Other(op), x) {
          LeafSmaller(op, a.t, p1);
          Roots(op, x);
          var n := Dups2(Other(op), x, [], []);
          Dups2Rounded(v, Other(op), x, [], []);
          SoundInside(op, a.t, p1, n);
          PutRounded(v, op, a.t, p1, n.t);
          var t1 := Put(op, a.t, p1, n.t);
          Later(op, a.t, Pass(t1, n.count), p1, p2);
          CancelRounded(v, op, t1, p1, p2);
        }
      }
    }
  }

  lemma {:induction false} Dups2RightRounded(v: Valuation, op: Op, t: Expr, p1: Path, p2: Path)
    requires Proper(v) && OnSpine(op, t, p1) && OnSpine(op, t, p2)
    ensures Rounded(v, t, Dups2Right(op, t, p1, p2).t)
    decreases Size(t), Spine(op, Get(op, t, p1)) + Spine(op, Get(op, t, p2)), 0
  {
    hide Proper, Ranged, Sound, Get, OnSpine, SameSpine, Val;
    if IsOp(op, Get(op, t, p2)) {
      Below(op, t, p2, false); Below(op, t, p2, true);
      var a := Dups2(op, t, p1, p2 + [false]);
      Later(op, t, a, p1, p2 + [true]);
      Dups2Rounded(v, op, t, p1, p2 + [false]);
      Dups2Rounded(v, op, a.t, p1, p2 + [true]);
    }
  }

  // ----- expr_eliminate_dups -----

  /** The body of its loop up to the test of trans_count. */
  function Round(e: Expr): (r: Pass)
    ensures r.count == 0 ==> r.t == e
    ensures r.count > 0 ==> Size(ElimYN(r.t)) < Size(e)
  {
    if !e.Or? && !e.And? then Pass(e, 0)
    else
      var op := if e.Or? then OpOr else OpAnd;
      Roots(op, e);
      var a := Dups1(op, e, [], []);
      Later(op, e, a, [], []);
      var b := Dups2(op, a.t, [], []);
      SoundTrans(op, e, a, b);
      ElimYNShrinks(b.t);
      Pass(b.t, a.count + b.count)
  }

  /** What the loop of expr_eliminate_dups computes. */
  function EliminateDups(e: Expr): Expr
    decreases Size(e)
  {
    var r := Round(e);
    if r.count == 0 then e else EliminateDups(ElimYN(r.t))
  }

  /** expr_eliminate_dups, as the source runs it. */
  method EliminateDupsLoop(e0: Expr, transCount0: int) returns (e: Expr, transCount: int)
    ensures e == EliminateDups(e0) && transCount == transCount0
    ensures Size(e) <= Size(e0)
  {
    e := e0;
    var oldCount := transCount0;
    while true
      invariant EliminateDups(e) == EliminateDups(e0) && Size(e) <= Size(e0)
      decreases Size(e)
    {
      var r := Round(e);
      transCount := r.count;
      if transCount == 0 {
        break;
      }
      e := ElimYN(r.t);
    }
    transCount := oldCount;
  }

  lemma {:induction false} RoundRounded(v: Valuation, e: Expr)
    requires Proper(v)
    ensures Rounded(v, e, Round(e).t)
  {
    if e.Or? || e.And? {
      var op := if e.Or? then OpOr else OpAnd;
      Roots(op, e);
      var a := Dups1(op, e, [], []);
      Later(op, e, a, [], []);
      hide Proper, Val;
      Dups1Means(v, op, e, [], []);
      Dups2Rounded(v, op, a.t, [], []);
    }
  }

  /** In every valuation that respects the symbols' types, an expression that is not m keeps its
      value. */
  lemma {:induction false} EliminateDupsRounds(v: Valuation, e: Expr)
    requires Proper(v)
    ensures Val(v, EliminateDups(e)) == Val(v, e) || Val(v, e) == 1
    decreases Size(e)
  {
    RoundRounded(v, e);
    var r := Round(e);
    if r.count > 0 {
      assert Ranged(v);
      hide Proper, Ranged, Round;
      ElimYNMeans(v, r.t);
      EliminateDupsRounds(v, ElimYN(r.t));
    }
  }

  /** So the value is kept wherever no symbol of the expression is m. */
  lemma {:induction false} EliminateDupsMeans(v: Valuation, e: Expr)
    requires Proper(v) && NoM(v, e)
    ensures Val(v, EliminateDups(e)) == Val(v, e)
  {
    NoMValue(v, e);
    EliminateDupsRounds(v, e);
  }

  /** Some round cancels operands that exclude each other. */
  predicate Cancels(e: Expr)
    decreases Size(e)
  {
    var r := Round(e);
    r.count > 0 && (SecondPass(e).count > 0 || Cancels(ElimYN(r.t)))
  }

  /** What the second pass of a round counts. */
  function SecondPass(e: Expr): Pass {
    if !e.Or? && !e.And? then Pass(e, 0)
    else
      var op := if e.Or? then OpOr else OpAnd;
      Roots(op, e);
      var a := Dups1(op, e, [], []);
      Later(op, e, a, [], []);
      Dups2(op, a.t, [], [])
  }

  lemma {:induction false} RoundKeeps(v: Valuation, e: Expr)
    requires Proper(v) && SecondPass(e).count == 0
    ensures Val(v, Round(e).t) == Val(v, e)
  {
    if e.Or? || e.And? {
      var op := if e.Or? then OpOr else OpAnd;
      Roots(op, e);
      var a := Dups1(op, e, [], []);
      Later(op, e, a, [], []);
      hide Proper, Val;
      Dups1Means(v, op, e, [], []);
      assert Sound(op, a.t, Dups2(op, a.t, [], []));
    }
  }

  /** Without a cancellation every value is kept, m included. */
  lemma {:induction false} EliminateDupsKeeps(v: Valuation, e: Expr)
    requires Proper(v) && !Cancels(e)
    ensures Val(v, EliminateDups(e)) == Val(v, e)
    decreases Size(e)
  {
    var r := Round(e);
    if r.count > 0 {
      assert SecondPass(e).count == 0 && !Cancels(ElimYN(r.t));
      RoundKeeps(v, e);
      assert Ranged(v);
      hide Proper, Ranged, Round, SecondPass, Cancels;
      ElimYNMeans(v, r.t);
      EliminateDupsKeeps(v, ElimYN(r.t));
    }
  }

  /** An operand of the spine decides it alone. */
  predicate HasZero(op: Op, t: Expr) {
    if IsOp(op, t) then HasZero(op, t.l) || HasZero(op, t.r) else t == Zero(op)
  }

  lemma {:induction false} ZeroDecides(v: Valuation, op: Op, t: Expr)
    requires Ranged(v) && HasZero(op, t)
    ensures Val(v, t) == UnitVal(Other(op))
  {
    Constants(v);
    if IsOp(op, t) {
      hide Ranged;
      ValRange(v, t.l);
      ValRange(v, t.r);
      ZeroDecides(v, op, if HasZero(op, t.l) then t.l else t.r);
    }
  }

  /** In some round a cancellation leaves a constant that decides the expression. */
  predicate Decides(e: Expr)
    decreases Size(e)
  {
    var r := Round(e);
    (e.Or? && HasZero(OpOr, r.t)) || (e.And? && HasZero(OpAnd, r.t)) || (r.count > 0 && Decides(ElimYN(r.t)))
  }

  /** Then the result is never m, so exactly the values other than m are kept. */
  lemma {:induction false} EliminateDupsDecides(v: Valuation, e: Expr)
    requires Proper(v) && Decides(e)
    ensures Val(v, EliminateDups(e)) != 1
    ensures Val(v, EliminateDups(e)) == Val(v, e) <==> Val(v, e) != 1
    decreases Size(e)
  {
    EliminateDupsRounds(v, e);
    var r := Round(e);
    RoundFacts(e);
    assert Ranged(v);
    hide Proper, Ranged, HasZero, Val, ElimYN;
    if e.Or? && HasZero(OpOr, r.t) {
      ZeroDecides(v, OpOr, r.t);
    } else if e.And? && HasZero(OpAnd, r.t) {
      ZeroDecides(v, OpAnd, r.t);
    } else {
      EliminateDupsDecides(v, ElimYN(r.t));
    }
    if r.count > 0 {
      ElimYNMeans(v, r.t);
      EliminateDupsRounds(v, ElimYN(r.t));
    }
  }

  /** The result is a fixed point: a further round counts nothing. */
  lemma {:induction false} EliminateDupsStable(e: Expr)
    ensures Round(EliminateDups(e)).count == 0 && EliminateDups(EliminateDups(e)) == EliminateDups(e)
    decreases Size(e)
  {
    hide Round;
    RoundFacts(e);
    var r := Round(e);
    if r.count > 0 {
      EliminateDupsStable(ElimYN(r.t));
    }
  }

  lemma {:induction false} RoundFacts(e: Expr)
    ensures Round(e).count > 0 ==> Size(ElimYN(Round(e).t)) < Size(e)
  {
  }
}
