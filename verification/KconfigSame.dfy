/** When expr_eq says yes: always for one and the same expression, and for the same operands in any order. */
module KconfigSame {
  import opened KconfigExpr
  import opened KconfigEq
  import opened KconfigJoin
  import opened KconfigDups

  // ----- an expression equals itself -----

  /** The operands of the spine other than y and n are replaced by the unit. */
  function Blank(op: Op, e: Expr): Expr {
    if IsOp(op, e) then Mk(op, Blank(op, e.l), Blank(op, e.r)) else if IsYN(e) then e else Unit(op)
  }

  /** So are those to the left of p, and with `through` those below p as well. */
  function BlankTo(op: Op, e: Expr, p: Path, through: bool): Expr
    requires OnSpine(op, e, p)
  {
    if p == [] then (if through then Blank(op, e) else e)
    else if p[0] then Mk(op, Blank(op, e.l), BlankTo(op, e.r, p[1..], through))
    else Mk(op, BlankTo(op, e.l, p[1..], through), e.r)
  }

  /** A constant takes nothing out. */
  lemma {:induction false} ConstantTakesNothing(op: Op, u: Expr, t: Expr)
    requires IsYN(u)
    ensures ElimEqOp(op, u, t) == Split(u, t, [])
    decreases Size(t)
  {
    if IsOp(op, t) {
      ConstantTakesNothing(op, u, t.l);
      ConstantTakesNothing(op, u, t.r);
    }
  }

  /** From constants nothing is taken out. */
  lemma {:induction false} NothingFromBlank(op: Op, x: Expr, e: Expr)
    requires !IsOp(op, x)
    ensures ElimEqOp(op, x, Blank(op, e)) == Split(x, Blank(op, e), [])
    decreases Size(e)
  {
    if IsOp(op, e) {
      NothingFromBlank(op, x, e.l);
      NothingFromBlank(op, x, e.r);
    }
  }

  /** An operand finds itself, when all before it are gone. */
  lemma {:induction false} FindsItself(op: Op, e: Expr, p: Path)
    requires OnSpine(op, e, p) && !IsOp(op, Get(op, e, p)) && ExprEq(Get(op, e, p), Get(op, e, p))
    ensures
      var x, r := Get(op, e, p), ElimEqOp(op, Get(op, e, p), BlankTo(op, e, p, false));
      r.e1 == Blank(op, x) && r.e2 == BlankTo(op, e, p, true)
  {
    hide ExprEq;
    var x := Get(op, e, p);
    if p != [] {
      if p[0] {
        NothingFromBlank(op, x, e.l);
        FindsItself(op, e.r, p[1..]);
      } else {
        FindsItself(op, e.l, p[1..]);
        ConstantTakesNothing(op, Blank(op, x), e.r);
      }
    }
  }

  lemma {:induction false} BlankSteps(op: Op, e: Expr, p: Path)
    requires OnSpine(op, e, p) && IsOp(op, Get(op, e, p))
    ensures OnSpine(op, e, p + [false]) && OnSpine(op, e, p + [true])
    ensures BlankTo(op, e, p + [false], false) == BlankTo(op, e, p, false)
    ensures BlankTo(op, e, p + [false], true) == BlankTo(op, e, p + [true], false)
    ensures BlankTo(op, e, p + [true], true) == BlankTo(op, e, p, true)
  {
    Below(op, e, p, false); Below(op, e, p, true);
    if p == [] {
      assert p + [false] == [false] && p + [true] == [true] && [false][1..] == [] && [true][1..] == [];
    } else {
      assert (p + [false])[1..] == p[1..] + [false] && (p + [true])[1..] == p[1..] + [true];
      BlankSteps(op, if p[0] then e.r else e.l, p[1..]);
    }
  }

  lemma {:induction false} TakesItself(op: Op, e: Expr, p: Path)
    requires OnSpine(op, e, p)
    requires forall x :: Size(x) < Size(e) ==> ExprEq(x, x)
    requires IsOp(op, e)
    ensures
      var r := ElimEqOp(op, Get(op, e, p), BlankTo(op, e, p, false));
      r.e1 == Blank(op, Get(op, e, p)) && r.e2 == BlankTo(op, e, p, true)
    decreases Size(Get(op, e, p))
  {
    var x := Get(op, e, p);
    if IsOp(op, x) {
      Below(op, e, p, false); Below(op, e, p, true);
      BlankSteps(op, e, p);
      SizePositive(x.l); SizePositive(x.r);
      TakesItself(op, e, p + [false]);
      TakesItself(op, e, p + [true]);
    } else {
      LeafSmaller(op, e, p);
      FindsItself(op, e, p);
    }
  }

  lemma {:induction false} BlankIsConstant(op: Op, e: Expr)
    ensures IsYN(ElimYN(Blank(op, e)))
  {
    if IsOp(op, e) {
      BlankIsConstant(op, e.l);
      BlankIsConstant(op, e.r);
    }
  }

  /** expr_eq is reflexive. */
  lemma {:induction false} EqualsItself(e: Expr)
    ensures ExprEq(e, e)
    decreases Size(e)
  {
    match e
    case Not(x) => EqualsItself(x);
    case And(_, _) => SpineEqualsItself(OpAnd, e);
    case Or(_, _) => SpineEqualsItself(OpOr, e);
    case _ =>
  }

  lemma {:induction false} SpineEqualsItself(op: Op, e: Expr)
    requires IsOp(op, e)
    ensures ExprEq(e, e)
    decreases Size(e), 0
  {
    forall x | Size(x) < Size(e) ensures ExprEq(x, x) {
      EqualsItself(x);
    }
    TakesItself(op, e, []);
    BlankIsConstant(op, e);
  }

  // ----- the order of operands does not matter -----

  /** A symbol, its negation or a comparison. */
  predicate Plain(e: Expr) {
    e.Sym? || e.Equal? || e.Unequal? || (e.Not? && e.e.Sym?)
  }

  /** All operands of the spine are plain, and none is the constant that decides it. */
  predicate Flat(op: Op, e: Expr) {
    if IsOp(op, e) then Flat(op, e.l) && Flat(op, e.r) else Plain(e) && (e == Unit(op) || !IsYN(e))
  }

  /** The operands of the spine other than the unit, with their multiplicities. */
  function Operands(op: Op, e: Expr): multiset<Expr> {
    if IsOp(op, e) then Operands(op, e.l) + Operands(op, e.r)
    else if e == Unit(op) then multiset{}
    else multiset{e}
  }

  /** What is left of both are the multiset differences. */
  lemma {:induction false} TakesCommon(op: Op, e1: Expr, e2: Expr)
    requires Flat(op, e1) && Flat(op, e2)
    ensures
      var r := ElimEqOp(op, e1, e2);
      Flat(op, r.e1) && Flat(op, r.e2) &&
      Operands(op, r.e1) == Operands(op, e1) - Operands(op, e2) &&
      Operands(op, r.e2) == Operands(op, e2) - Operands(op, e1)
    decreases Size(e1) + Size(e2)
  {
    hide Flat, Operands, ExprEq;
    if IsOp(op, e1) {
      SizePositive(e1.l); SizePositive(e1.r);
      var a := ElimEqOp(op, e1.l, e2);
      var b := ElimEqOp(op, e1.r, a.e2);
      MkOperands(op, e1.l, e1.r);
      MkOperands(op, a.e1, b.e1);
      TakesCommon(op, e1.l, e2);
      TakesCommon(op, e1.r, a.e2);
      Differences(Operands(op, e1.l), Operands(op, e1.r), Operands(op, e2));
    } else if IsOp(op, e2) {
      SizePositive(e2.l); SizePositive(e2.r);
      var a := ElimEqOp(op, e1, e2.l);
      var b := ElimEqOp(op, a.e1, e2.r);
      MkOperands(op, e2.l, e2.r);
      MkOperands(op, a.e2, b.e2);
      TakesCommon(op, e1, e2.l);
      TakesCommon(op, a.e1, e2.r);
      Differences(Operands(op, e2.l), Operands(op, e2.r), Operands(op, e1));
    } else {
      LeavesCommon(op, e1, e2);
    }
  }

  lemma {:induction false} LeavesCommon(op: Op, e1: Expr, e2: Expr)
    requires Flat(op, e1) && Flat(op, e2) && !IsOp(op, e1) && !IsOp(op, e2)
    ensures
      var r := ElimEqOp(op, e1, e2);
      Flat(op, r.e1) && Flat(op, r.e2) &&
      Operands(op, r.e1) == Operands(op, e1) - Operands(op, e2) &&
      Operands(op, r.e2) == Operands(op, e2) - Operands(op, e1)
  {
    PlainEqual(e1, e2);
    hide ExprEq;
  }

  lemma {:induction false} PlainEqual(e1: Expr, e2: Expr)
    requires Plain(e1) && Plain(e2)
    ensures ExprEq(e1, e2) <==> e1 == e2
  {
  }

  lemma {:induction false} MkOperands(op: Op, l: Expr, r: Expr)
    ensures Operands(op, Mk(op, l, r)) == Operands(op, l) + Operands(op, r)
    ensures Flat(op, Mk(op, l, r)) <==> Flat(op, l) && Flat(op, r)
  {
  }

  lemma {:induction false} Differences(l: multiset<Expr>, r: multiset<Expr>, e: multiset<Expr>)
    ensures (l - e) + (r - (e - l)) == (l + r) - e && (e - l) - r == e - (l + r)
  {
  }

  lemma {:induction false} CleanOperands(op: Op, e: Expr)
    requires Flat(op, e)
    ensures
      var t := ElimYN(e);
      t != Zero(op) && (t == Unit(op) <==> Operands(op, e) == multiset{}) &&
      (t != Unit(op) && !IsOp(op, t) ==> Operands(op, e) == multiset{t})
  {
    if IsOp(op, e) {
      MkOperands(op, e.l, e.r);
      hide Flat, Operands, ElimYN;
      CleanOperands(op, e.l);
      CleanOperands(op, e.r);
      CleanNode(op, e.l, e.r);
      var l, r := Operands(op, e.l), Operands(op, e.r);
      assert l == multiset{} ==> l + r == r;
      assert r == multiset{} ==> l + r == l;
      SumEmpty(l, r);
    }
  }

  lemma {:induction false} SumEmpty(a: multiset<Expr>, b: multiset<Expr>)
    ensures a + b == multiset{} ==> a == multiset{} && b == multiset{}
  {
    forall x ensures (a + b)[x] == a[x] + b[x] {
    }
  }

  lemma {:induction false} CleanNode(op: Op, l: Expr, r: Expr)
    requires ElimYN(l) != Zero(op) && ElimYN(r) != Zero(op)
    ensures
      ElimYN(Mk(op, l, r)) ==
      if ElimYN(l) == Unit(op) then ElimYN(r)
      else if ElimYN(r) == Unit(op) then ElimYN(l)
      else Mk(op, ElimYN(l), ElimYN(r))
  {
  }

  lemma {:induction false} OnOneSide(a: multiset<Expr>, b: multiset<Expr>, x: Expr)
    ensures (a - b)[x] == 0 || (b - a)[x] == 0
  {
  }

  lemma {:induction false} NoneLeft(a: multiset<Expr>, b: multiset<Expr>)
    ensures a - b == multiset{} && b - a == multiset{} <==> a == b
  {
    if a - b == multiset{} && b - a == multiset{} {
      forall x ensures a[x] == b[x] {
        assert (a - b)[x] == 0 && (b - a)[x] == 0;
      }
    }
  }

  /** Two conjunctions (disjunctions) of plain operands are equal exactly if they have the same ones. */
  lemma {:induction false} EqualIffSame(op: Op, e1: Expr, e2: Expr)
    requires IsOp(op, e1) && IsOp(op, e2) && Flat(op, e1) && Flat(op, e2)
    ensures ExprEq(e1, e2) <==> Operands(op, e1) == Operands(op, e2)
  {
    var r := ElimEqOp(op, e1, e2);
    TakesCommon(op, e1, e2);
    CleanOperands(op, r.e1);
    CleanOperands(op, r.e2);
    hide ElimEqOp, ElimYN, Operands, Flat;
    var o1, o2, t := Operands(op, e1), Operands(op, e2), ElimYN(r.e1);
    OnOneSide(o1, o2, t);
    NoneLeft(o1, o2);
  }

  /** Removing constants removes no operand. */
  lemma {:induction false} CleanKeeps(op: Op, e: Expr)
    requires Flat(op, e)
    ensures Flat(op, ElimYN(e)) && Operands(op, ElimYN(e)) == Operands(op, e)
  {
    if IsOp(op, e) {
      CleanOperands(op, e.l);
      CleanOperands(op, e.r);
      CleanNode(op, e.l, e.r);
      MkOperands(op, e.l, e.r);
      MkOperands(op, ElimYN(e.l), ElimYN(e.r));
      hide Flat, Operands, ElimYN;
      CleanKeeps(op, e.l);
      CleanKeeps(op, e.r);
      var l, r := Operands(op, e.l), Operands(op, e.r);
      assert l == multiset{} ==> l + r == r;
      assert r == multiset{} ==> l + r == l;
    }
  }

  /** expr_eliminate_eq leaves of both expressions exactly what the other one does not have. */
  lemma {:induction false} ElimEqTakesCommon(op: Op, e1: Expr, e2: Expr)
    requires Flat(op, e1) && Flat(op, e2) && (IsOp(op, e1) || IsOp(op, e2))
    ensures
      var r := ElimEq(e1, e2);
      Operands(op, r.e1) == Operands(op, e1) - Operands(op, e2) &&
      Operands(op, r.e2) == Operands(op, e2) - Operands(op, e1)
  {
    var r := ElimEqOp(op, e1, e2);
    TakesCommon(op, e1, e2);
    CleanKeeps(op, r.e1);
    CleanKeeps(op, r.e2);
    if IsOp(op, e1) {
      FirstPassKeepsType(op, e1, e2);
      if !IsOp(op, e2) {
        OneSided(op, e1, e2);
      }
    }
    hide ElimEqOp, ElimYN, Operands;
    assert Split(ElimYN(r.e1), ElimYN(r.e2), ElimEq(e1, e2).common) == ElimEq(e1, e2);
  }

  // ----- what the second pass cancels -----

  lemma {:induction false} ExtractsCommon(op: Op, e1: Expr, e2: Expr)
    requires Flat(op, e1) && Flat(op, e2)
    ensures
      var r := ExtractEq(op, e1, e2);
      Flat(op, r.e1) && Flat(op, r.e2) &&
      Operands(op, r.e1) == Operands(op, e1) - Operands(op, e2) &&
      Operands(op, r.e2) == Operands(op, e2) - Operands(op, e1)
    decreases Size(e1) + Size(e2)
  {
    hide Flat, Operands, ExprEq;
    if IsOp(op, e1) {
      SizePositive(e1.l); SizePositive(e1.r);
      var a := ExtractEq(op, e1.l, e2);
      var b := ExtractEq(op, e1.r, a.e2);
      MkOperands(op, e1.l, e1.r);
      MkOperands(op, a.e1, b.e1);
      ExtractsCommon(op, e1.l, e2);
      ExtractsCommon(op, e1.r, a.e2);
      Differences(Operands(op, e1.l), Operands(op, e1.r), Operands(op, e2));
    } else if IsOp(op, e2) {
      SizePositive(e2.l); SizePositive(e2.r);
      var a := ExtractEq(op, e1, e2.l);
      var b := ExtractEq(op, a.e1, e2.r);
      MkOperands(op, e2.l, e2.r);
      MkOperands(op, a.e2, b.e2);
      ExtractsCommon(op, e1, e2.l);
      ExtractsCommon(op, a.e1, e2.r);
      Differences(Operands(op, e2.l), Operands(op, e2.r), Operands(op, e1));
    } else {
      LeavesExtracted(op, e1, e2);
    }
  }

  lemma {:induction false} NothingExtracted(op: Op, e1: Expr, e2: Expr)
    requires ExtractEq(op, e1, e2).common == []
    ensures ExtractEq(op, e1, e2).e1 == e1 && ExtractEq(op, e1, e2).e2 == e2
    decreases Size(e1) + Size(e2)
  {
    hide ExprEq;
    if IsOp(op, e1) {
      SizePositive(e1.l); SizePositive(e1.r);
      NothingExtracted(op, e1.l, e2);
      NothingExtracted(op, e1.r, e2);
    } else if IsOp(op, e2) {
      SizePositive(e2.l); SizePositive(e2.r);
      NothingExtracted(op, e1, e2.l);
      NothingExtracted(op, e1, e2.r);
    }
  }

  lemma {:induction false} LeavesExtracted(op: Op, e1: Expr, e2: Expr)
    requires Flat(op, e1) && Flat(op, e2) && !IsOp(op, e1) && !IsOp(op, e2)
    ensures
      var r := ExtractEq(op, e1, e2);
      Flat(op, r.e1) && Flat(op, r.e2) &&
      Operands(op, r.e1) == Operands(op, e1) - Operands(op, e2) &&
      Operands(op, r.e2) == Operands(op, e2) - Operands(op, e1)
  {
    PlainEqual(e1, e2);
    hide ExprEq;
  }

  /** A part of a spine excludes an operand exactly if it has all operands of the operand's negation. */
  lemma {:induction false} ExcludesIff(op: Op, e1: Expr, e2: Expr)
    requires var neg := Transform(Not(e1)); Flat(op, neg) && Operands(op, neg) != multiset{} && Flat(op, e2)
    ensures Excludes(op, e1, e2) <==> Operands(op, Transform(Not(e1))) <= Operands(op, e2)
  {
    var neg := Transform(Not(e1));
    var x := ExtractEq(op, neg, e2);
    ExtractsCommon(op, neg, e2);
    if x.common == [] {
      NothingExtracted(op, neg, e2);
    }
    CleanOperands(op, x.e1);
    UnitHasNone(op);
    hide Transform, ExtractEq, ElimYN, Operands, Flat;
    Inclusion(Operands(op, neg), Operands(op, e2));
  }

  lemma {:induction false} UnitHasNone(op: Op)
    ensures Operands(op, Unit(op)) == multiset{}
  {
  }

  lemma {:induction false} Inclusion(a: multiset<Expr>, b: multiset<Expr>)
    ensures a - b == multiset{} <==> a <= b
  {
    if a - b == multiset{} {
      forall x ensures a[x] <= b[x] {
        assert (a - b)[x] == 0;
      }
    }
  }
}
