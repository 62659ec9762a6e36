/** expr_eliminate_yn, expr_eq, expr_eliminate_eq and expr_extract_eq. */
module KconfigEq {
  import opened KconfigExpr

  // ----- expr_eliminate_yn -----

  /** expr_eliminate_yn */
  function ElimYN(e: Expr): Expr {
    match e
    case And(l, r) =>
      var l', r' := ElimYN(l), ElimYN(r);
      if l' == Sym(NO) then Sym(NO)
      else if l' == Sym(YES) then r'
      else if r' == Sym(NO) then Sym(NO)
      else if r' == Sym(YES) then l'
      else And(l', r')
    case Or(l, r) =>
      var l', r' := ElimYN(l), ElimYN(r);
      if l' == Sym(NO) then r'
      else if l' == Sym(YES) then Sym(YES)
      else if r' == Sym(NO) then l'
      else if r' == Sym(YES) then Sym(YES)
      else Or(l', r')
    case _ => e
  }

  lemma {:induction false} ElimYNMeans(v: Valuation, e: Expr)
    requires Ranged(v)
    ensures Val(v, ElimYN(e)) == Val(v, e)
  {
    hide Ranged;
    Constants(v);
    ValRange(v, e);
    match e
    case And(l, r) => ElimYNMeans(v, l); ElimYNMeans(v, r); ValRange(v, l); ValRange(v, r);
    case Or(l, r) => ElimYNMeans(v, l); ElimYNMeans(v, r); ValRange(v, l); ValRange(v, r);
    case _ =>
  }

  predicate IsYN(e: Expr) {
    e == Sym(YES) || e == Sym(NO)
  }

  /** Some conjunction or disjunction, not below a negation, has y or n as an operand. */
  predicate Reducible(e: Expr) {
    (e.And? || e.Or?) && (IsYN(e.l) || IsYN(e.r) || Reducible(e.l) || Reducible(e.r))
  }

  lemma {:induction false} ElimYNShrinks(e: Expr)
    ensures Size(ElimYN(e)) <= Size(e)
    ensures Reducible(e) ==> Size(ElimYN(e)) < Size(e)
  {
    match e
    case And(l, r) => ElimYNShrinks(l); ElimYNShrinks(r);
    case Or(l, r) => ElimYNShrinks(l); ElimYNShrinks(r);
    case _ =>
  }

  /** Nothing is left to eliminate. */
  lemma {:induction false} ElimYNClean(e: Expr)
    ensures !Reducible(ElimYN(e))
  {
    match e
    case And(l, r) => ElimYNClean(l); ElimYNClean(r);
    case Or(l, r) => ElimYNClean(l); ElimYNClean(r);
    case _ =>
  }

  // ----- the two operators -----

  datatype Op = OpAnd | OpOr

  predicate IsOp(op: Op, e: Expr) {
    if op == OpAnd then e.And? else e.Or?
  }

  function Unit(op: Op): Expr {
    if op == OpAnd then Sym(YES) else Sym(NO)
  }

  function Apply(op: Op, x: int, y: int): int {
    if op == OpAnd then Min(x, y) else Max(x, y)
  }

  function Mk(op: Op, l: Expr, r: Expr): Expr {
    if op == OpAnd then And(l, r) else Or(l, r)
  }

  function UnitVal(op: Op): int {
    if op == OpAnd then 2 else 0
  }

  /** The value of a list of operands. */
  function Fold(v: Valuation, op: Op, es: seq<Expr>): int {
    if es == [] then UnitVal(op) else Apply(op, Val(v, es[0]), Fold(v, op, es[1..]))
  }

  lemma {:induction false} FoldCat(v: Valuation, op: Op, a: seq<Expr>, b: seq<Expr>)
    requires Ranged(v)
    ensures Fold(v, op, a + b) == Apply(op, Fold(v, op, a), Fold(v, op, b))
    ensures 0 <= Fold(v, op, a) <= 2 && 0 <= Fold(v, op, b) <= 2
  {
    FoldRange(v, op, a);
    FoldRange(v, op, b);
    if a == [] {
      assert a + b == b;
    } else {
      FoldCat(v, op, a[1..], b);
      assert (a + b)[1..] == a[1..] + b;
    }
  }

  lemma {:induction false} FoldRange(v: Valuation, op: Op, es: seq<Expr>)
    requires Ranged(v)
    ensures 0 <= Fold(v, op, es) <= 2
  {
    if es != [] {
      ValRange(v, es[0]);
      FoldRange(v, op, es[1..]);
    }
  }

  // ----- expr_eq and expr_eliminate_eq -----

  /** Two expressions after their common operands have been taken out, and these operands. */
  datatype Split = Split(e1: Expr, e2: Expr, common: seq<Expr>)

  /** __expr_eliminate_eq; it adds |common| to trans_count. */
  function ElimEqOp(op: Op, e1: Expr, e2: Expr): (r: Split)
    ensures Size(r.e1) <= Size(e1) && Size(r.e2) <= Size(e2)
    decreases Size(e1) + Size(e2), if IsOp(op, e1) || IsOp(op, e2) then 0 else 2
  {
    SizePositive(e1); SizePositive(e2);
    if IsOp(op, e1) then
      SizePositive(e1.l); SizePositive(e1.r);
      var a := ElimEqOp(op, e1.l, e2);
      var b := ElimEqOp(op, e1.r, a.e2);
      Split(Mk(op, a.e1, b.e1), b.e2, a.common + b.common)
    else if IsOp(op, e2) then
      SizePositive(e2.l); SizePositive(e2.r);
      var a := ElimEqOp(op, e1, e2.l);
      var b := ElimEqOp(op, a.e1, e2.r);
      Split(b.e1, Mk(op, a.e2, b.e2), a.common + b.common)
    else if e1.Sym? && e2.Sym? && e1.s == e2.s && IsYN(e1) then Split(e1, e2, [])
    else if !ExprEq(e1, e2) then Split(e1, e2, [])
    else Split(Unit(op), Unit(op), [e1])
  }

  /** expr_eq */
  predicate ExprEq(e1: Expr, e2: Expr)
    decreases Size(e1) + Size(e2), 1
  {
    match (e1, e2)
    case (Equal(a, b), Equal(c, d)) => a == c && b == d
    case (Unequal(a, b), Unequal(c, d)) => a == c && b == d
    case (Sym(s), Sym(t)) => s == t
    case (Not(x), Not(y)) => ExprEq(x, y)
    case (And(_, _), And(_, _)) =>
      var r := ElimEqOp(OpAnd, e1, e2);
      ElimYN(r.e1).Sym? && ElimYN(r.e1) == ElimYN(r.e2)
    case (Or(_, _), Or(_, _)) =>
      var r := ElimEqOp(OpOr, e1, e2);
      ElimYN(r.e1).Sym? && ElimYN(r.e1) == ElimYN(r.e2)
    case _ => false
  }

  /** What is taken out is common to both, whatever the symbols are; and equal means equal. */
  lemma {:induction false} ElimEqOpSound(v: Valuation, op: Op, e1: Expr, e2: Expr)
    requires Ranged(v)
    ensures var r := ElimEqOp(op, e1, e2);
            Val(v, e1) == Apply(op, Fold(v, op, r.common), Val(v, r.e1)) &&
            Val(v, e2) == Apply(op, Fold(v, op, r.common), Val(v, r.e2))
    decreases Size(e1) + Size(e2), if IsOp(op, e1) || IsOp(op, e2) then 0 else 2
  {
    hide Ranged, Apply, Val;
    var r := ElimEqOp(op, e1, e2);
    if IsOp(op, e1) {
      SizePositive(e1.l); SizePositive(e1.r);
      var a := ElimEqOp(op, e1.l, e2);
      var b := ElimEqOp(op, e1.r, a.e2);
      ElimEqOpSound(v, op, e1.l, e2);
      ElimEqOpSound(v, op, e1.r, a.e2);
      FoldCat(v, op, a.common, b.common);
      MkVal(v, op, e1.l, e1.r); MkVal(v, op, a.e1, b.e1);
      Mix(op, Fold(v, op, a.common), Fold(v, op, b.common), Val(v, a.e1), Val(v, b.e1));
      Mix(op, Fold(v, op, a.common), Fold(v, op, b.common), Val(v, b.e2), Val(v, b.e2));
    } else if IsOp(op, e2) {
      SizePositive(e2.l); SizePositive(e2.r);
      var a := ElimEqOp(op, e1, e2.l);
      var b := ElimEqOp(op, a.e1, e2.r);
      ElimEqOpSound(v, op, e1, e2.l);
      ElimEqOpSound(v, op, a.e1, e2.r);
      FoldCat(v, op, a.common, b.common);
      MkVal(v, op, e2.l, e2.r); MkVal(v, op, a.e2, b.e2);
      Mix(op, Fold(v, op, a.common), Fold(v, op, b.common), Val(v, a.e2), Val(v, b.e2));
      Mix(op, Fold(v, op, a.common), Fold(v, op, b.common), Val(v, b.e1), Val(v, b.e1));
    } else {
      if r.common != [] {
        ExprEqSound(v, e1, e2);
      }
      Leaves(v, op, e1, e2, r);
    }
  }

  lemma {:induction false} MkVal(v: Valuation, op: Op, l: Expr, r: Expr)
    ensures Val(v, Mk(op, l, r)) == Apply(op, Val(v, l), Val(v, r))
  {
  }

  /** The operators are associative and commutative. */
  lemma {:induction false} Mix(op: Op, c: int, d: int, x: int, y: int)
    ensures Apply(op, Apply(op, c, x), Apply(op, d, y)) == Apply(op, Apply(op, c, d), Apply(op, x, y))
    ensures Apply(op, c, Apply(op, d, x)) == Apply(op, Apply(op, c, d), x)
  {
  }

  lemma {:induction false} Leaves(v: Valuation, op: Op, e1: Expr, e2: Expr, r: Split)
    requires Ranged(v)
    requires r == Split(e1, e2, []) || (r == Split(Unit(op), Unit(op), [e1]) && Val(v, e1) == Val(v, e2))
    ensures Val(v, e1) == Apply(op, Fold(v, op, r.common), Val(v, r.e1)) &&
      Val(v, e2) == Apply(op, Fold(v, op, r.common), Val(v, r.e2))
  {
    ValRange(v, e1); ValRange(v, e2);
    if r.common != [] {
      assert r.common[1..] == [];
    }
  }

  lemma {:induction false} ExprEqSound(v: Valuation, e1: Expr, e2: Expr)
    requires Ranged(v) && ExprEq(e1, e2)
    ensures Val(v, e1) == Val(v, e2)
    decreases Size(e1) + Size(e2), 1
  {
    hide Ranged;
    match (e1, e2)
    case (Not(x), Not(y)) => ExprEqSound(v, x, y);
    case (And(_, _), And(_, _)) =>
      ElimEqOpSound(v, OpAnd, e1, e2);
      var r := ElimEqOp(OpAnd, e1, e2);
      ElimYNMeans(v, r.e1); ElimYNMeans(v, r.e2);
    case (Or(_, _), Or(_, _)) =>
      ElimEqOpSound(v, OpOr, e1, e2);
      var r := ElimEqOp(OpOr, e1, e2);
      ElimYNMeans(v, r.e1); ElimYNMeans(v, r.e2);
    case _ =>
  }

  predicate SameType(e1: Expr, e2: Expr) {
    e1.Sym? == e2.Sym? && e1.Not? == e2.Not? && e1.And? == e2.And? && e1.Or? == e2.Or? && e1.Equal? == e2.Equal?
  }

  /** One pass of expr_eliminate_eq with the operator of e, if it has one. */
  function ElimEqBy(e: Expr, e1: Expr, e2: Expr): Split {
    if e.Or? then ElimEqOp(OpOr, e1, e2) else if e.And? then ElimEqOp(OpAnd, e1, e2) else Split(e1, e2, [])
  }

  /** expr_eliminate_eq, for two expressions that are there. */
  function ElimEq(e1: Expr, e2: Expr): Split {
    var r1 := ElimEqBy(e1, e1, e2);
    var r2 := if SameType(r1.e1, r1.e2) then Split(r1.e1, r1.e2, []) else ElimEqBy(r1.e2, r1.e1, r1.e2);
    Split(ElimYN(r2.e1), ElimYN(r2.e2), r1.common + r2.common)
  }

  /** A pass whose operator only e1 has takes out e2 or nothing; if it takes it out, a
      constant is left of it. */
  lemma {:induction false} OneSided(op: Op, e1: Expr, e2: Expr)
    requires !IsOp(op, e2)
    ensures var r := ElimEqOp(op, e1, e2); if r.common == [] then r.e1 == e1 && r.e2 == e2 else r.e2 == Unit(op)
    decreases Size(e1)
  {
    if IsOp(op, e1) {
      SizePositive(e1.l); SizePositive(e1.r);
      var a := ElimEqOp(op, e1.l, e2);
      OneSided(op, e1.l, e2);
      OneSided(op, e1.r, a.e2);
    }
  }

  lemma {:induction false} FirstPassKeepsType(op: Op, e1: Expr, e2: Expr)
    requires IsOp(op, e1)
    ensures IsOp(op, ElimEqOp(op, e1, e2).e1) && (IsOp(op, e2) ==> IsOp(op, ElimEqOp(op, e1, e2).e2))
    decreases Size(e1) + Size(e2)
  {
    if IsOp(op, e2) {
      KeepsOp2(op, e1, e2);
    }
  }

  lemma {:induction false} KeepsOp2(op: Op, e1: Expr, e2: Expr)
    requires IsOp(op, e2)
    ensures IsOp(op, ElimEqOp(op, e1, e2).e2)
    decreases Size(e1)
  {
    if IsOp(op, e1) {
      SizePositive(e1.l); SizePositive(e1.r);
      KeepsOp2(op, e1.l, e2);
      KeepsOp2(op, e1.r, ElimEqOp(op, e1.l, e2).e2);
    }
  }

  /** Only one of the two passes takes anything out. */
  lemma {:induction false} OnePass(e1: Expr, e2: Expr)
    ensures var r1 := ElimEqBy(e1, e1, e2);
            r1.common == [] || SameType(r1.e1, r1.e2) || ElimEqBy(r1.e2, r1.e1, r1.e2) == Split(r1.e1, r1.e2, [])
  {
    if e1.Or? || e1.And? {
      var op := if e1.Or? then OpOr else OpAnd;
      FirstPassKeepsType(op, e1, e2);
      if !IsOp(op, e2) {
        OneSided(op, e1, e2);
      }
    }
  }

  /** expr_eliminate_eq only takes out common operands of one operator: put back with that
      operator, they give both original values, whatever the symbols are. */
  lemma {:induction false} ElimEqFactors(e1: Expr, e2: Expr) returns (op: Op)
    ensures var r := ElimEq(e1, e2);
            forall v :: Ranged(v) ==>
              Val(v, e1) == Apply(op, Fold(v, op, r.common), Val(v, r.e1)) &&
              Val(v, e2) == Apply(op, Fold(v, op, r.common), Val(v, r.e2))
  {
    var r1 := ElimEqBy(e1, e1, e2);
    OnePass(e1, e2);
    var r2 := if SameType(r1.e1, r1.e2) then Split(r1.e1, r1.e2, []) else ElimEqBy(r1.e2, r1.e1, r1.e2);
    op := if r1.common != [] then (if e1.Or? then OpOr else OpAnd) else if r1.e2.Or? then OpOr else OpAnd;
    var r := ElimEq(e1, e2);
    assert r1.common + [] == r1.common && [] + r2.common == r2.common;
    forall v | Ranged(v)
      ensures Val(v, e1) == Apply(op, Fold(v, op, r.common), Val(v, r.e1)) &&
        Val(v, e2) == Apply(op, Fold(v, op, r.common), Val(v, r.e2))
    {
      ElimEqByMeans(v, e1, e1, e2);
      ElimEqByMeans(v, r1.e2, r1.e1, r1.e2);
      ElimYNMeans(v, r2.e1); ElimYNMeans(v, r2.e2);
      ValRange(v, r2.e1); ValRange(v, r2.e2);
    }
  }

  lemma {:induction false} ElimEqByMeans(v: Valuation, e: Expr, e1: Expr, e2: Expr)
    requires Ranged(v)
    ensures var r := ElimEqBy(e, e1, e2);
            var op := if e.Or? then OpOr else OpAnd;
            Val(v, e1) == Apply(op, Fold(v, op, r.common), Val(v, r.e1)) &&
            Val(v, e2) == Apply(op, Fold(v, op, r.common), Val(v, r.e2))
    ensures ElimEqBy(e, e1, e2).common == [] ==>
      Val(v, e1) == Val(v, ElimEqBy(e, e1, e2).e1) && Val(v, e2) == Val(v, ElimEqBy(e, e1, e2).e2)
  {
    hide Ranged;
    var r := ElimEqBy(e, e1, e2);
    ValRange(v, r.e1); ValRange(v, r.e2);
    if e.Or? || e.And? {
      ElimEqOpSound(v, if e.Or? then OpOr else OpAnd, e1, e2);
    }
  }
}
