/** expr_extract_eq, expr_join_or and expr_join_and. */
module KconfigJoin {
  import opened Common
  import opened KconfigExpr
  import opened KconfigEq

  /** expr_extract_eq; `common` lists the operands it collects. */
  function ExtractEq(op: Op, e1: Expr, e2: Expr): (r: Split)
    ensures Size(r.e1) <= Size(e1) && Size(r.e2) <= Size(e2)
    decreases Size(e1) + Size(e2)
  {
    SizePositive(e1); SizePositive(e2);
    if IsOp(op, e1) then
      SizePositive(e1.l); SizePositive(e1.r);
      var a := ExtractEq(op, e1.l, e2);
      var b := ExtractEq(op, e1.r, a.e2);
      Split(Mk(op, a.e1, b.e1), b.e2, a.common + b.common)
    else if IsOp(op, e2) then
      SizePositive(e2.l); SizePositive(e2.r);
      var a := ExtractEq(op, e1, e2.l);
      var b := ExtractEq(op, a.e1, e2.r);
      Split(b.e1, Mk(op, a.e2, b.e2), a.common + b.common)
    else if ExprEq(e1, e2) then Split(Unit(op), Unit(op), [e1])
    else Split(e1, e2, [])
  }

  /** The collected operands, put back, give both values. */
  lemma {:induction false} ExtractEqSound(v: Valuation, op: Op, e1: Expr, e2: Expr)
    requires Ranged(v)
    ensures var r := ExtractEq(op, e1, e2);
            Val(v, e1) == Apply(op, Fold(v, op, r.common), Val(v, r.e1)) &&
            Val(v, e2) == Apply(op, Fold(v, op, r.common), Val(v, r.e2))
    decreases Size(e1) + Size(e2)
  {
    hide Ranged, Apply, Val, ExprEq;
    var r := ExtractEq(op, e1, e2);
    if IsOp(op, e1) {
      SizePositive(e1.l); SizePositive(e1.r);
      var a := ExtractEq(op, e1.l, e2);
      var b := ExtractEq(op, e1.r, a.e2);
      ExtractEqSound(v, op, e1.l, e2);
      ExtractEqSound(v, op, e1.r, a.e2);
      FoldCat(v, op, a.common, b.common);
      MkVal(v, op, e1.l, e1.r); MkVal(v, op, a.e1, b.e1);
      Mix(op, Fold(v, op, a.common), Fold(v, op, b.common), Val(v, a.e1), Val(v, b.e1));
      Mix(op, Fold(v, op, a.common), Fold(v, op, b.common), Val(v, b.e2), Val(v, b.e2));
    } else if IsOp(op, e2) {
      SizePositive(e2.l); SizePositive(e2.r);
      var a := ExtractEq(op, e1, e2.l);
      var b := ExtractEq(op, a.e1, e2.r);
      ExtractEqSound(v, op, e1, e2.l);
      ExtractEqSound(v, op, a.e1, e2.r);
      FoldCat(v, op, a.common, b.common);
      MkVal(v, op, e2.l, e2.r); MkVal(v, op, a.e2, b.e2);
      Mix(op, Fold(v, op, a.common), Fold(v, op, b.common), Val(v, a.e2), Val(v, b.e2));
      Mix(op, Fold(v, op, a.common), Fold(v, op, b.common), Val(v, b.e1), Val(v, b.e1));
    } else {
      if r.common != [] {
        ExprEqSound(v, e1, e2);
      }
      Leaves(v, op, e1, e2, r);
    }
  }

  // ----- joining two operands -----

  predicate IsComparison(e: Expr) {
    e.Equal? || e.Unequal?
  }

  /** The symbol on the left of a leaf. */
  function LeftSym(e: Expr): Symbol
    requires e.Sym? || IsComparison(e)
  {
    if e.Sym? then e.s else e.a
  }

  /** The symbol a pair of operands is about, if the join functions can see it. */
  function SymOf(e: Expr, first: bool): Option<Symbol> {
    if e.Sym? || IsComparison(e) then Some(LeftSym(e))
    else if e.Not? && (e.e.Sym? || (first && IsComparison(e.e))) then Some(LeftSym(e.e))
    else None
  }

  /** One of the two is e = x and the other e = y. */
  predicate Compares(e1: Expr, e2: Expr, equal: bool, x: Symbol, y: Symbol) {
    (if equal then e1.Equal? && e2.Equal? else e1.Unequal? && e2.Unequal?) &&
    ((e1.b == x && e2.b == y) || (e1.b == y && e2.b == x))
  }

  /** expr_join_or: an expression for e1 || e2, if there is a shorter one. */
  function JoinOr(e1: Expr, e2: Expr): Option<Expr> {
    if ExprEq(e1, e2) then Some(e1)
    else
      var s1, s2 := SymOf(e1, true), SymOf(e2, false);
      if s1 == None || s2 == None || s1 != s2 then None
      else
        var s := s1.value;
        if s.Kind() == TristateType then
          if Compares(e1, e2, true, YES, MOD) then Some(Unequal(s, NO))
          else if Compares(e1, e2, true, YES, NO) then Some(Unequal(s, MOD))
          else if Compares(e1, e2, true, MOD, NO) then Some(Unequal(s, YES))
          else None
        else if s.Kind() == BooleanType &&
                ((e1.Not? && e1.e.Sym? && e2.Sym?) || (e2.Not? && e2.e.Sym? && e1.Sym?)) then Some(Sym(YES))
        else None
  }

  /** One is a symbol, the other compares it with x. */
  predicate SymAnd(e1: Expr, e2: Expr, equal: bool, x: Symbol) {
    (e1.Sym? && (if equal then e2.Equal? else e2.Unequal?) && e2.b == x) ||
    (e2.Sym? && (if equal then e1.Equal? else e1.Unequal?) && e1.b == x)
  }

  /** (a = b) && (a != c), for constants b and c */
  function EqualNotEqual(s: Symbol, b: Symbol, c: Symbol): Expr {
    if b != c then Equal(s, b) else Sym(NO)
  }

  /** expr_join_and: an expression for e1 && e2, if there is a shorter one. */
  function JoinAnd(e1: Expr, e2: Expr): Option<Expr> {
    if ExprEq(e1, e2) then Some(e1)
    else
      var s1, s2 := SymOf(e1, true), SymOf(e2, false);
      if s1 == None || s2 == None || s1 != s2 then None
      else
        var s := s1.value;
        if s.Kind() != BooleanType && s.Kind() != TristateType then None
        else if SymAnd(e1, e2, true, YES) then Some(Equal(s, YES))
        else if SymAnd(e1, e2, false, NO) then Some(Sym(s))
        else if SymAnd(e1, e2, false, MOD) then Some(Equal(s, YES))
        else if s.Kind() != TristateType then None
        else if e1.Equal? && e2.Unequal? && e2.b.Const? && e1.b.Const? then Some(EqualNotEqual(s, e1.b, e2.b))
        else if e1.Unequal? && e2.Equal? && e1.b.Const? && e2.b.Const? then Some(EqualNotEqual(s, e2.b, e1.b))
        else if Compares(e1, e2, false, YES, NO) then Some(Equal(s, MOD))
        else if Compares(e1, e2, false, YES, MOD) then Some(Equal(s, NO))
        else if Compares(e1, e2, false, MOD, NO) then Some(Equal(s, YES))
        else None
  }

  function Join(op: Op, e1: Expr, e2: Expr): Option<Expr> {
    if op == OpOr then JoinOr(e1, e2) else JoinAnd(e1, e2)
  }

  /** What Proper says about the one symbol of a join. */
  lemma {:induction false} SymbolFacts(v: Valuation, s: Symbol)
    requires Proper(v) && (s.Kind() == BooleanType || s.Kind() == TristateType)
    ensures 0 <= v.tri(s) <= 2 && v.str(s) == Letter(v.tri(s)) && (s.Kind() == BooleanType ==> v.tri(s) != 1)
    ensures v.str(YES) == "y" && v.str(MOD) == "m" && v.str(NO) == "n" && v.tri(YES) == 2 && v.tri(NO) == 0
  {
  }

  lemma {:induction false} JoinOrMeans(v: Valuation, e1: Expr, e2: Expr)
    requires Proper(v) && JoinOr(e1, e2).Some?
    ensures Val(v, JoinOr(e1, e2).value) == Max(Val(v, e1), Val(v, e2))
  {
    assert Ranged(v);
    if ExprEq(e1, e2) {
      ExprEqSound(v, e1, e2);
    } else {
      SymbolFacts(v, SymOf(e1, true).value);
      hide Proper, Ranged, ExprEq;
    }
  }

  lemma {:induction false} ConstantsDiffer(v: Valuation, a: Symbol, b: Symbol)
    requires Proper(v) && a.Const? && b.Const? && a != b
    ensures v.str(a) != v.str(b)
  {
  }

  lemma {:induction false} JoinAndMeans(v: Valuation, e1: Expr, e2: Expr)
    requires Proper(v) && JoinAnd(e1, e2).Some?
    ensures Val(v, JoinAnd(e1, e2).value) == Min(Val(v, e1), Val(v, e2))
  {
    assert Ranged(v);
    if ExprEq(e1, e2) {
      ExprEqSound(v, e1, e2);
    } else {
      SymbolFacts(v, SymOf(e1, true).value);
      if IsComparison(e1) && IsComparison(e2) && e1.b.Const? && e2.b.Const? && e1.b != e2.b {
        ConstantsDiffer(v, e1.b, e2.b);
      }
      hide Proper, Ranged, ExprEq;
    }
  }

  lemma {:induction false} JoinMeans(v: Valuation, op: Op, e1: Expr, e2: Expr)
    requires Proper(v) && Join(op, e1, e2).Some?
    ensures Val(v, Join(op, e1, e2).value) == Apply(op, Val(v, e1), Val(v, e2))
  {
    hide Proper, JoinOr, JoinAnd;
    if op == OpOr { JoinOrMeans(v, e1, e2); } else { JoinAndMeans(v, e1, e2); }
  }

  /** A join is either a copy of the first operand or a leaf. */
  lemma {:induction false} JoinShape(op: Op, e1: Expr, e2: Expr)
    requires Join(op, e1, e2).Some?
    ensures var t := Join(op, e1, e2).value; t == e1 || t.Sym? || IsComparison(t)
  {
  }

  // ----- which operands are joined -----

  predicate IsLetter(s: Symbol) {
    s == YES || s == MOD || s == NO
  }

  /** Two operands, in this order, that make one. */
  predicate Shortens(op: Op, x: Expr, y: Expr) {
    match (op, x, y)
    case (OpOr, Equal(a, b), Equal(c, d)) =>
      a == c && a.Kind() == TristateType && IsLetter(b) && IsLetter(d) && b != d
    case (OpOr, Sym(a), Not(Sym(c))) => a == c && a.Kind() == BooleanType
    case (OpAnd, Sym(a), Equal(c, d)) => a == c && (a.Kind() == BooleanType || a.Kind() == TristateType) && d == YES
    case (OpAnd, Sym(a), Unequal(c, d)) =>
      a == c && (a.Kind() == BooleanType || a.Kind() == TristateType) && (d == NO || d == MOD)
    case (OpAnd, Equal(a, b), Unequal(c, d)) => a == c && a.Kind() == TristateType && b.Const? && d.Const?
    case (OpAnd, Unequal(a, b), Unequal(c, d)) =>
      a == c && a.Kind() == TristateType && IsLetter(b) && IsLetter(d) && b != d
    case _ => false
  }

  predicate Redundant(op: Op, x: Expr, y: Expr) {
    Shortens(op, x, y) || Shortens(op, y, x)
  }

  /** Exactly the equal and the redundant pairs are joined. */
  lemma {:induction false} JoinsIff(op: Op, e1: Expr, e2: Expr)
    ensures Join(op, e1, e2).Some? <==> ExprEq(e1, e2) || Redundant(op, e1, e2)
  {
    hide ExprEq;
  }
}
