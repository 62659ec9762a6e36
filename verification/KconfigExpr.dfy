/**
 Kconfig dependency expressions: their three-valued meaning (expr_calc_value) and
 the passes that normalise and simplify them.  Expressions are values here.
 */
module KconfigExpr {

  datatype SymbolType = UnknownType | BooleanType | TristateType | IntType | HexType | StringType | OtherType

  /** struct symbol; `id` stands for its address.  Constants (SYMBOL_CONST) have no type. */
  datatype Symbol = Const(id: int) | Config(id: int, type_: SymbolType) {
    function Kind(): SymbolType {
      if Const? then UnknownType else type_
    }
  }

  const YES := Const(0)
  const MOD := Const(1)
  const NO := Const(2)

  datatype Expr =
    | Sym(s: Symbol)
    | Not(e: Expr)
    | And(l: Expr, r: Expr)
    | Or(l: Expr, r: Expr)
    | Equal(a: Symbol, b: Symbol)
    | Unequal(a: Symbol, b: Symbol)

  /** The current values of all symbols: 0, 1 and 2 are n, m and y. */
  datatype Valuation = Valuation(tri: Symbol -> int, str: Symbol -> string)

  function Letter(t: int): string {
    if t == 0 then "n" else if t == 1 then "m" else "y"
  }

  /** Any assignment of n, m and y that gives the three constants their own value. */
  ghost predicate Ranged(v: Valuation) {
    (forall s :: 0 <= v.tri(s) <= 2) && v.tri(YES) == 2 && v.tri(MOD) == 1 && v.tri(NO) == 0
  }

  /** What sym_calc_value and sym_get_string_value make of the symbols: boolean symbols are
      never m, the string of a boolean or tristate symbol is its letter, and distinct
      constants are distinct strings. */
  ghost predicate Proper(v: Valuation) {
    Ranged(v) &&
    v.str(YES) == "y" && v.str(MOD) == "m" && v.str(NO) == "n" &&
    (forall s: Symbol :: s.Kind() == BooleanType || s.Kind() == TristateType ==> v.str(s) == Letter(v.tri(s))) &&
    (forall s: Symbol :: s.Kind() == BooleanType ==> v.tri(s) != 1) &&
    (forall s: Symbol, s': Symbol :: s.Const? && s'.Const? && s != s' ==> v.str(s) != v.str(s'))
  }

  function Min(x: int, y: int): int {
    if x < y then x else y
  }

  function Max(x: int, y: int): int {
    if x > y then x else y
  }

  /** expr_calc_value */
  function Val(v: Valuation, e: Expr): int {
    match e
    case Sym(s) => v.tri(s)
    case Not(x) => 2 - Val(v, x)
    case And(l, r) => Min(Val(v, l), Val(v, r))
    case Or(l, r) => Max(Val(v, l), Val(v, r))
    case Equal(a, b) => if v.str(a) == v.str(b) then 2 else 0
    case Unequal(a, b) => if v.str(a) == v.str(b) then 0 else 2
  }

  lemma {:induction false} ValRange(v: Valuation, e: Expr)
    requires Ranged(v)
    ensures 0 <= Val(v, e) <= 2
  {
    match e
    case Not(x) => ValRange(v, x);
    case And(l, r) => ValRange(v, l); ValRange(v, r);
    case Or(l, r) => ValRange(v, l); ValRange(v, r);
    case _ =>
  }

  function Size(e: Expr): nat {
    match e
    case Not(x) => 1 + Size(x)
    case And(l, r) => 1 + Size(l) + Size(r)
    case Or(l, r) => 1 + Size(l) + Size(r)
    case _ => 1
  }

  lemma {:induction false} SizePositive(e: Expr)
    ensures Size(e) >= 1
  {
  }

  // ----- expr_transform -----

  /** A bound on the work of expr_transform: a negation costs twice what it negates. */
  function Work(e: Expr): nat {
    match e
    case Sym(_) => 1
    case Not(x) => 2 * Work(x)
    case And(l, r) => 1 + Work(l) + Work(r)
    case Or(l, r) => 1 + Work(l) + Work(r)
    case Equal(_, _) => 2
    case Unequal(_, _) => 2
  }

  lemma {:induction false} WorkPositive(e: Expr)
    ensures Work(e) >= 1
  {
    match e
    case Not(x) => WorkPositive(x);
    case _ =>
  }

  /** Pushing a negation one level down is progress. */
  lemma {:induction false} PushWork(p: Expr, q: Expr)
    ensures Work(And(Not(p), Not(q))) == 2 * Work(Or(p, q)) - 1
    ensures Work(Or(Not(p), Not(q))) == 2 * Work(And(p, q)) - 1
  {
  }

  /** A comparison of a boolean symbol with a constant is the symbol, its negation or a constant. */
  function Compared(e: Expr): Expr
    requires e.Equal? || e.Unequal?
  {
    if e.a.Kind() != BooleanType then e
    else if e.b == NO then (if e.Equal? then Not(Sym(e.a)) else Sym(e.a))
    else if e.b == MOD then (if e.Equal? then Sym(NO) else Sym(YES))
    else if e.b == YES then (if e.Equal? then Sym(e.a) else Not(Sym(e.a)))
    else e
  }

  /** expr_transform */
  function Transform(e: Expr): (t: Expr)
    ensures Work(t) <= Work(e)
    decreases Work(e)
  {
    match e
    case Sym(_) => e
    case Equal(_, _) => Compared(e)
    case Unequal(_, _) => Compared(e)
    case And(l, r) => And(Transform(l), Transform(r))
    case Or(l, r) => Or(Transform(l), Transform(r))
    case Not(x) =>
      WorkPositive(x);
      var y := Transform(x);
      match y
      case Not(z) =>
        WorkPositive(z);
        Transform(z)
      case Equal(a, b) => Unequal(a, b)
      case Unequal(a, b) => Equal(a, b)
      case Or(p, q) =>
        PushWork(p, q);
        Transform(And(Not(p), Not(q)))
      case And(p, q) =>
        PushWork(p, q);
        Transform(Or(Not(p), Not(q)))
      case Sym(s) => if s == YES then Sym(NO) else if s == MOD then Sym(MOD) else if s == NO then Sym(YES) else Not(y)
  }

  lemma {:induction false} Constants(v: Valuation)
    requires Ranged(v)
    ensures v.tri(YES) == 2 && v.tri(MOD) == 1 && v.tri(NO) == 0
  {
  }

  /** The meaning is kept in every valuation where boolean symbols are never m. */
  lemma {:induction false} TransformMeans(v: Valuation, e: Expr)
    requires Proper(v)
    ensures Val(v, Transform(e)) == Val(v, e)
    decreases Work(e)
  {
    Constants(v);
    hide Proper, Compared;
    match e
    case Sym(_) =>
    case Equal(_, _) => ComparedMeans(v, e);
    case Unequal(_, _) => ComparedMeans(v, e);
    case And(l, r) => TransformMeans(v, l); TransformMeans(v, r);
    case Or(l, r) => TransformMeans(v, l); TransformMeans(v, r);
    case Not(x) =>
      WorkPositive(x);
      TransformMeans(v, x);
      var y := Transform(x);
      match y {
        case Not(z) => WorkPositive(z); TransformMeans(v, z);
        case Or(p, q) => PushWork(p, q); TransformMeans(v, And(Not(p), Not(q)));
        case And(p, q) => PushWork(p, q); TransformMeans(v, Or(Not(p), Not(q)));
        case _ =>
      }
  }

  lemma {:induction false} ComparedMeans(v: Valuation, e: Expr)
    requires Proper(v) && (e.Equal? || e.Unequal?)
    ensures Val(v, Compared(e)) == Val(v, e)
  {
    assert e.a.Kind() == BooleanType ==> v.str(e.a) == Letter(v.tri(e.a)) && v.tri(e.a) != 1;
  }

  /** The normal form: negation only right above a symbol that is not y, m or n, and no
      boolean symbol compared with one of these. */
  predicate Normal(e: Expr) {
    match e
    case Sym(_) => true
    case Not(x) => x.Sym? && x.s !in {YES, MOD, NO}
    case And(l, r) => Normal(l) && Normal(r)
    case Or(l, r) => Normal(l) && Normal(r)
    case Equal(a, b) => a.Kind() != BooleanType || b !in {YES, MOD, NO}
    case Unequal(a, b) => a.Kind() != BooleanType || b !in {YES, MOD, NO}
  }

  lemma {:induction false} TransformNormal(e: Expr)
    ensures Normal(Transform(e))
    decreases Work(e)
  {
    match e
    case Sym(_) =>
    case Equal(_, _) =>
    case Unequal(_, _) =>
    case And(l, r) => TransformNormal(l); TransformNormal(r);
    case Or(l, r) => TransformNormal(l); TransformNormal(r);
    case Not(x) =>
      WorkPositive(x);
      TransformNormal(x);
      var y := Transform(x);
      match y {
        case Not(z) => WorkPositive(z); TransformNormal(z);
        case Or(p, q) => PushWork(p, q); TransformNormal(And(Not(p), Not(q)));
        case And(p, q) => PushWork(p, q); TransformNormal(Or(Not(p), Not(q)));
        case _ =>
      }
  }

  lemma {:induction false} NormalIsFixed(e: Expr)
    requires Normal(e)
    ensures Transform(e) == e
  {
    match e
    case And(l, r) => NormalIsFixed(l); NormalIsFixed(r);
    case Or(l, r) => NormalIsFixed(l); NormalIsFixed(r);
    case _ =>
  }

  /** Transforming again changes nothing; what does not change is exactly the normal form. */
  lemma {:induction false} TransformIdempotent(e: Expr)
    ensures Transform(Transform(e)) == Transform(e)
    ensures Transform(e) == e <==> Normal(e)
  {
    TransformNormal(e);
    NormalIsFixed(Transform(e));
    if Normal(e) {
      NormalIsFixed(e);
    }
  }
}
