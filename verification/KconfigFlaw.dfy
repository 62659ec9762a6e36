/** An expression whose value expr_eliminate_dups changes: (A || n) && !A, with A set to m. */
module KconfigFlaw {
  import opened Common
  import opened KconfigExpr
  import opened KconfigEq
  import opened KconfigJoin
  import opened KconfigDups
  import opened KconfigDupsProofs

  // ----- the passes on an operator with two operands -----

  lemma {:induction false} Pair(op: Op, x: Expr, y: Expr, z: Expr)
    requires !IsOp(op, x) && !IsOp(op, y)
    ensures var t := Mk(op, x, y);
            OnSpine(op, t, []) && OnSpine(op, t, [false]) && OnSpine(op, t, [true]) &&
            Get(op, t, []) == t && Get(op, t, [false]) == x && Get(op, t, [true]) == y &&
            Put(op, t, [false], z) == Mk(op, z, y) && Put(op, t, [true], z) == Mk(op, x, z) &&
            [] + [false] == [false] && [] + [true] == [true]
  {
    hide SameSpine, Size;
    assert [false][1..] == [] && [true][1..] == [];
    Roots(op, x);
    Roots(op, y);
  }

  /** The leaf step finds nothing to do at (p, q). */
  lemma {:induction false} LeafQuiet1(op: Op, x: Expr, y: Expr, right: bool)
    requires !IsOp(op, x) && !IsOp(op, y)
    requires
      var e := if right then y else x;
      IsOp(Other(op), e) ==> OnSpine(Other(op), e, []) && Dups1(Other(op), e, [], []) == Pass(e, 0)
    requires Join(op, x, y) == None && Join(op, y, x) == None
    ensures OnSpine(op, Mk(op, x, y), [right]) && OnSpine(op, Mk(op, x, y), [!right])
    ensures Dups1(op, Mk(op, x, y), [right], [!right]) == Pass(Mk(op, x, y), 0) &&
      Dups1(op, Mk(op, x, y), [right], [right]) == Pass(Mk(op, x, y), 0)
  {
    hide Join;
    Pair(op, x, y, if right then y else x);
  }

  lemma {:induction false} Quiet1(op: Op, x: Expr, y: Expr)
    requires !IsOp(op, x) && !IsOp(op, y)
    requires IsOp(Other(op), x) ==> OnSpine(Other(op), x, []) && Dups1(Other(op), x, [], []) == Pass(x, 0)
    requires IsOp(Other(op), y) ==> OnSpine(Other(op), y, []) && Dups1(Other(op), y, [], []) == Pass(y, 0)
    requires Join(op, x, y) == None && Join(op, y, x) == None
    ensures OnSpine(op, Mk(op, x, y), []) && Dups1(op, Mk(op, x, y), [], []) == Pass(Mk(op, x, y), 0)
  {
    var t := Mk(op, x, y);
    Pair(op, x, y, x);
    LeafQuiet1(op, x, y, false);
    LeafQuiet1(op, x, y, true);
    hide Join;
    assert Dups1(op, t, [false], []) == Pass(t, 0);
    assert Dups1(op, t, [true], []) == Pass(t, 0);
  }

  /** The second pass on an operator with two operands that are no operators themselves. */
  lemma {:induction false} Quiet2(op: Op, x: Expr, y: Expr)
    requires !IsOp(op, x) && !IsOp(op, y) && !IsOp(Other(op), x) && !IsOp(Other(op), y)
    ensures OnSpine(op, Mk(op, x, y), []) && Dups2(op, Mk(op, x, y), [], []) == Pass(Mk(op, x, y), 0)
  {
    var t := Mk(op, x, y);
    Pair(op, x, y, x);
    assert Dups2(op, t, [false], [false]) == Pass(t, 0) && Dups2(op, t, [false], [true]) == Pass(t, 0);
    assert Dups2(op, t, [true], [false]) == Pass(t, 0) && Dups2(op, t, [true], [true]) == Pass(t, 0);
    assert Dups2(op, t, [false], []) == Pass(t, 0);
    assert Dups2(op, t, [true], []) == Pass(t, 0);
  }

  // ----- the example -----

  const A := Config(10, TristateType)

  function Inner(): Expr { Or(Sym(A), Sym(NO)) }
  function Example(): Expr { And(Inner(), Not(Sym(A))) }

  lemma {:induction false} InnerQuiet1()
    ensures OnSpine(OpOr, Inner(), []) && Dups1(OpOr, Inner(), [], []) == Pass(Inner(), 0)
  {
    Quiet1(OpOr, Sym(A), Sym(NO));
  }

  lemma {:induction false} ExampleQuiet1()
    ensures OnSpine(OpAnd, Example(), []) && Dups1(OpAnd, Example(), [], []) == Pass(Example(), 0)
  {
    InnerQuiet1();
    Quiet1(OpAnd, Inner(), Not(Sym(A)));
  }

  lemma {:induction false} InnerExcluded()
    ensures Excludes(OpAnd, Inner(), Not(Sym(A)))
  {
    var na := Not(Sym(A));
    assert Transform(And(Not(Sym(A)), Not(Sym(NO)))) == And(na, Sym(YES));
    assert Transform(Not(Inner())) == And(na, Sym(YES));
    assert ExtractEq(OpAnd, na, na) == Split(Sym(YES), Sym(YES), [na]);
    assert ExtractEq(OpAnd, Sym(YES), Sym(YES)) == Split(Sym(YES), Sym(YES), [Sym(YES)]);
    assert ExtractEq(OpAnd, And(na, Sym(YES)), na).e1 == And(Sym(YES), Sym(YES));
  }

  function Changed(): Expr { And(Sym(NO), Not(Sym(A))) }

  lemma {:induction false} ExampleDups2()
    ensures OnSpine(OpAnd, Example(), []) && Dups2(OpAnd, Example(), [], []) == Pass(Changed(), 1)
  {
    var t, u, na := Example(), Changed(), Not(Sym(A));
    Pair(OpAnd, Inner(), na, Inner());
    Pair(OpAnd, Inner(), na, Sym(NO));
    Pair(OpAnd, Sym(NO), na, na);
    InnerExcluded();
    Quiet2(OpOr, Sym(A), Sym(NO));
    hide Excludes;
    assert Dups2(OpAnd, t, [false], [false]) == Pass(t, 0);
    assert Dups2(OpAnd, t, [false], [true]) == Pass(u, 1);
    assert Dups2Right(OpAnd, t, [false], []) == Pass(u, 1);
    assert Dups2(OpAnd, t, [false], []) == Pass(u, 1);
    assert Dups2(OpAnd, u, [true], [false]) == Pass(u, 0) && Dups2(OpAnd, u, [true], [true]) == Pass(u, 0);
    assert Dups2(OpAnd, u, [true], []) == Pass(u, 0);
  }

  lemma {:induction false} ExampleResult()
    ensures EliminateDups(Example()) == Sym(NO)
  {
    var e := Example();
    ExampleQuiet1();
    ExampleDups2();
    assert Round(e) == Pass(Changed(), 1);
    assert ElimYN(Changed()) == Sym(NO);
    assert Round(Sym(NO)) == Pass(Sym(NO), 0);
    hide Round;
  }

  /** A legal valuation with A = m: distinct constants get distinct strings. */
  function WithM(): Valuation {
    Valuation((s: Symbol) => if s == YES then 2 else if s == MOD || s == A then 1 else 0,
              (s: Symbol) =>
                if s == YES then "y" else if s == MOD || s == A then "m"
                else if s == NO || s.Config? then "n" else Tag(s.id))
  }

  function Tag(id: int): string {
    seq(if id >= 0 then 2 * id + 2 else -2 * id + 1, _ => '#')
  }

  lemma {:induction false} WithMProper()
    ensures Proper(WithM())
  {
    var v := WithM();
    forall s: Symbol, s': Symbol | s.Const? && s'.Const? && s != s' ensures v.str(s) != v.str(s') {
      assert |Tag(s.id)| != |Tag(s'.id)| && |Tag(s.id)| >= 2 && |Tag(s'.id)| >= 2;
      assert |"y"| == 1 && |"m"| == 1 && |"n"| == 1;
    }
  }

  /** The value m becomes n: without the condition on m the value is not kept. */
  lemma {:induction false} ValueChanges()
    ensures Proper(WithM()) && Val(WithM(), Example()) == 1 && Val(WithM(), EliminateDups(Example())) == 0
  {
    WithMProper();
    ExampleResult();
  }
}
