/** What expr_eliminate_dups leaves: no two operands that are equal or that could be joined. */
module KconfigDistinct {
  import opened Common
  import opened KconfigExpr
  import opened KconfigEq
  import opened KconfigJoin
  import opened KconfigDups
  import opened KconfigDupsProofs

  /** p leads to an operand of the spine. */
  predicate IsLeaf(op: Op, t: Expr, p: Path) {
    OnSpine(op, t, p) && !IsOp(op, Get(op, t, p))
  }

  /** No two operands of the spine are equal, or make one shorter operand. */
  ghost predicate Distinct(op: Op, t: Expr) {
    forall p, q :: IsLeaf(op, t, p) && IsLeaf(op, t, q) && p != q ==>
      !ExprEq(Get(op, t, p), Get(op, t, q)) && !Redundant(op, Get(op, t, p), Get(op, t, q))
  }

  /** So it is for every spine that is not below a negation. */
  ghost predicate DupFree(t: Expr) {
    (t.And? ==> Distinct(OpAnd, t) && DupFree(t.l) && DupFree(t.r)) &&
    (t.Or? ==> Distinct(OpOr, t) && DupFree(t.l) && DupFree(t.r))
  }

  lemma {:induction false} GetCat(op: Op, t: Expr, p: Path, r: Path)
    requires OnSpine(op, t, p)
    ensures OnSpine(op, t, p + r) <==> OnSpine(op, Get(op, t, p), r)
    ensures OnSpine(op, t, p + r) ==> Get(op, t, p + r) == Get(op, Get(op, t, p), r)
  {
    if p == [] {
      assert p + r == r;
    } else {
      assert (p + r)[1..] == p[1..] + r && (p + r)[0] == p[0];
      GetCat(op, if p[0] then t.r else t.l, p[1..], r);
    }
  }

  /** Below an operand there is no other, and below an op node one goes left or right. */
  lemma {:induction false} Onward(op: Op, t: Expr, p: Path, l: Path)
    requires OnSpine(op, t, p) && IsLeaf(op, t, l) && p <= l
    ensures IsOp(op, Get(op, t, p)) ==> |l| > |p| && p + [l[|p|]] <= l
    ensures !IsOp(op, Get(op, t, p)) ==> l == p
  {
    var r := l[|p|..];
    assert l == p + r;
    GetCat(op, t, p, r);
    assert r == [] ==> l == p;
  }

  /** A first pass that counts nothing has compared every operand below p1 with every other below p2, and
      has gone through the former. */
  lemma {:induction false} ComparedAll(op: Op, t: Expr, p1: Path, p2: Path, l1: Path, l2: Path)
    requires OnSpine(op, t, p1) && OnSpine(op, t, p2) && Dups1(op, t, p1, p2).count == 0
    requires IsLeaf(op, t, l1) && IsLeaf(op, t, l2) && p1 <= l1 && p2 <= l2 && l1 != l2
    ensures Join(op, Get(op, t, l1), Get(op, t, l2)) == None
    ensures
      var x := Get(op, t, l1);
      IsOp(Other(op), x) ==> OnSpine(Other(op), x, []) && Dups1(Other(op), x, [], []).count == 0
    decreases Spine(op, Get(op, t, p1)) + Spine(op, Get(op, t, p2))
  {
    hide Get, OnSpine, SameSpine, Join;
    var e1, e2 := Get(op, t, p1), Get(op, t, p2);
    Onward(op, t, p1, l1);
    Onward(op, t, p2, l2);
    if IsOp(op, e1) {
      Below(op, t, p1, false); Below(op, t, p1, true);
      var a := Dups1(op, t, p1 + [false], p2);
      Later(op, t, a, p1 + [true], p2);
      if l1[|p1|] {
        ComparedAll(op, t, p1 + [true], p2, l1, l2);
      } else {
        ComparedAll(op, t, p1 + [false], p2, l1, l2);
      }
    } else if IsOp(op, e2) {
      Below(op, t, p2, false); Below(op, t, p2, true);
      var a := Dups1(op, t, p1, p2 + [false]);
      Later(op, t, a, p1, p2 + [true]);
      if l2[|p2|] {
        ComparedAll(op, t, p1, p2 + [true], l1, l2);
      } else {
        ComparedAll(op, t, p1, p2 + [false], l1, l2);
      }
    } else {
      BothRoots(op, t, p1, p2);
      LeafSmaller(op, t, p1);
      Roots(op, e1);
      var n := if IsOp(Other(op), e1) then Dups1(Other(op), e1, [], []) else Pass(e1, 0);
      SoundSelf(Other(op), e1);
      SoundInside(op, t, p1, n);
      GetOther(op, t, p1, p2, n.t);
      GetPut(op, t, p1, e1);
    }
  }

  /** Some operand of the spine. */
  ghost function FirstLeaf(op: Op, t: Expr): (p: Path)
    ensures IsLeaf(op, t, p)
  {
    if IsOp(op, t) then [false] + FirstLeaf(op, t.l) else []
  }

  /** Every spine has an operand other than the one at p, unless it is one itself. */
  lemma {:induction false} AnotherLeaf(op: Op, t: Expr, p: Path)
    returns (q: Path)
    requires IsLeaf(op, t, p) && IsOp(op, t)
    ensures IsLeaf(op, t, q) && q != p
  {
    var l, r := FirstLeaf(op, t.l), FirstLeaf(op, t.r);
    assert ([false] + l)[1..] == l && ([true] + r)[1..] == r;
    q := if p[0] then [false] + l else [true] + r;
  }

  /** What a first pass that counts nothing says about all nodes on the spine. */
  lemma {:induction false} SpineDupFree(op: Op, t: Expr, p: Path)
    requires IsOp(op, t) && OnSpine(op, t, []) && Dups1(op, t, [], []).count == 0 && OnSpine(op, t, p)
    ensures DupFree(Get(op, t, p))
    decreases Size(t), Spine(op, Get(op, t, p))
  {
    var x := Get(op, t, p);
    hide Dups1, Get, Join, ExprEq, Redundant;
    if IsOp(op, x) {
      Below(op, t, p, false); Below(op, t, p, true);
      SpineDupFree(op, t, p + [false]);
      SpineDupFree(op, t, p + [true]);
      forall a, b | IsLeaf(op, x, a) && IsLeaf(op, x, b) && a != b
        ensures !ExprEq(Get(op, x, a), Get(op, x, b)) && !Redundant(op, Get(op, x, a), Get(op, x, b))
      {
        GetCat(op, t, p, a);
        GetCat(op, t, p, b);
        assert (p + a)[|p|..] == a && (p + b)[|p|..] == b;
        ComparedAll(op, t, [], [], p + a, p + b);
        JoinsIff(op, Get(op, x, a), Get(op, x, b));
      }
      assert Distinct(op, x);
    } else if IsOp(Other(op), x) {
      var q := AnotherLeaf(op, t, p);
      ComparedAll(op, t, [], [], p, q);
      Roots(op, t);
      LeafSmaller(op, t, p);
      Roots(Other(op), x);
      SpineDupFree(Other(op), x, []);
    }
  }

  // ----- the second pass -----

  /** No operand of the spine that is itself an operator node is excluded by another part of the spine. */
  ghost predicate Uncancelled(op: Op, t: Expr) {
    forall p, q :: IsLeaf(op, t, p) && OnSpine(op, t, q) && p != q && IsOp(Other(op), Get(op, t, p)) ==>
      !Excludes(op, Get(op, t, p), Get(op, t, q))
  }

  ghost predicate CancelFree(t: Expr) {
    (t.And? ==> Uncancelled(OpAnd, t) && CancelFree(t.l) && CancelFree(t.r)) &&
    (t.Or? ==> Uncancelled(OpOr, t) && CancelFree(t.l) && CancelFree(t.r))
  }

  lemma {:induction false} OnwardNode(op: Op, t: Expr, p: Path, l: Path)
    requires OnSpine(op, t, p) && OnSpine(op, t, l) && p <= l && p != l
    ensures IsOp(op, Get(op, t, p)) && |l| > |p| && p + [l[|p|]] <= l
  {
    var r := l[|p|..];
    assert l == p + r;
    GetCat(op, t, p, r);
  }

  /** A second pass that counts nothing has tried every operand below p1 against every node below p2. */
  lemma {:induction false} TriedAll(op: Op, t: Expr, p1: Path, p2: Path, l1: Path, l2: Path)
    requires OnSpine(op, t, p1) && OnSpine(op, t, p2) && Dups2(op, t, p1, p2).count == 0
    requires IsLeaf(op, t, l1) && OnSpine(op, t, l2) && p1 <= l1 && p2 <= l2 && l1 != l2
    requires IsOp(Other(op), Get(op, t, l1))
    ensures !Excludes(op, Get(op, t, l1), Get(op, t, l2))
    ensures
      var x := Get(op, t, l1);
      OnSpine(Other(op), x, []) && Dups2(Other(op), x, [], []).count == 0
    decreases Spine(op, Get(op, t, p1)) + Spine(op, Get(op, t, p2))
  {
    hide Get, OnSpine, SameSpine, Excludes;
    var e1 := Get(op, t, p1);
    Onward(op, t, p1, l1);
    if IsOp(op, e1) {
      Below(op, t, p1, false); Below(op, t, p1, true);
      var a := Dups2(op, t, p1 + [false], p2);
      Later(op, t, a, p1 + [true], p2);
      if l1[|p1|] {
        TriedAll(op, t, p1 + [true], p2, l1, l2);
      } else {
        TriedAll(op, t, p1 + [false], p2, l1, l2);
      }
    } else {
      var a := Dups2Right(op, t, p1, p2);
      if p2 != l2 {
        OnwardNode(op, t, p2, l2);
        Below(op, t, p2, false); Below(op, t, p2, true);
        var b := Dups2(op, t, p1, p2 + [false]);
        Later(op, t, b, p1, p2 + [true]);
        if p1 != p2 {
          BothRoots(op, t, p1, p2);
          Later(op, t, a, p1, p2);
          LeafStays(op, t, a, p1);
        }
        if l2[|p2|] {
          TriedAll(op, t, p1, p2 + [true], l1, l2);
        } else {
          TriedAll(op, t, p1, p2 + [false], l1, l2);
        }
      } else {
        BothRoots(op, t, p1, p2);
        Later(op, t, a, p1, p2);
        LeafStays(op, t, a, p1);
        LeafSmaller(op, t, p1);
        Roots(op, e1);
        var n := Dups2(Other(op), e1, [], []);
        SoundInside(op, t, p1, n);
        GetPut(op, t, p1, e1);
      }
    }
  }

  lemma {:induction false} SpineCancelFree(op: Op, t: Expr, p: Path)
    requires IsOp(op, t) && OnSpine(op, t, []) && Dups2(op, t, [], []).count == 0 && OnSpine(op, t, p)
    ensures CancelFree(Get(op, t, p))
    decreases Size(t), Spine(op, Get(op, t, p))
  {
    var x := Get(op, t, p);
    hide Dups2, Get, Excludes;
    if IsOp(op, x) {
      Below(op, t, p, false); Below(op, t, p, true);
      SpineCancelFree(op, t, p + [false]);
      SpineCancelFree(op, t, p + [true]);
      forall a, b | IsLeaf(op, x, a) && OnSpine(op, x, b) && a != b && IsOp(Other(op), Get(op, x, a))
        ensures !Excludes(op, Get(op, x, a), Get(op, x, b))
      {
        GetCat(op, t, p, a);
        GetCat(op, t, p, b);
        assert (p + a)[|p|..] == a && (p + b)[|p|..] == b;
        TriedAll(op, t, [], [], p + a, p + b);
      }
      assert Uncancelled(op, x);
    } else if IsOp(Other(op), x) {
      Roots(op, t);
      assert p != [];
      TriedAll(op, t, [], [], p, []);
      LeafSmaller(op, t, p);
      Roots(Other(op), x);
      SpineCancelFree(Other(op), x, []);
    }
  }

  // ----- nothing else is changed -----

  lemma {:induction false} DupFreeAt(op: Op, t: Expr, p: Path)
    requires OnSpine(op, t, p)
    ensures DupFree(t) ==> DupFree(Get(op, t, p))
    ensures CancelFree(t) ==> CancelFree(Get(op, t, p))
  {
    if p != [] {
      hide Distinct, Uncancelled;
      DupFreeAt(op, if p[0] then t.r else t.l, p[1..]);
    }
  }

  lemma {:induction false} DupFreeIdle(op: Op, t: Expr, p1: Path, p2: Path)
    requires IsOp(op, t) && DupFree(t) && OnSpine(op, t, p1) && OnSpine(op, t, p2)
    ensures Dups1(op, t, p1, p2).count == 0
    decreases Size(t), Spine(op, Get(op, t, p1)) + Spine(op, Get(op, t, p2))
  {
    var e1, e2 := Get(op, t, p1), Get(op, t, p2);
    assert Distinct(op, t);
    hide Get, OnSpine, SameSpine, Join, Distinct, DupFree;
    if IsOp(op, e1) {
      Below(op, t, p1, false); Below(op, t, p1, true);
      var a := Dups1(op, t, p1 + [false], p2);
      Later(op, t, a, p1 + [true], p2);
      DupFreeIdle(op, t, p1 + [false], p2);
      DupFreeIdle(op, t, p1 + [true], p2);
    } else if IsOp(op, e2) {
      Below(op, t, p2, false); Below(op, t, p2, true);
      var a := Dups1(op, t, p1, p2 + [false]);
      Later(op, t, a, p1, p2 + [true]);
      DupFreeIdle(op, t, p1, p2 + [false]);
      DupFreeIdle(op, t, p1, p2 + [true]);
    } else if p1 != p2 {
      BothRoots(op, t, p1, p2);
      LeafSmaller(op, t, p1);
      Roots(op, e1);
      DupFreeAt(op, t, p1);
      if IsOp(Other(op), e1) {
        DupFreeIdle(Other(op), e1, [], []);
      }
      var n := if IsOp(Other(op), e1) then Dups1(Other(op), e1, [], []) else Pass(e1, 0);
      SoundSelf(Other(op), e1);
      SoundInside(op, t, p1, n);
      GetOther(op, t, p1, p2, n.t);
      GetPut(op, t, p1, e1);
      DistinctPair(op, t, p1, p2);
      JoinsIff(op, e1, e2);
    }
  }

  lemma {:induction false} DistinctPair(op: Op, t: Expr, p: Path, q: Path)
    requires Distinct(op, t) && IsLeaf(op, t, p) && IsLeaf(op, t, q) && p != q
    ensures !ExprEq(Get(op, t, p), Get(op, t, q)) && !Redundant(op, Get(op, t, p), Get(op, t, q))
  {
  }

  lemma {:induction false} CancelFreeIdle(op: Op, t: Expr, p1: Path, p2: Path)
    requires IsOp(op, t) && CancelFree(t) && OnSpine(op, t, p1) && OnSpine(op, t, p2)
    ensures Dups2(op, t, p1, p2).count == 0
    decreases Size(t), Spine(op, Get(op, t, p1)) + Spine(op, Get(op, t, p2)), 1
  {
    var e1 := Get(op, t, p1);
    assert Uncancelled(op, t);
    hide Get, OnSpine, SameSpine, Excludes, Uncancelled, CancelFree;
    if IsOp(op, e1) {
      Below(op, t, p1, false); Below(op, t, p1, true);
      var a := Dups2(op, t, p1 + [false], p2);
      Later(op, t, a, p1 + [true], p2);
      CancelFreeIdle(op, t, p1 + [false], p2);
      CancelFreeIdle(op, t, p1 + [true], p2);
    } else {
      CancelFreeIdleRight(op, t, p1, p2);
      hide Dups2Right;
      var a := Dups2Right(op, t, p1, p2);
      if p1 != p2 && IsOp(Other(op), e1) {
        BothRoots(op, t, p1, p2);
        Later(op, t, a, p1, p2);
        LeafStays(op, t, a, p1);
        LeafSmaller(op, t, p1);
        Roots(op, e1);
        DupFreeAt(op, t, p1);
        CancelFreeIdle(Other(op), e1, [], []);
        var n := Dups2(Other(op), e1, [], []);
        SoundInside(op, t, p1, n);
        GetPut(op, t, p1, e1);
        UncancelledPair(op, t, p1, p2);
      }
    }
  }

  lemma {:induction false} CancelFreeIdleRight(op: Op, t: Expr, p1: Path, p2: Path)
    requires IsOp(op, t) && CancelFree(t) && OnSpine(op, t, p1) && OnSpine(op, t, p2)
    ensures Dups2Right(op, t, p1, p2).count == 0
    decreases Size(t), Spine(op, Get(op, t, p1)) + Spine(op, Get(op, t, p2)), 0
  {
    hide Get, OnSpine, SameSpine, CancelFree, Dups2;
    if IsOp(op, Get(op, t, p2)) {
      Below(op, t, p2, false); Below(op, t, p2, true);
      var a := Dups2(op, t, p1, p2 + [false]);
      Later(op, t, a, p1, p2 + [true]);
      CancelFreeIdle(op, t, p1, p2 + [false]);
      CancelFreeIdle(op, t, p1, p2 + [true]);
    }
  }

  lemma {:induction false} UncancelledPair(op: Op, t: Expr, p: Path, q: Path)
    requires Uncancelled(op, t) && IsLeaf(op, t, p) && OnSpine(op, t, q) && p != q
    requires IsOp(Other(op), Get(op, t, p))
    ensures !Excludes(op, Get(op, t, p), Get(op, t, q))
  {
  }

  /** A round of expr_eliminate_dups counts nothing exactly if nothing is left to join or to cancel. */
  lemma {:induction false} IdleIff(e: Expr)
    ensures Round(e).count == 0 <==> DupFree(e) && CancelFree(e)
  {
    if e.And? || e.Or? {
      var op := if e.Or? then OpOr else OpAnd;
      Roots(op, e);
      hide Dups1, Dups2, DupFree, CancelFree;
      var a := Dups1(op, e, [], []);
      if Round(e).count == 0 {
        SpineDupFree(op, e, []);
        SpineCancelFree(op, e, []);
      }
      if DupFree(e) && CancelFree(e) {
        DupFreeIdle(op, e, [], []);
        CancelFreeIdle(op, e, [], []);
      }
    }
  }

  /** The result of expr_eliminate_dups has no duplicates left. */
  lemma {:induction false} EliminateDupsDistinct(e: Expr)
    ensures DupFree(EliminateDups(e)) && CancelFree(EliminateDups(e))
  {
    hide Round, EliminateDups, DupFree, CancelFree;
    EliminateDupsStable(e);
    IdleIff(EliminateDups(e));
  }
}
