/** rb_search, rb_node_next and rb_node_prev. */
module RbQuery {
  import opened Common
  import opened RbShape
  import opened RbHeap
  import opened RbInsert
  import RbDelete

  // ----- how deep a red-black tree is -----

  function Blacks(c: Ctx): nat {
    if c.Top? then 0 else Blacks(c.up) + if c.red then 0 else 1
  }

  /** A tree of black height h has at least 2^(h-1) - 1 nodes. */
  lemma {:induction false} EnoughNodes(t: Shape, h: int)
    requires Rb(t, h)
    ensures h >= 1 && |Inorder(t)| + 1 >= Pow2(h - 1)
  {
    RbHeight(t, h);
    if t.Tree? {
      var k := if t.red then h else h - 1;
      EnoughNodes(t.l, k);
      EnoughNodes(t.r, k);
    }
  }

  /** At most every other node on the way down is red. */
  lemma {:induction false} DepthBound(c: Ctx, h: int)
    requires CRb(c, h)
    ensures Depth(c) <= 2 * Blacks(c)
    ensures c.Step? && !c.red ==> Depth(c) <= 2 * Blacks(c) - 1
  {
    if c.Step? {
      DepthBound(c.up, if c.red then h else h + 1);
    }
  }

  lemma {:induction false} HeightAround(c: Ctx, t: Shape, h: int)
    requires Rb(t, h) && CRb(c, h) && (CRed(c) ==> !IsRed(t))
    ensures Rb(Plug(c, t), h + Blacks(c))
    decreases c
  {
    if c.Step? {
      HeightAround(c.up, Mk(c.d, c.red, t, c.n, c.sib), if c.red then h else h + 1);
    }
  }

  /** Reaching a subtree, and its root if it has one, takes at most 2 log2(n + 1) steps. */
  lemma {:induction false} StepsBound(c: Ctx, t: Shape)
    requires RbTop(Plug(c, t))
    ensures var n := |Inorder(Plug(c, t))|;
            Pow2(Depth(c) + if t.Tree? then 1 else 0) <= (n + 1) * (n + 1)
  {
    var h := UnplugRb(c, t);
    RbHeight(t, h);
    DepthBound(c, h);
    HeightAround(c, t, h);
    var k := h + Blacks(c) - 1;
    EnoughNodes(Plug(c, t), k + 1);
    var steps := Depth(c) + if t.Tree? then 1 else 0;
    assert steps <= 2 * k by {
      if t.Tree? && !t.red { RbHeight(t.l, h - 1); }
    }
    Pow2Grows(steps, k + k);
    Pow2Add(k, k);
    MulGrows(Pow2(k), |Inorder(Plug(c, t))| + 1);
  }

  lemma {:induction false} MulGrows(a: nat, b: nat)
    requires a <= b
    ensures a * a <= b * b
  {
    assert a * a <= a * b <= b * b;
  }

  // ----- rb_search -----

  /** A key comparison that agrees with the tree's order: positive, zero and negative values
      come in one run each, from the last element to the first. */
  ghost predicate Agrees(f: int -> int, s: seq<Node>) {
    forall i, j :: 0 <= i < j < |s| ==>
      (f(s[i].data) > 0 ==> f(s[j].data) > 0) && (f(s[j].data) < 0 ==> f(s[i].data) < 0)
  }

  /** Nothing outside the subtree matches. */
  ghost predicate Outside(f: int -> int, c: Ctx) {
    (forall n :: n in Before(c) ==> f(n.data) < 0) && (forall n :: n in After(c) ==> f(n.data) > 0)
  }

  lemma {:induction false} SearchTurn(f: int -> int, c: Ctx, t: Shape)
    requires t.Tree? && Agrees(f, Before(c) + Inorder(t) + After(c)) && Outside(f, c)
    ensures f(t.n.data) > 0 ==> Outside(f, Step(c, Left, t.red, t.n, t.r))
    ensures f(t.n.data) < 0 ==> Outside(f, Step(c, Right, t.red, t.n, t.l))
  {
    var s, k := Before(c) + Inorder(t) + After(c), |Before(c)| + |Inorder(t.l)|;
    assert s[k] == t.n;
    forall n | n in Inorder(t.r) && f(t.n.data) > 0 ensures f(n.data) > 0 {
      var i :| 0 <= i < |Inorder(t.r)| && Inorder(t.r)[i] == n;
      assert s[k + 1 + i] == n;
    }
    forall n | n in Inorder(t.l) && f(t.n.data) < 0 ensures f(n.data) < 0 {
      var i :| 0 <= i < |Inorder(t.l)| && Inorder(t.l)[i] == n;
      assert s[|Before(c)| + i] == n;
    }
  }

  /** The state of a search: at (c, t) of the tree, with all matches in t. */
  ghost predicate At(tree: RbTree, f: int -> int, c: Ctx, t: Shape)
    reads tree, tree.repr, tree.nil, tree.root
  {
    tree.View(c, t) && Plug(c, t) == tree.shape && Outside(f, c)
  }

  lemma {:induction false} SearchStep(tree: RbTree, f: int -> int, c: Ctx, t: Shape)
    requires At(tree, f, c, t) && t.Tree? && Agrees(f, Inorder(tree.shape))
    ensures f(t.n.data) > 0 ==> At(tree, f, Step(c, Left, t.red, t.n, t.r), t.l)
    ensures f(t.n.data) < 0 ==> At(tree, f, Step(c, Right, t.red, t.n, t.l), t.r)
  {
    hide Good, Agrees, Inorder, Before, After, Outside, RbTree.Snap;
    PlugInorder(c, t);
    SearchTurn(f, c, t);
    GoodUp(tree.Snap(), tree.nil, tree.root, Step(c, Left, t.red, t.n, t.r), t.l);
    GoodUp(tree.Snap(), tree.nil, tree.root, Step(c, Right, t.red, t.n, t.l), t.r);
  }

  lemma {:induction false} SearchEnd(f: int -> int, c: Ctx, t: Shape)
    requires Outside(f, c) && (t.Tree? ==> f(t.n.data) == 0)
    ensures t.Tree? ==> t.n in Inorder(Plug(c, t))
    ensures t.Nil? ==> forall n :: n in Inorder(Plug(c, t)) ==> f(n.data) != 0
  {
    PlugInorder(c, t);
    assert t.Tree? ==> t.n in Inorder(t);
  }

  /** rb_search; `steps` counts the comparisons.  The node found is the highest match: all
      matches lie in its subtree. */
  method Search(tree: RbTree, f: int -> int) returns (found: Node?, steps: nat)
    requires tree.Valid() && Agrees(f, Inorder(tree.shape))
    ensures found == null <==> forall n :: n in Inorder(tree.shape) ==> f(n.data) != 0
    ensures found != null ==> found in Inorder(tree.shape) && f(found.data) == 0
    ensures found != null ==> exists c, t :: Plug(c, t) == tree.shape && t.Tree? && t.n == found && Outside(f, c)
    ensures Pow2(steps) <= (|Inorder(tree.shape)| + 1) * (|Inorder(tree.shape)| + 1)
  {
    hide Good, RbTop, Agrees, Sorted, TotalPreorder, Inorder, Plug, Pow2, RbTree.Snap;
    var nil, node := tree.nil, tree.root.left;
    ghost var c, t := Top, tree.shape;
    steps := 0;
    tree.SnapAt(tree.root);
    GoodParent(tree.Snap(), nil, tree.root, c, t);
    assert At(tree, f, c, t) by { TopPlug(t); }
    while node != nil && f(node.data) != 0
      invariant At(tree, f, c, t) && node == RootOf(t, nil) && (t.Tree? ==> t.n != nil) && steps == Depth(c)
      decreases t
    {
      GoodParent(tree.Snap(), nil, tree.root, c, t);
      tree.SnapAt(node);
      SearchStep(tree, f, c, t);
      if f(node.data) > 0 {
        node, c, t := node.left, Step(c, Left, t.red, t.n, t.r), t.l;
      } else {
        node, c, t := node.right, Step(c, Right, t.red, t.n, t.l), t.r;
      }
      steps := steps + 1;
    }
    StepsBound(c, t);
    SearchEnd(f, c, t);
    found := if node != nil then node else null;
    steps := steps + if node != nil then 1 else 0;
  }

  lemma {:induction false} TopPlug(t: Shape)
    ensures Plug(Top, t) == t
  {
  }

  // ----- neighbours -----

  ghost predicate Adjacent(s: seq<Node>, x: Node, y: Node) {
    exists i :: 0 <= i && i + 1 < |s| && s[i] == x && s[i + 1] == y
  }

  /** x is the last (towards d) of the subtree, nothing of which is beyond it. */
  ghost predicate Last(d: Dir, t: Shape, x: Node) {
    var s := Inorder(t);
    |s| > 0 && x == if d == Right then s[|s| - 1] else s[0]
  }

  lemma {:induction false} LastUp(d: Dir, red: bool, t: Shape, n: Node, sib: Shape, x: Node)
    requires Last(d, t, x)
    ensures Last(d, Mk(d, red, t, n, sib), x)
  {
  }

  /** The subtree hangs away from d below c.n: then c.n is the next node towards d. */
  lemma {:induction false} NextAbove(d: Dir, c: Ctx, t: Shape, x: Node)
    requires Last(d, t, x) && c.Step? && c.d == Opp(d)
    ensures d == Right ==> Adjacent(Inorder(Plug(c, t)), x, c.n)
    ensures d == Left ==> Adjacent(Inorder(Plug(c, t)), c.n, x)
  {
    PlugInorder(c, t);
    var s, b, i := Inorder(Plug(c, t)), Before(c), Inorder(t);
    if d == Right {
      assert s[|b| + |i| - 1] == x && s[|b| + |i|] == After(c)[0];
    } else {
      assert s[|b|] == x && s[|b| - 1] == b[|b| - 1] == c.n;
    }
  }

  /** The next node towards d is the first one of the subtree on that side. */
  lemma {:induction false} NextBelow(d: Dir, c: Ctx, t: Shape, inner: Ctx, s: Shape)
    requires t.Tree? && s.Tree? && Plug(inner, s) == (if d == Right then t.r else t.l)
    requires if d == Right then s.l.Nil? && Before(inner) == [] else s.r.Nil? && After(inner) == []
    ensures d == Right ==> Adjacent(Inorder(Plug(c, t)), t.n, s.n)
    ensures d == Left ==> Adjacent(Inorder(Plug(c, t)), s.n, t.n)
  {
    RbDelete.InorderAround(c, t);
    PlugInorder(inner, s);
    var a, b, q := Before(c) + Inorder(t.l), Inorder(t.r) + After(c), Inorder(Plug(c, t));
    if d == Right {
      assert Inorder(t.r)[0] == s.n;
      assert q[|a|] == t.n && q[|a| + 1] == b[0] == s.n;
    } else {
      var l := Inorder(t.l);
      assert l[|l| - 1] == s.n;
      assert q[|a|] == t.n && q[|a| - 1] == a[|a| - 1] == s.n;
    }
  }

  /** One climbing step: x is the d-child of its parent. */
  lemma {:induction false} ClimbStep(m: Mem, nil: Node, root: Node, c: Ctx, t: Shape)
    requires Good(m, nil, root, c, t) && t.Tree?
    ensures t.n in m && m[t.n].parent == CNode(c, root) && CNode(c, root) in m
    ensures c.Step? ==> (m[c.n].right == t.n <==> c.d == Right) && (m[c.n].left == t.n <==> c.d == Left)
    ensures c.Step? ==> CNode(c, root) != root && CNode(c, root) != nil
    ensures c.Top? ==> m[root].right != t.n && m[root].left == t.n
    ensures t.n != nil
  {
    assert c.Step? && c.sib.Tree? ==> c.sib.n in CNodes(c);
  }

  /** rb_tree_successor (d = Right), as rb_node_next returns it: null stands for nil. */
  method Next(tree: RbTree, node: Node) returns (next: Node?)
    requires tree.Valid() && node in tree.repr
    ensures next == null ==> Inorder(tree.shape) != [] && Inorder(tree.shape)[|Inorder(tree.shape)| - 1] == node
    ensures next != null ==> Adjacent(Inorder(tree.shape), node, next)
  {
    hide Good, RbTop, Sorted, TotalPreorder, Inorder, Plug, Adjacent, Last, RbTree.Snap;
    ghost var m := tree.Snap();
    RbDelete.NodesOf(m, tree.nil, tree.root, tree.shape);
    tree.SnapAt(node);
    ghost var c, t := Locate(tree.shape, node);
    Refocus(m, tree.nil, tree.root, c, t);
    GoodParent(m, tree.nil, tree.root, c, t);
    var nil, x := tree.nil, node;
    if x.right != nil {
      ghost var c1, inner, s := Step(c, Right, t.red, t.n, t.l), Top, Nil;
      GoodUp(m, nil, tree.root, c1, t.r);
      next, inner, s := RbDelete.Extreme(tree, Left, x.right, c1, t.r);
      NextBelow(Right, c, t, inner, s);
    } else {
      assert Last(Right, t, node) by { LastHere(Right, t); }
      ClimbStep(m, nil, tree.root, c, t);
      var y := x.parent;
      tree.SnapAt(y);
      while x == y.right
        invariant tree.View(c, t) && t.Tree? && Plug(c, t) == tree.shape && x == t.n && y == CNode(c, tree.root)
        invariant y in tree.repr + {nil, tree.root}
        invariant Last(Right, t, node)
        decreases c
      {
        ClimbStep(m, nil, tree.root, c, t);
        tree.SnapAt(y); tree.SnapAt(tree.root);
        LastUp(Right, c.red, t, c.n, c.sib, node);
        GoodUp(m, nil, tree.root, c, t);
        ghost var t' := Mk(c.d, c.red, t, c.n, c.sib);
        PlugStep(c, t);
        x, c, t := y, c.up, t';
        ClimbStep(m, nil, tree.root, c, t);
        tree.SnapAt(x);
        y := y.parent;
      }
      ClimbStep(m, nil, tree.root, c, t);
      tree.SnapAt(y);
      if y == tree.root {
        next := null;
        LastTop(Right, t, node);
      } else {
        next := y;
        NextAbove(Right, c, t, node);
      }
    }
  }

  /** rb_tree_predecessor, as rb_node_prev returns it. */
  method Prev(tree: RbTree, node: Node) returns (prev: Node?)
    requires tree.Valid() && node in tree.repr
    ensures prev == null ==> Inorder(tree.shape) != [] && Inorder(tree.shape)[0] == node
    ensures prev != null ==> Adjacent(Inorder(tree.shape), prev, node)
  {
    hide Good, RbTop, Sorted, TotalPreorder, Inorder, Plug, Adjacent, Last, RbTree.Snap;
    ghost var m := tree.Snap();
    RbDelete.NodesOf(m, tree.nil, tree.root, tree.shape);
    tree.SnapAt(node);
    ghost var c, t := Locate(tree.shape, node);
    Refocus(m, tree.nil, tree.root, c, t);
    GoodParent(m, tree.nil, tree.root, c, t);
    var nil, x := tree.nil, node;
    if x.left != nil {
      ghost var c1, inner, s := Step(c, Left, t.red, t.n, t.r), Top, Nil;
      GoodUp(m, nil, tree.root, c1, t.l);
      prev, inner, s := RbDelete.Extreme(tree, Right, x.left, c1, t.l);
      NextBelow(Left, c, t, inner, s);
    } else {
      assert Last(Left, t, node) by { LastHere(Left, t); }
      ClimbStep(m, nil, tree.root, c, t);
      var y := x.parent;
      tree.SnapAt(y);
      while x == y.left
        invariant tree.View(c, t) && t.Tree? && Plug(c, t) == tree.shape && x == t.n && y == CNode(c, tree.root)
        invariant y in tree.repr + {nil, tree.root}
        invariant Last(Left, t, node)
        decreases c
      {
        ClimbStep(m, nil, tree.root, c, t);
        if y == tree.root {
          LastTop(Left, t, node);
          return null;
        }
        tree.SnapAt(y);
        LastUp(Left, c.red, t, c.n, c.sib, node);
        GoodUp(m, nil, tree.root, c, t);
        ghost var t' := Mk(c.d, c.red, t, c.n, c.sib);
        PlugStep(c, t);
        x, c, t := y, c.up, t';
        ClimbStep(m, nil, tree.root, c, t);
        tree.SnapAt(x);
        y := y.parent;
      }
      ClimbStep(m, nil, tree.root, c, t);
      tree.SnapAt(y);
      prev := y;
      NextAbove(Left, c, t, node);
    }
  }

  lemma {:induction false} LastHere(d: Dir, t: Shape)
    requires t.Tree? && (if d == Right then t.r.Nil? else t.l.Nil?)
    ensures Last(d, t, t.n)
  {
  }

  lemma {:induction false} LastTop(d: Dir, t: Shape, x: Node)
    requires Last(d, t, x)
    ensures Plug(Top, t) == t && |Inorder(t)| > 0
    ensures x == if d == Right then Inorder(t)[|Inorder(t)| - 1] else Inorder(t)[0]
  {
  }

  /** Neighbours in the sequence are unique, so Next and Prev undo each other, and the ends have
      none on one side. */
  lemma {:induction false} NeighboursUnique(tree: RbTree, x: Node, y: Node, z: Node)
    requires tree.Valid()
    ensures var s := Inorder(tree.shape);
            (Adjacent(s, x, y) && Adjacent(s, x, z) ==> y == z) &&
            (Adjacent(s, y, x) && Adjacent(s, z, x) ==> y == z) &&
            (s != [] && x == s[|s| - 1] ==> !Adjacent(s, x, y)) && (s != [] && x == s[0] ==> !Adjacent(s, y, x))
  {
    hide Sorted, TotalPreorder;
    InorderNoDup(tree.shape);
  }
}
