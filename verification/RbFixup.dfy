/** rb_delete_fixup. */
module RbFixup {
  import opened RbShape
  import opened RbHeap
  import opened RbInsert

  /** The subtree t is one black node short for its context, unless its root is red:
      then blackening that root makes up for it, whatever colour its children have. */
  ghost predicate Short(c: Ctx, t: Shape, h: int) {
    CRb(c, h + 1) && if IsRed(t) then Rb(Blacken(t), h + 1) else Rb(t, h)
  }

  /** The topmost node of the tree around a hole. */
  function TopNode(c: Ctx): Node
    requires c.Step?
  {
    if c.up.Top? then c.n else TopNode(c.up)
  }

  lemma {:induction false} TopNodeIs(c: Ctx, t: Shape)
    requires c.Step?
    ensures Plug(c, t).Tree? && Plug(c, t).n == TopNode(c)
    decreases c
  {
    var t' := Mk(c.d, c.red, t, c.n, c.sib);
    if c.up.Step? {
      TopNodeIs(c.up, t');
    }
  }

  lemma {:induction false} TopNodeBlack(m: Mem, nil: Node, root: Node, c: Ctx, hole: Node, h: int)
    requires CLinked(m, c, hole, root, nil) && c.Step? && CRb(c, h)
    ensures TopNode(c) in m && !m[TopNode(c)].red && TopNode(c) in CNodes(c)
    decreases c
  {
    if c.up.Step? {
      TopNodeBlack(m, nil, root, c.up, c.n, if c.red then h else h + 1);
    }
  }

  /** The sibling of a short subtree is a real node. */
  lemma {:induction false} SiblingExists(c: Ctx, t: Shape, h: int)
    requires Short(c, t, h) && c.Step? && !IsRed(t)
    ensures c.sib.Tree? && (IsRed(c.sib) ==> !c.red)
  {
    RbHeight(t, h);
  }

  // ----- the four cases, on shapes -----

  lemma {:induction false} Case1Keeps(up: Ctx, d: Dir, p: Node, t: Shape, wn: Shape, w: Node, wf: Shape, h: int)
    requires Short(Step(up, d, false, p, Mk(d, true, wn, w, wf)), t, h) && !IsRed(t)
    ensures Short(Step(Step(up, d, false, w, wf), d, true, p, wn), t, h) && !IsRed(wn)
  {
    assert CRb(Step(up, d, false, w, wf), h + 1);
  }

  lemma {:induction false} Case2Keeps(
    up: Ctx, d: Dir, pr: bool, p: Node, t: Shape, wn: Shape, w: Node, wf: Shape, h: int)
    requires Short(Step(up, d, pr, p, Mk(d, false, wn, w, wf)), t, h) && !IsRed(t) && !IsRed(wn) && !IsRed(wf)
    ensures Short(up, Mk(d, pr, t, p, Mk(d, true, wn, w, wf)), if pr then h else h + 1)
  {
    assert Rb(Mk(d, true, wn, w, wf), h);
  }

  lemma {:induction false} Case3Keeps(
    up: Ctx, d: Dir, pr: bool, p: Node, t: Shape, a: Shape, q: Node, b: Shape, w: Node, wf: Shape, h: int)
    requires Short(Step(up, d, pr, p, Mk(d, false, Mk(d, true, a, q, b), w, wf)), t, h) && !IsRed(wf)
    ensures Short(Step(up, d, pr, p, Mk(d, false, a, q, Mk(d, true, b, w, wf))), t, h)
  {
    assert Rb(Mk(d, true, a, q, b), h);
    assert Rb(Mk(d, true, b, w, wf), h);
  }

  lemma {:induction false} Case4Keeps(
    up: Ctx, d: Dir, pr: bool, p: Node, t: Shape, wn: Shape, w: Node, wf: Shape, h: int)
    requires Short(Step(up, d, pr, p, Mk(d, false, wn, w, wf)), t, h) && !IsRed(t) && IsRed(wf)
    ensures RbTop(Plug(up, Mk(d, pr, Mk(d, false, t, p, wn), w, Blacken(wf))))
  {
    assert Rb(Mk(d, false, t, p, wn), h + 1);
    assert Rb(wf, h);
    assert Rb(Blacken(wf), h + 1);
    var t' := Mk(d, pr, Mk(d, false, t, p, wn), w, Blacken(wf));
    assert Rb(t', if pr then h + 1 else h + 2);
    PlugRb(up, t', if pr then h + 1 else h + 2);
  }

  // ----- the four cases, on the heap -----

  /** The heap around the parent p of x, and its other child w. */
  lemma {:induction false} Sibling(m: Mem, nil: Node, root: Node, c: Ctx, t: Shape)
    requires Good(m, nil, root, c, t) && c.Step? && c.sib.Tree?
    ensures c.n in m && m[c.n] == MkCell(c.d, c.red, CNode(c.up, root), RootOf(t, nil), c.sib.n) && c.n != nil &&
      c.n != root
    ensures c.sib.n in m && m[c.sib.n] == Cell(c.sib.red, c.n, RootOf(c.sib.l, nil), RootOf(c.sib.r, nil)) &&
      c.sib.n != nil && c.sib.n != root
    ensures RootOf(t, nil) != c.sib.n && nil in m && !m[nil].red
    ensures c.sib.l.Tree? ==> c.sib.l.n in m && m[c.sib.l.n].red == c.sib.l.red && c.sib.l.n != nil && c.sib.l.n != root
    ensures c.sib.r.Tree? ==> c.sib.r.n in m && m[c.sib.r.n].red == c.sib.r.red && c.sib.r.n != nil && c.sib.r.n != root
  {
    assert c.sib.n in Nodes(c.sib);
    assert Linked(m, c.sib, c.n, nil);
    assert Linked(m, c.sib.l, c.sib.n, nil) && Linked(m, c.sib.r, c.sib.n, nil);
    assert t.Tree? ==> t.n in Nodes(t);
    assert c.sib.l.Tree? ==> c.sib.l.n in Nodes(c.sib.l);
    assert c.sib.r.Tree? ==> c.sib.r.n in Nodes(c.sib.r);
  }

  /** The sibling's colour changes. */
  method PaintSibling(tree: RbTree, w: Node, red: bool, ghost c: Ctx, ghost t: Shape)
    requires tree.View(c, t) && c.Step? && c.sib.Tree? && w == c.sib.n
    modifies w`red
    ensures tree.View(c.(sib := c.sib.(red := red)), t)
    ensures Inorder(Plug(c.(sib := c.sib.(red := red)), t)) == Inorder(Plug(c, t))
  {
    hide Good, Inorder, Plug;
    ghost var cw, m0 := Step(c.up, Opp(c.d), c.red, c.n, t), tree.Snap();
    SwitchSides(m0, tree.nil, tree.root, c, t);
    tree.Paint(w, red, cw, c.sib);
    PaintInorder(cw, c.sib, red);
    SwitchSides(tree.Snap(), tree.nil, tree.root, c.(sib := c.sib.(red := red)), t);
  }

  /** Looking at the hole or at the sibling is looking at the same tree. */
  lemma {:induction false} SwitchSides(m: Mem, nil: Node, root: Node, c: Ctx, t: Shape)
    requires c.Step?
    ensures var cw := Step(c.up, Opp(c.d), c.red, c.n, t);
            (Good(m, nil, root, c, t) <==> Good(m, nil, root, cw, c.sib)) && Plug(c, t) == Plug(cw, c.sib)
  {
    hide Good;
    var cw := Step(c.up, Opp(c.d), c.red, c.n, t);
    MkFlip(c.d, c.red, t, c.n, c.sib);
    GoodUp(m, nil, root, c, t);
    GoodUp(m, nil, root, cw, c.sib);
  }

  /** The parent's colour changes. */
  method PaintParent(tree: RbTree, p: Node, red: bool, ghost c: Ctx, ghost t: Shape)
    requires tree.View(c, t) && c.Step? && p == c.n
    modifies p`red
    ensures tree.View(c.(red := red), t)
    ensures Inorder(Plug(c.(red := red), t)) == Inorder(Plug(c, t))
  {
    hide Good, Inorder;
    ghost var tp := Mk(c.d, c.red, t, c.n, c.sib);
    GoodUp(tree.Snap(), tree.nil, tree.root, c, t);
    tree.Paint(p, red, c.up, tp);
    PaintInorder(c.up, tp, red);
    GoodUp(tree.Snap(), tree.nil, tree.root, c.(red := red), t);
  }

  /** w red: w and p swap colours and p is rotated towards x, whose new sibling is black. */
  method Case1(
    tree: RbTree, d: Dir, x: Node, w: Node, ghost c: Ctx, ghost t: Shape, ghost h: int)
    returns (ghost c': Ctx)
    requires tree.View(c, t) && c.Step? && c.d == d && x == RootOf(t, tree.nil) && x.parent == c.n
    requires Short(c, t, h) && !IsRed(t) && IsRed(c.sib) && w == c.sib.n
    modifies tree.repr, tree.root
    ensures tree.View(c', t) && Short(c', t, h) && c'.Step? && c'.d == d && c'.n == c.n && c'.red && !IsRed(c'.sib)
    ensures c'.up.Step? && c'.up.up == c.up && Inorder(Plug(c', t)) == Inorder(Plug(c, t))
    ensures x.parent == c'.n
  {
    hide Good, Inorder, Plug, Short, RbTree.Snap;
    ghost var nil, root := tree.nil, tree.root;
    Sibling(tree.Snap(), nil, root, c, t);
    SiblingExists(c, t, h);
    tree.SnapAt(x);
    ghost var wn, wf := if d == Left then c.sib.l else c.sib.r, if d == Left then c.sib.r else c.sib.l;
    assert c == Step(c.up, d, false, c.n, Mk(d, true, wn, w, wf));
    PaintSibling(tree, w, false, c, t);
    ghost var c1 := Step(c.up, d, false, c.n, Mk(d, false, wn, w, wf));
    PaintParent(tree, x.parent, true, c1, t);
    ghost var c2 := Step(c.up, d, true, c.n, Mk(d, false, wn, w, wf));
    GoodUp(tree.Snap(), nil, root, c2, t);
    tree.Rotate(d, x.parent, c.up, true, t, w, false, wn, wf);
    RotateInorder(c.up, d, true, t, c.n, false, wn, w, wf);
    c' := Step(Step(c.up, d, false, w, wf), d, true, c.n, wn);
    GoodUp(tree.Snap(), nil, root, c'.up, Mk(d, true, t, c.n, wn));
    GoodUp(tree.Snap(), nil, root, c', t);
    PlugStep(c2, t); PlugStep(c', t); PlugStep(c'.up, Mk(d, true, t, c.n, wn));
    Case1Keeps(c.up, d, c.n, t, wn, w, wf, h);
    ParentOf(tree.Snap(), nil, root, c', t);
    tree.SnapAt(x);
  }

  /** w black with black children: w turns red and p is the next x. */
  method Case2(
    tree: RbTree, d: Dir, x: Node, w: Node, ghost c: Ctx, ghost t: Shape, ghost h: int)
    returns (x': Node, ghost t': Shape)
    requires tree.View(c, t) && c.Step? && c.d == d && x == RootOf(t, tree.nil) && x.parent == c.n && Short(c, t, h) &&
      !IsRed(t)
    requires c.sib.Tree? && w == c.sib.n && !c.sib.red && !IsRed(c.sib.l) && !IsRed(c.sib.r)
    modifies tree.repr
    ensures tree.View(c.up, t') && t'.Tree? && t'.red == c.red && x' == t'.n == c.n &&
      x'.parent == CNode(c.up, tree.root)
    ensures Short(c.up, t', if c.red then h else h + 1)
    ensures Inorder(Plug(c.up, t')) == Inorder(Plug(c, t))
  {
    hide Good, Inorder, Plug, Short, RbTree.Snap;
    ghost var nil, root := tree.nil, tree.root;
    Sibling(tree.Snap(), nil, root, c, t);
    tree.SnapAt(x);
    ghost var wn, wf := if d == Left then c.sib.l else c.sib.r, if d == Left then c.sib.r else c.sib.l;
    assert c == Step(c.up, d, c.red, c.n, Mk(d, false, wn, w, wf));
    PaintSibling(tree, w, true, c, t);
    ghost var c1 := Step(c.up, d, c.red, c.n, Mk(d, true, wn, w, wf));
    x', t' := x.parent, Mk(d, c.red, t, c.n, Mk(d, true, wn, w, wf));
    GoodUp(tree.Snap(), nil, root, c1, t);
    PlugStep(c1, t);
    Case2Keeps(c.up, d, c.red, c.n, t, wn, w, wf, h);
    ParentOf(tree.Snap(), nil, root, c.up, t');
    tree.SnapAt(x');
  }

  /** w black, its near child red, its far child black: w is rotated away from x. */
  method Case3(
    tree: RbTree, d: Dir, x: Node, w: Node, ghost c: Ctx, ghost t: Shape, ghost h: int)
    returns (w': Node, ghost c': Ctx)
    requires tree.View(c, t) && c.Step? && c.d == d && x == RootOf(t, tree.nil) && x.parent == c.n && Short(c, t, h) &&
      !IsRed(t)
    requires c.sib.Tree? && w == c.sib.n && !c.sib.red && IsRed(if d == Left then c.sib.l else c.sib.r) &&
      !IsRed(if d == Left then c.sib.r else c.sib.l)
    modifies tree.repr, tree.root
    ensures tree.View(c', t) && c'.Step? && c'.sib.Tree? && c' == c.(sib := c'.sib) && w' == c'.sib.n &&
      x.parent == c'.n
    ensures Short(c', t, h) && !c'.sib.red && IsRed(if d == Left then c'.sib.r else c'.sib.l)
    ensures Inorder(Plug(c', t)) == Inorder(Plug(c, t))
  {
    hide Good, Inorder, Plug, Short, RbTree.Snap;
    ghost var nil, root := tree.nil, tree.root;
    Sibling(tree.Snap(), nil, root, c, t);
    tree.SnapAt(x); tree.SnapAt(w);
    ghost var wn, wf := if d == Left then c.sib.l else c.sib.r, if d == Left then c.sib.r else c.sib.l;
    ghost var q, a, b := wn.n, if d == Left then wn.l else wn.r, if d == Left then wn.r else wn.l;
    ghost var cw := Step(c.up, Opp(d), c.red, c.n, t);
    SwitchSides(tree.Snap(), nil, root, c, t);
    ghost var cq := Step(cw, d, false, w, wf);
    assert c.sib == Mk(d, false, wn, w, wf) && wn == Mk(d, true, a, q, b);
    GoodUp(tree.Snap(), nil, root, cq, wn);
    PlugStep(cq, wn);
    tree.Paint(w.Kid(d), false, cq, wn);
    PaintInorder(cq, wn, false);
    ghost var wn' := Mk(d, false, a, q, b);
    PaintParent(tree, w, true, cq, wn');
    ghost var cq' := Step(cw, d, true, w, wf);
    GoodUp(tree.Snap(), nil, root, cq', wn');
    PlugStep(cq', wn');
    MkFlip(d, true, wn', w, wf); MkFlip(d, false, a, q, b);
    tree.Rotate(Opp(d), w, cw, true, wf, q, false, b, a);
    RotateInorder(cw, Opp(d), true, wf, w, false, b, q, a);
    ghost var wr := Mk(d, true, b, w, wf);
    MkFlip(d, true, b, w, wf); MkFlip(d, false, a, q, wr);
    c' := c.(sib := Mk(d, false, a, q, wr));
    SwitchSides(tree.Snap(), nil, root, c', t);
    Case3Keeps(c.up, d, c.red, c.n, t, a, q, b, w, wf, h);
    Sibling(tree.Snap(), nil, root, c', t);
    ParentOf(tree.Snap(), nil, root, c', t);
    tree.SnapAt(x); tree.SnapAt(x.parent);
    w' := x.parent.Kid(Opp(d));
  }

  /** w black with a red far child: one rotation of p ends the repair. */
  method Case4(
    tree: RbTree, d: Dir, x: Node, w: Node, ghost c: Ctx, ghost t: Shape, ghost h: int)
    returns (ghost t': Shape)
    requires tree.View(c, t) && c.Step? && c.d == d && x == RootOf(t, tree.nil) && x.parent == c.n && Short(c, t, h) &&
      !IsRed(t)
    requires c.sib.Tree? && w == c.sib.n && !c.sib.red && IsRed(if d == Left then c.sib.r else c.sib.l)
    modifies tree.repr, tree.root
    ensures tree.View(c.up, t') && RbTop(Plug(c.up, t')) && c.n in tree.repr && !c.n.red
    ensures Inorder(Plug(c.up, t')) == Inorder(Plug(c, t))
  {
    hide Good, Inorder, Plug, Short, RbTop, RbTree.Snap;
    ghost var nil, root, p := tree.nil, tree.root, c.n;
    Sibling(tree.Snap(), nil, root, c, t);
    tree.SnapAt(x); tree.SnapAt(w); tree.SnapAt(c.n);
    ghost var wn, wf := if d == Left then c.sib.l else c.sib.r, if d == Left then c.sib.r else c.sib.l;
    assert c == Step(c.up, d, c.red, c.n, Mk(d, false, wn, w, wf));
    PaintSibling(tree, w, x.parent.red, c, t);
    ghost var c1 := Step(c.up, d, c.red, p, Mk(d, c.red, wn, w, wf));
    PaintParent(tree, x.parent, false, c1, t);
    ghost var c2 := Step(c.up, d, false, p, Mk(d, c.red, wn, w, wf));
    SwitchSides(tree.Snap(), nil, root, c2, t);
    ghost var cf := Step(Step(c.up, Opp(d), false, p, t), Opp(d), c.red, w, wn);
    MkFlip(d, c.red, wn, w, wf);
    GoodUp(tree.Snap(), nil, root, cf, wf);
    PlugStep(cf, wf);
    tree.Paint(w.Kid(Opp(d)), false, cf, wf);
    PaintInorder(cf, wf, false);
    ghost var wf' := Blacken(wf);
    GoodUp(tree.Snap(), nil, root, cf, wf');
    PlugStep(cf, wf');
    MkFlip(d, c.red, wn, w, wf');
    ghost var c3 := Step(c.up, d, false, p, Mk(d, c.red, wn, w, wf'));
    SwitchSides(tree.Snap(), nil, root, c3, t);
    GoodUp(tree.Snap(), nil, root, c3, t);
    PlugStep(c3, t);
    tree.Rotate(d, x.parent, c.up, false, t, w, c.red, wn, wf');
    RotateInorder(c.up, d, false, t, p, c.red, wn, w, wf');
    t' := Mk(d, c.red, Mk(d, false, t, p, wn), w, wf');
    Case4Keeps(c.up, d, c.red, p, t, wn, w, wf, h);
    ghost var cp := Step(c.up, d, c.red, w, wf');
    GoodUp(tree.Snap(), nil, root, cp, Mk(d, false, t, p, wn));
    GoodParent(tree.Snap(), nil, root, cp, Mk(d, false, t, p, wn));
    tree.SnapAt(p);
  }

  lemma {:induction false} ParentOf(m: Mem, nil: Node, root: Node, c: Ctx, t: Shape)
    requires Good(m, nil, root, c, t)
    ensures t.Tree? ==> t.n in m && m[t.n].parent == CNode(c, root)
  {
  }

  /** The loop of rb_delete_fixup: x is still short (and `top`, the root noted at the start, is
      where x can stop), or the tree is repaired and x has been set to that root, which is black. */
  ghost predicate Pending(c: Ctx, t: Shape, h: int, nil: Node, x: Node, top: Node) {
    Short(c, t, h) && x == RootOf(t, nil) &&
    (c.Top? ==> x == top) && (x == top ==> c.Top? || IsRed(t)) && (c.Step? && !IsRed(t) ==> TopNode(c) == top)
  }

  lemma {:induction false} NotAbove(m: Mem, nil: Node, root: Node, c: Ctx, t: Shape)
    requires Good(m, nil, root, c, t) && c.Step?
    ensures c.n !in CNodes(c.up)
  {
  }

  lemma {:induction false} TopStaysBlack(m: Mem, nil: Node, root: Node, c: Ctx, t: Shape, h: int)
    requires Good(m, nil, root, c, t) && c.Step? && CRb(c, h)
    ensures TopNode(c) in m && !m[TopNode(c)].red && TopNode(c) != nil && TopNode(c) != root
  {
    TopNodeBlack(m, nil, root, c, RootOf(t, nil), h);
  }

  /** Where the root noted at the start is once the step is over. */
  lemma {:induction false} TopCases(m: Mem, nil: Node, root: Node, c: Ctx, c1: Ctx, t: Shape, t': Shape, h: int)
    requires c.Step? && c1.Step? && Short(c, t, h) && Short(c1, t, h) && Good(m, nil, root, c1.up, t') && c1.n == c.n
    requires c1.up == c.up || (c1.up.Step? && c1.up.up == c.up)
    requires c.n !in CNodes(c.up)
    ensures c.up.Top? ==> TopNode(c) == c.n
    ensures c.up.Step? ==> TopNode(c) == TopNode(c.up) != c.n
    ensures c.up.Step? ==> c1.up.Step? && TopNode(c1.up) == TopNode(c)
    ensures c.up.Step? ==> TopNode(c) in m && !m[TopNode(c)].red && TopNode(c) != nil && TopNode(c) != root
  {
    if c.up.Step? {
      TopStaysBlack(m, nil, root, c1.up, t', if c1.red then h + 1 else h + 2);
      TopIn(c.up);
    }
  }

  lemma {:induction false} TopIn(c: Ctx)
    requires c.Step?
    ensures TopNode(c) in CNodes(c)
  {
    if c.up.Step? {
      TopIn(c.up);
    }
  }

  /** w black: the last three cases. */
  method FixBlack(tree: RbTree, d: Dir, x: Node, w: Node, top: Node, ghost c: Ctx, ghost t: Shape, ghost h: int)
    returns (x': Node, ghost done: bool, ghost c': Ctx, ghost t': Shape, ghost h': int)
    requires tree.View(c, t) && c.Step? && c.d == d && x == RootOf(t, tree.nil) && x.parent == c.n && Short(c, t, h) &&
      !IsRed(t)
    requires c.sib.Tree? && w == c.sib.n && !c.sib.red
    modifies tree.repr, tree.root
    ensures tree.View(c', t') && c' == c.up && Inorder(Plug(c', t')) == Inorder(Plug(c, t))
    ensures done ==> x' == top && RbTop(Plug(c', t')) && c.n in tree.repr && !c.n.red
    ensures !done ==>
      t'.Tree? && t'.red == c.red && x' == t'.n == c.n && x'.parent == CNode(c', tree.root) &&
      Short(c', t', h')
  {
    hide Good, Inorder, Plug, Short, RbTop, RbTree.Snap;
    Sibling(tree.Snap(), tree.nil, tree.root, c, t);
    tree.SnapAt(w); tree.SnapAt(w.left); tree.SnapAt(w.right);
    if !w.Kid(d).red && !w.Kid(Opp(d)).red {
      x', t' := Case2(tree, d, x, w, c, t, h);
      done, c', h' := false, c.up, if c.red then h else h + 1;
    } else {
      ghost var c1 := c;
      var w' := w;
      if !w.Kid(Opp(d)).red {
        w', c1 := Case3(tree, d, x, w, c, t, h);
      }
      t' := Case4(tree, d, x, w', c1, t, h);
      x', done, c', h' := top, true, c.up, h;
    }
  }

  /** RB_DELETE_FIXUP_SUB, both mirror images. */
  method FixStep(tree: RbTree, x: Node, top: Node, ghost c: Ctx, ghost t: Shape, ghost h: int)
    returns (x': Node, ghost done: bool, ghost c': Ctx, ghost t': Shape, ghost h': int)
    requires tree.View(c, t) && Pending(c, t, h, tree.nil, x, top) && x.parent == CNode(c, tree.root) && x != top &&
      !IsRed(t)
    modifies tree.repr, tree.root
    ensures tree.View(c', t') && Inorder(Plug(c', t')) == Inorder(Plug(c, t))
    ensures done ==> x' == top && RbTop(Plug(c', t')) && top in tree.repr && !top.red
    ensures !done ==>
      Pending(c', t', h', tree.nil, x', top) && x'.parent == CNode(c', tree.root) &&
      (IsRed(t') || Depth(c') < Depth(c))
  {
    hide Good, Inorder, Plug, RbTop, RbTree.Snap;
    SiblingExists(c, t, h);
    Sibling(tree.Snap(), tree.nil, tree.root, c, t);
    tree.SnapAt(c.n); tree.SnapAt(c.sib.n);
    assert c.n !in CNodes(c.up) by { NotAbove(tree.Snap(), tree.nil, tree.root, c, t); }
    var d := if x == x.parent.left then Left else Right;
    var w := x.parent.Kid(Opp(d));
    ghost var c1 := c;
    if w.red {
      c1 := Case1(tree, d, x, w, c, t, h);
      SiblingExists(c1, t, h);
      Sibling(tree.Snap(), tree.nil, tree.root, c1, t);
      tree.SnapAt(c1.n); tree.SnapAt(c1.sib.n);
      w := x.parent.Kid(Opp(d));
    }
    x', done, c', t', h' := FixBlack(tree, d, x, w, top, c1, t, h);
    TopCases(tree.Snap(), tree.nil, tree.root, c, c1, t, t', h);
    tree.SnapAt(top);
  }

  /** Where the loop stops with x still short, blackening x ends the repair. */
  lemma {:induction false} StopShort(c: Ctx, t: Shape, h: int)
    requires Short(c, t, h) && (c.Top? || IsRed(t))
    ensures RbTop(Plug(c, Blacken(t))) && Inorder(Plug(c, Blacken(t))) == Inorder(Plug(c, t))
  {
    if IsRed(t) {
      PlugRb(c, Blacken(t), h + 1);
      PaintInorder(c, t, false);
    } else {
      assert Blacken(t) == t;
      PlugRb(c, t, h);
    }
  }

  lemma {:induction false} RootRed(m: Mem, nil: Node, root: Node, c: Ctx, t: Shape)
    requires Good(m, nil, root, c, t)
    ensures RootOf(t, nil) in m && m[RootOf(t, nil)].red == IsRed(t)
  {
  }

  lemma {:induction false} PaintAgain(m: Mem, x: Node)
    requires x in m && !m[x].red
    ensures m[x := m[x].(red := false)] == m
  {
  }

  /** x->red = 0, on a node that is red, black or nil. */
  method PaintBlack(tree: RbTree, x: Node, ghost c: Ctx, ghost t: Shape, ghost done: bool)
    requires tree.View(c, t)
    requires if done then x in tree.repr && !x.red else x == RootOf(t, tree.nil)
    modifies x`red
    ensures tree.View(c, if done then t else Blacken(t))
  {
    hide Good, RbTree.Snap;
    RootRed(tree.Snap(), tree.nil, tree.root, c, t);
    tree.SnapAt(x);
    if !done && IsRed(t) {
      GoodPaint(tree.Snap(), tree.nil, tree.root, c, t, false);
    } else {
      PaintAgain(tree.Snap(), x);
    }
    tree.SetRed(x, false);
  }

  /** rb_delete_fixup */
  method Fixup(tree: RbTree, node: Node, ghost c0: Ctx, ghost t0: Shape, ghost h0: int)
    requires tree.View(c0, t0) && Short(c0, t0, h0) && node == RootOf(t0, tree.nil) &&
      node.parent == CNode(c0, tree.root)
    modifies tree`shape, tree.repr, tree.root, tree.nil
    ensures tree.View(Top, tree.shape) && RbTop(tree.shape) && Inorder(tree.shape) == Inorder(Plug(c0, t0))
  {
    hide Good, Inorder, RbTop, Short, RbTree.Snap;
    var x, root := node, tree.root.left;
    ghost var c, t, h, done := c0, t0, h0, false;
    StartPending(tree.Snap(), tree.nil, tree.root, c, t, h);
    RootRed(tree.Snap(), tree.nil, tree.root, c, t);
    tree.SnapAt(x); tree.SnapAt(tree.root);
    while x != root && !x.red
      invariant tree.View(c, t) && Inorder(Plug(c, t)) == Inorder(Plug(c0, t0)) && tree.repr == old(tree.repr)
      invariant x in tree.repr + {tree.nil, tree.root}
      invariant done ==> x == root && RbTop(Plug(c, t)) && root in tree.repr && !root.red
      invariant !done ==> Pending(c, t, h, tree.nil, x, root) && x.parent == CNode(c, tree.root) && x.red == IsRed(t)
      decreases if done || IsRed(t) then 0 else 1 + Depth(c)
    {
      x, done, c, t, h := FixStep(tree, x, root, c, t, h);
      RootRed(tree.Snap(), tree.nil, tree.root, c, t);
      tree.SnapAt(x);
    }
    if !done {
      StopShort(c, t, h);
    }
    PaintBlack(tree, x, c, t, done);
    ghost var s := if done then t else Blacken(t);
    Refocus(tree.Snap(), tree.nil, tree.root, c, s);
    tree.shape := Plug(c, s);
  }

  lemma {:induction false} StartPending(m: Mem, nil: Node, root: Node, c: Ctx, t: Shape, h: int)
    requires Good(m, nil, root, c, t) && Short(c, t, h)
    ensures root in m && Pending(c, t, h, nil, RootOf(t, nil), m[root].left)
  {
    Refocus(m, nil, root, c, t);
    if c.Step? {
      TopNodeIs(c, t);
      TopIn(c);
      assert t.Tree? ==> t.n in Nodes(t);
    }
  }
}
