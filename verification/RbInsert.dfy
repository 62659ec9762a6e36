/** rb_insert_binary and rb_insert. */
module RbInsert {
  import opened RbShape
  import opened RbHeap

  /** Where an insertion puts its node: right after everything that compares less or equal. */
  function Placed(cmp: (int, int) -> int, s: seq<Node>, x: Node): seq<Node> {
    if s == [] || cmp(s[0].data, x.data) > 0 then [x] + s else [s[0]] + Placed(cmp, s[1..], x)
  }

  lemma {:induction false} PlacedBetween(cmp: (int, int) -> int, a: seq<Node>, b: seq<Node>, x: Node)
    requires forall n :: n in a ==> cmp(n.data, x.data) <= 0
    requires forall n :: n in b ==> cmp(n.data, x.data) > 0
    ensures Placed(cmp, a + b, x) == a + [x] + b
  {
    if a == [] {
      assert a + b == b;
      assert [x] + b == a + [x] + b;
    } else {
      assert a[0] in a;
      assert (a + b)[1..] == a[1..] + b;
      PlacedBetween(cmp, a[1..], b, x);
      assert [a[0]] + (a[1..] + [x] + b) == a + [x] + b;
    }
  }

  lemma {:induction false} SortedBetween(cmp: (int, int) -> int, a: seq<Node>, b: seq<Node>, x: Node)
    requires TotalPreorder(cmp) && Sorted(cmp, a + b)
    requires forall n :: n in a ==> cmp(n.data, x.data) <= 0
    requires forall n :: n in b ==> cmp(n.data, x.data) > 0
    ensures Sorted(cmp, a + [x] + b)
  {
    var s, s' := a + b, a + [x] + b;
    forall i, j | 0 <= i < j < |s'| ensures cmp(s'[i].data, s'[j].data) <= 0 {
      var i0, j0 := if i > |a| then i - 1 else i, if j > |a| then j - 1 else j;
      assert i != |a| ==> s'[i] == s[i0];
      assert j != |a| ==> s'[j] == s[j0];
      if j == |a| {
        assert s'[i] == a[i];
      } else if i == |a| {
        assert s'[j] == b[j - |a| - 1];
      }
    }
  }

  /** One turn left or right of the descent keeps the inserted key between the two sides. */
  lemma {:induction false} DescendSides(cmp: (int, int) -> int, c: Ctx, t: Shape, key: int)
    requires TotalPreorder(cmp) && t.Tree?
    requires Sorted(cmp, Before(c) + Inorder(t) + After(c))
    requires forall n :: n in Before(c) ==> cmp(n.data, key) <= 0
    requires forall n :: n in After(c) ==> cmp(n.data, key) > 0
    ensures cmp(t.n.data, key) > 0 ==> forall n :: n in After(Step(c, Left, t.red, t.n, t.r)) ==> cmp(n.data, key) > 0
    ensures cmp(t.n.data, key) <= 0 ==>
      forall n :: n in Before(Step(c, Right, t.red, t.n, t.l)) ==> cmp(n.data, key) <= 0
  {
    SubtreeSides(cmp, Before(c), Inorder(t.l), t.n, Inorder(t.r), After(c));
    hide Sorted;
    if cmp(t.n.data, key) > 0 {
      forall n | n in [t.n] + Inorder(t.r) + After(c) ensures cmp(n.data, key) > 0 {
        assert n == t.n || n in Inorder(t.r) || n in After(c);
      }
    } else {
      forall n | n in Before(c) + Inorder(t.l) + [t.n] ensures cmp(n.data, key) <= 0 {
        assert n == t.n || n in Inorder(t.l) || n in Before(c);
      }
    }
  }

  lemma {:induction false} SubtreeSides(
    cmp: (int, int) -> int, b: seq<Node>, l: seq<Node>, x: Node, r: seq<Node>, a: seq<Node>)
    requires Sorted(cmp, b + (l + [x] + r) + a)
    ensures forall n :: n in r ==> cmp(x.data, n.data) <= 0
    ensures forall n :: n in l ==> cmp(n.data, x.data) <= 0
  {
    var s, k := b + (l + [x] + r) + a, |b| + |l|;
    assert s[k] == x;
    forall n | n in r ensures cmp(x.data, n.data) <= 0 {
      var i :| 0 <= i < |r| && r[i] == n;
      assert s[k + 1 + i] == n;
    }
    forall n | n in l ensures cmp(n.data, x.data) <= 0 {
      var i :| 0 <= i < |l| && l[i] == n;
      assert s[|b| + i] == n;
    }
  }

  function HoleDir(c: Ctx): Dir {
    if c.Top? then Left else c.d
  }

  lemma {:induction false} GoodAttach(m: Mem, m': Mem, nil: Node, root: Node, c: Ctx, z: Node, red: bool)
    requires Good(m, nil, root, c, Nil) && z !in m
    requires CNode(c, root) in m
    requires m' ==
      m[z := Cell(red, CNode(c, root), nil, nil)][CNode(c, root) := m[CNode(c, root)].SetKid(HoleDir(c), z)]
    ensures Good(m', nil, root, c, Tree(red, Nil, z, Nil))
  {
    assert CNodes(c) + Nodes(Nil) == CNodes(c);
    CLinkedFill(m, m', c, nil, z, root, nil);
    assert m'.Keys == m.Keys + {z};
  }

  lemma {:induction false} GoodParent(m: Mem, nil: Node, root: Node, c: Ctx, t: Shape)
    requires Good(m, nil, root, c, t)
    ensures CNode(c, root) in m && m[CNode(c, root)].Kid(HoleDir(c)) == RootOf(t, nil)
    ensures c.Step? ==> CNode(c, root) != nil && CNode(c, root) != root
    ensures t.Tree? ==>
      t.n in m && m[t.n] == Cell(t.red, CNode(c, root), RootOf(t.l, nil), RootOf(t.r, nil)) &&
      t.n != nil && t.n != root
    ensures t.Tree? && t.l.Tree? ==> t.l.n != nil
    ensures t.Tree? && t.r.Tree? ==> t.r.n != nil
  {
  }

  /** The state of the descent: at the hole of c, with the key between its two sides. */
  ghost predicate Descent(
    m: Mem, nil: Node, root: Node, cmp: (int, int) -> int, key: int, shape: Shape, c: Ctx, t: Shape)
  {
    Good(m, nil, root, c, t) && Plug(c, t) == shape &&
    (c.Step? ==> (cmp(c.n.data, key) > 0 <==> c.d == Left)) &&
    (forall n :: n in Before(c) ==> cmp(n.data, key) <= 0) &&
    (forall n :: n in After(c) ==> cmp(n.data, key) > 0)
  }

  lemma {:induction false} DescentStep(
    m: Mem, nil: Node, root: Node, cmp: (int, int) -> int, key: int, shape: Shape, c: Ctx, t: Shape)
    requires TotalPreorder(cmp) && Sorted(cmp, Inorder(shape)) && t.Tree?
    requires Descent(m, nil, root, cmp, key, shape, c, t)
    ensures var left := cmp(t.n.data, key) > 0;
            if left then Descent(m, nil, root, cmp, key, shape, Step(c, Left, t.red, t.n, t.r), t.l)
            else Descent(m, nil, root, cmp, key, shape, Step(c, Right, t.red, t.n, t.l), t.r)
  {
    PlugInorder(c, t);
    DescendSides(cmp, c, t, key);
    if cmp(t.n.data, key) > 0 {
      GoodUp(m, nil, root, Step(c, Left, t.red, t.n, t.r), t.l);
    } else {
      GoodUp(m, nil, root, Step(c, Right, t.red, t.n, t.l), t.r);
    }
  }

  /** The hole is filled with the new leaf z, whose fields are already set. */
  method Attach(tree: RbTree, z: Node, y: Node, left: bool, ghost c: Ctx)
    requires tree.View(c, Nil) && z !in tree.repr && z != tree.nil && z != tree.root
    requires z.left == tree.nil && z.right == tree.nil && z.parent == y
    requires y == CNode(c, tree.root) && left == (HoleDir(c) == Left)
    modifies tree`repr, tree.repr, tree.root
    ensures tree.repr == old(tree.repr) + {z} && z.red == old(z.red)
    ensures tree.View(c, Tree(z.red, Nil, z, Nil))
  {
    hide Good, RbTree.Snap;
    ghost var m := tree.Snap();
    GoodParent(m, tree.nil, tree.root, c, Nil);
    tree.SnapAt(y);
    tree.SetKid(y, if left then Left else Right, z);
    tree.Admit(z);
    GoodAttach(m, tree.Snap(), tree.nil, tree.root, c, z, z.red);
  }

  /** The descent of rb_insert_binary: the node under which the key belongs. */
  method FindHole(tree: RbTree, key: int) returns (y: Node, ghost c: Ctx)
    requires tree.Valid()
    ensures Descent(tree.Snap(), tree.nil, tree.root, tree.compare, key, tree.shape, c, Nil)
    ensures y == CNode(c, tree.root)
  {
    hide Good;
    var nil, root := tree.nil, tree.root;
    ghost var m, t := tree.Snap(), tree.shape;
    c := Top;
    GoodParent(m, nil, root, c, t);
    var x;
    y, x := root, root.left;
    while x != nil
      invariant x == RootOf(t, nil) && y == CNode(c, root)
      invariant Descent(m, nil, root, tree.compare, key, tree.shape, c, t)
      decreases t
    {
      GoodParent(m, nil, root, c, t);
      DescentStep(m, nil, root, tree.compare, key, tree.shape, c, t);
      y := x;
      if tree.compare(x.data, key) > 0 {
        x, c, t := x.left, Step(c, Left, t.red, t.n, t.r), t.l;
      } else {
        x, c, t := x.right, Step(c, Right, t.red, t.n, t.l), t.r;
      }
    }
    GoodParent(m, nil, root, c, t);
  }

  /** rb_insert_binary: the node becomes a leaf, at its place in the order. */
  method InsertBinary(tree: RbTree, node: Node) returns (ghost c: Ctx)
    requires tree.Valid() && node !in tree.repr && node != tree.nil && node != tree.root
    modifies tree`repr, tree.repr, tree.root, node
    ensures tree.repr == old(tree.repr) + {node} && tree.shape == old(tree.shape)
    ensures tree.View(c, Tree(old(node.red), Nil, node, Nil)) && Plug(c, Nil) == tree.shape
    ensures forall n :: n in Before(c) ==> tree.compare(n.data, node.data) <= 0
    ensures forall n :: n in After(c) ==> tree.compare(n.data, node.data) > 0
  {
    hide Good, RbTree.Snap, RbTop, Sorted, TotalPreorder, Inorder;
    var z, nil, root := node, tree.nil, tree.root;
    ghost var m := tree.Snap();
    z.left, z.right := nil, nil;
    assert tree.Snap() == m;
    var y;
    y, c := FindHole(tree, node.data);
    z.parent := y;
    assert tree.Snap() == m;
    GoodParent(m, nil, root, c, Nil);
    Attach(tree, z, y, y == root || tree.compare(y.data, z.data) > 0, c);
  }

  // ----- restoring the colours -----

  /** Everything is in order except that the red x = t.n may sit below a red parent, or on top. */
  ghost predicate RedRed(c: Ctx, t: Shape, h: int) {
    IsRed(t) && Rb(t, h) && CRb(c, h)
  }

  /** Red uncle: the grandparent turns red and is the next x. */
  lemma {:induction false} RecolourKeeps(c: Ctx, t: Shape, h: int)
    requires RedRed(c, t, h) && CRed(c) && IsRed(c.up.sib)
    ensures RedRed(c.up.up, Mk(c.up.d, true, Mk(c.d, false, t, c.n, c.sib), c.up.n, Blacken(c.up.sib)), h + 1)
  {
    assert CRb(c.up, h) && CRb(c.up.up, h + 1);
    assert Rb(Mk(c.d, false, t, c.n, c.sib), h + 1);
  }

  /** Black uncle, x on the outside: p takes g's place and g goes down, red. */
  lemma {:induction false} OuterKeeps(up: Ctx, e: Dir, t: Shape, p: Node, s: Shape, g: Node, u: Shape, h: int)
    requires RedRed(Step(Step(up, e, false, g, u), e, true, p, s), t, h) && !IsRed(u)
    ensures RedRed(Step(up, e, false, p, Mk(e, true, s, g, u)), t, h)
  {
    assert CRb(Step(up, e, false, g, u), h);
    assert Rb(Mk(e, true, s, g, u), h);
  }

  /** Black uncle, x on the inside: x and p change places and x is on the outside. */
  lemma {:induction false} InnerKeeps(
    up: Ctx, e: Dir, a: Shape, p: Node, b: Shape, x: Node, f: Shape, g: Node, u: Shape, h: int)
    requires RedRed(Step(Step(up, e, false, g, u), Opp(e), true, p, a), Mk(e, true, b, x, f), h) && !IsRed(u)
    ensures RedRed(Step(Step(up, e, false, g, u), e, true, x, f), Mk(e, true, a, p, b), h)
  {
  }

  lemma {:induction false} MkFlip(d: Dir, red: bool, a: Shape, n: Node, b: Shape)
    ensures Mk(d, red, a, n, b) == Mk(Opp(d), red, b, n, a)
  {
  }

  lemma {:induction false} SameInorder(c: Ctx, t: Shape, c': Ctx, t': Shape)
    requires Before(c) + Inorder(t) + After(c) == Before(c') + Inorder(t') + After(c')
    ensures Inorder(Plug(c, t)) == Inorder(Plug(c', t'))
  {
    PlugInorder(c, t);
    PlugInorder(c', t');
  }

  lemma {:induction false} PaintInorder(c: Ctx, t: Shape, red: bool)
    requires t.Tree?
    ensures Inorder(Plug(c, t.(red := red))) == Inorder(Plug(c, t))
  {
    SameInorder(c, t, c, t.(red := red));
  }

  lemma {:induction false} RotateInorder(
    c: Ctx, d: Dir, rx: bool, a: Shape, x: Node, ry: bool, b: Shape, y: Node, g: Shape)
    ensures Inorder(Plug(c, Mk(d, ry, Mk(d, rx, a, x, b), y, g))) ==
      Inorder(Plug(c, Mk(d, rx, a, x, Mk(d, ry, b, y, g))))
  {
    var A, B, G := Inorder(a), Inorder(b), Inorder(g);
    assert (A + [x] + B) + [y] + G == A + [x] + (B + [y] + G);
    assert G + [y] + (B + [x] + A) == (G + [y] + B) + [x] + A;
    SameInorder(c, Mk(d, ry, Mk(d, rx, a, x, b), y, g), c, Mk(d, rx, a, x, Mk(d, ry, b, y, g)));
  }

  /** What the heap says about x, its parent p and its grandparent g. */
  lemma {:induction false} Family(m: Mem, nil: Node, root: Node, c: Ctx, t: Shape)
    requires Good(m, nil, root, c, t) && t.Tree? && c.Step? && c.up.Step?
    ensures t.n in m && c.n in m && c.up.n in m && m[t.n].parent == c.n && m[c.n].parent == c.up.n
    ensures m[c.n].red == c.red && m[c.n].Kid(c.d) == t.n && m[c.n].Kid(Opp(c.d)) != t.n
    ensures m[c.up.n].Kid(c.up.d) == c.n && m[c.up.n].Kid(Opp(c.up.d)) == RootOf(c.up.sib, nil) &&
      RootOf(c.up.sib, nil) != c.n
    ensures RootOf(c.up.sib, nil) in m && m[RootOf(c.up.sib, nil)].red == IsRed(c.up.sib)
    ensures nil !in {t.n, c.n, c.up.n} && root !in {t.n, c.n, c.up.n, RootOf(c.up.sib, nil)}
    ensures c.up.sib.Tree? ==> c.up.sib.n != nil
  {
    assert CLinked(m, c.up, c.n, root, nil) && Linked(m, c.up.sib, c.up.n, nil);
    assert c.sib.Tree? ==> c.sib.n in CNodes(c);
    assert c.up.sib.Tree? ==> c.up.sib.n in CNodes(c.up);
  }

  /** Red uncle. */
  method Recolour(
    tree: RbTree, e: Dir, x: Node, ghost c: Ctx, ghost t: Shape, ghost h: int)
    returns (x': Node, ghost t': Shape)
    requires tree.View(c, t) && t.Tree? && x == t.n && RedRed(c, t, h) && CRed(c) && IsRed(c.up.sib) && c.up.d == e
    modifies tree.repr`red
    ensures tree.View(c.up.up, t') && t'.Tree? && x' == t'.n && RedRed(c.up.up, t', h + 1)
    ensures Inorder(Plug(c.up.up, t')) == Inorder(Plug(c, t))
  {
    hide Good;
    Family(tree.Snap(), tree.nil, tree.root, c, t);
    var y := x.parent.parent.Kid(Opp(e));
    ghost var g, u, up := c.up.n, c.up.sib, c.up.up;
    ghost var tp := Mk(c.d, true, t, c.n, c.sib);
    GoodUp(tree.Snap(), tree.nil, tree.root, c, t);
    tree.Paint(x.parent, false, c.up, tp);
    PaintInorder(c.up, tp, false);
    ghost var tp' := Mk(c.d, false, t, c.n, c.sib);
    ghost var cu := Step(up, Opp(e), false, g, tp');
    MkFlip(e, false, tp', g, u);
    GoodUp(tree.Snap(), tree.nil, tree.root, c.up, tp');
    GoodUp(tree.Snap(), tree.nil, tree.root, cu, u);
    tree.Paint(y, false, cu, u);
    PaintInorder(cu, u, false);
    GoodUp(tree.Snap(), tree.nil, tree.root, cu, Blacken(u));
    ghost var tg := Mk(Opp(e), false, Blacken(u), g, tp');
    GoodParent(tree.Snap(), tree.nil, tree.root, up, tg);
    tree.Paint(x.parent.parent, true, up, tg);
    PaintInorder(up, tg, true);
    x' := x.parent.parent;
    t' := tg.(red := true);
    RecolourKeeps(c, t, h);
  }

  /** Black uncle, x on the outside. */
  method TurnOuter(tree: RbTree, e: Dir, x: Node, ghost c: Ctx, ghost t: Shape, ghost h: int) returns (ghost c': Ctx)
    requires tree.View(c, t) && t.Tree? && x == t.n && RedRed(c, t, h) && CRed(c) && !IsRed(c.up.sib) && c.up.d == e &&
      c.d == e
    modifies tree.repr, tree.root
    ensures tree.View(c', t) && RedRed(c', t, h) && !CRed(c') && Depth(c') < Depth(c)
    ensures Inorder(Plug(c', t)) == Inorder(Plug(c, t))
  {
    hide Good;
    ghost var nil, root := tree.nil, tree.root;
    Family(tree.Snap(), nil, root, c, t);
    ghost var p, s, g, u, up := c.n, c.sib, c.up.n, c.up.sib, c.up.up;
    ghost var tp := Mk(e, true, t, p, s);
    GoodUp(tree.Snap(), nil, root, c, t);
    tree.Paint(x.parent, false, c.up, tp);
    PaintInorder(c.up, tp, false);
    ghost var tp' := Mk(e, false, t, p, s);
    GoodUp(tree.Snap(), nil, root, c.up, tp');
    ghost var tg := Mk(e, false, tp', g, u);
    tree.Paint(x.parent.parent, true, up, tg);
    PaintInorder(up, tg, true);
    MkFlip(e, true, tp', g, u); MkFlip(e, false, t, p, s);
    tree.Rotate(Opp(e), x.parent.parent, up, true, u, p, false, s, t);
    RotateInorder(up, Opp(e), true, u, g, false, s, p, t);
    ghost var tg' := Mk(e, true, s, g, u);
    MkFlip(e, true, s, g, u); MkFlip(e, false, t, p, tg');
    c' := Step(up, e, false, p, tg');
    GoodUp(tree.Snap(), nil, root, c', t);
    OuterKeeps(up, e, t, p, s, g, u, h);
  }

  /** Black uncle, x on the inside: one rotation makes it the outside case. */
  method TurnInner(tree: RbTree, e: Dir, x: Node, ghost c: Ctx, ghost t: Shape, ghost h: int)
    returns (x': Node, ghost c': Ctx, ghost t': Shape)
    requires tree.View(c, t) && t.Tree? && x == t.n && RedRed(c, t, h) && CRed(c) && !IsRed(c.up.sib) && c.up.d == e &&
      c.d == Opp(e)
    modifies tree.repr, tree.root
    ensures tree.View(c', t') && t'.Tree? && x' == t'.n && RedRed(c', t', h) && CRed(c') && c'.up == c.up && c'.d == e
    ensures Inorder(Plug(c', t')) == Inorder(Plug(c, t))
  {
    hide Good;
    ghost var nil, root := tree.nil, tree.root;
    Family(tree.Snap(), nil, root, c, t);
    ghost var p, a, b, f := c.n, c.sib, if e == Left then t.l else t.r, if e == Left then t.r else t.l;
    assert t == Mk(e, true, b, x, f);
    MkFlip(Opp(e), true, t, p, a);
    GoodUp(tree.Snap(), nil, root, c, t);
    x' := x.parent;
    tree.Rotate(e, x', c.up, true, a, x, true, b, f);
    RotateInorder(c.up, e, true, a, p, true, b, x, f);
    c', t' := Step(c.up, e, true, x, f), Mk(e, true, a, p, b);
    GoodUp(tree.Snap(), nil, root, c', t');
    InnerKeeps(c.up.up, e, a, p, b, x, f, c.up.n, c.up.sib, h);
  }

  /** RB_INSERT_SUB, both mirror images. */
  method FixStep(tree: RbTree, x: Node, ghost c: Ctx, ghost t: Shape, ghost h: int)
    returns (x': Node, ghost c': Ctx, ghost t': Shape, ghost h': int)
    requires tree.View(c, t) && t.Tree? && x == t.n && RedRed(c, t, h) && CRed(c)
    modifies tree.repr, tree.root
    ensures tree.View(c', t') && t'.Tree? && x' == t'.n && RedRed(c', t', h') && Depth(c') < Depth(c)
    ensures Inorder(Plug(c', t')) == Inorder(Plug(c, t))
  {
    hide Good;
    Family(tree.Snap(), tree.nil, tree.root, c, t);
    var e := if x.parent == x.parent.parent.left then Left else Right;
    var y := x.parent.parent.Kid(Opp(e));
    if y.red {
      x', t' := Recolour(tree, e, x, c, t, h);
      c', h' := c.up.up, h + 1;
    } else {
      x', c', t', h' := x, c, t, h;
      if x == x.parent.Kid(Opp(e)) {
        x', c', t' := TurnInner(tree, e, x, c, t, h);
      }
      c' := TurnOuter(tree, e, x', c', t', h);
    }
  }

  /** The colour above x, read off the heap; the fake root counts as black. */
  lemma {:induction false} ParentRed(m: Mem, nil: Node, root: Node, c: Ctx, t: Shape)
    requires Good(m, nil, root, c, t) && t.Tree?
    ensures t.n in m && m[t.n].parent in m && m[m[t.n].parent].red == CRed(c)
  {
  }

  /** Blackening the topmost node ends the repair. */
  lemma {:induction false} BlackenTop(c: Ctx, t: Shape, h: int)
    requires RedRed(c, t, h) && !CRed(c)
    ensures Plug(c, t).Tree? && RbTop(Blacken(Plug(c, t))) && Inorder(Blacken(Plug(c, t))) == Inorder(Plug(c, t))
  {
    if c.Top? {
      RbHeight(Blacken(t), h + 1);
    } else {
      PlugRb(c, t, h);
      PlugNodes(c, t);
      assert c.n in CNodes(c);
    }
  }

  /** The loop of rb_insert and its last line: from a red x anywhere to a red-black tree. */
  method Repair(tree: RbTree, node: Node, ghost c0: Ctx, ghost t0: Shape, ghost h0: int)
    requires tree.View(c0, t0) && t0.Tree? && node == t0.n && RedRed(c0, t0, h0)
    modifies tree`shape, tree.repr, tree.root
    ensures tree.View(Top, tree.shape) && RbTop(tree.shape)
    ensures Inorder(tree.shape) == Inorder(Plug(c0, t0))
  {
    hide Good, Rb, CRb, Inorder, Plug;
    var x := node;
    ghost var c, t, h := c0, t0, h0;
    ParentRed(tree.Snap(), tree.nil, tree.root, c, t);
    while x.parent.red
      invariant tree.View(c, t) && t.Tree? && x == t.n && RedRed(c, t, h)
      invariant x.parent in tree.repr + {tree.nil, tree.root} && x.parent.red == CRed(c)
      invariant Inorder(Plug(c, t)) == Inorder(Plug(c0, t0)) && tree.repr == old(tree.repr)
      decreases Depth(c)
    {
      x, c, t, h := FixStep(tree, x, c, t, h);
      ParentRed(tree.Snap(), tree.nil, tree.root, c, t);
    }
    ghost var s := Plug(c, t);
    Refocus(tree.Snap(), tree.nil, tree.root, c, t);
    BlackenTop(c, t, h);
    GoodParent(tree.Snap(), tree.nil, tree.root, Top, s);
    tree.Paint(tree.root.left, false, Top, s);
    tree.shape := Blacken(s);
  }

  /** A new red leaf disturbs nothing but the colour rule above it. */
  lemma {:induction false} LeafRedRed(c: Ctx, node: Node) returns (h: int)
    requires RbTop(Plug(c, Nil))
    ensures RedRed(c, Tree(true, Nil, node, Nil), h)
  {
    h := UnplugRb(c, Nil);
  }

  lemma {:induction false} LeafPlaced(cmp: (int, int) -> int, c: Ctx, node: Node, red: bool)
    requires TotalPreorder(cmp) && Sorted(cmp, Inorder(Plug(c, Nil)))
    requires forall n :: n in Before(c) ==> cmp(n.data, node.data) <= 0
    requires forall n :: n in After(c) ==> cmp(n.data, node.data) > 0
    ensures Inorder(Plug(c, Tree(red, Nil, node, Nil))) == Placed(cmp, Inorder(Plug(c, Nil)), node)
    ensures Sorted(cmp, Inorder(Plug(c, Tree(red, Nil, node, Nil))))
  {
    hide Placed, Sorted, TotalPreorder, Plug, Before, After;
    PlugInorder(c, Nil);
    PlugInorder(c, Tree(red, Nil, node, Nil));
    assert Before(c) + [] + After(c) == Before(c) + After(c);
    assert [] + [node] + [] == [node];
    PlacedBetween(cmp, Before(c), After(c), node);
    SortedBetween(cmp, Before(c), After(c), node);
  }

  /** rb_insert */
  method Insert(tree: RbTree, node: Node)
    requires tree.Valid() && node !in tree.repr && node != tree.nil && node != tree.root
    modifies tree, tree.repr, tree.root, node
    ensures tree.Valid() && tree.repr == old(tree.repr) + {node}
    ensures Inorder(tree.shape) == Placed(tree.compare, old(Inorder(tree.shape)), node)
  {
    hide Good, RedRed, Inorder, Plug, Placed, Sorted, TotalPreorder, RbTop;
    ghost var c := InsertBinary(tree, node);
    ghost var t := Tree(old(node.red), Nil, node, Nil);
    tree.Paint(node, true, c, t);
    ghost var h := LeafRedRed(c, node);
    LeafPlaced(tree.compare, c, node, true);
    Repair(tree, node, c, t.(red := true), h);
  }
}
