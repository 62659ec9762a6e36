/** rb_delete and rb_delete_fixup. */
module RbDelete {
  import opened RbShape
  import opened RbHeap
  import opened RbInsert
  import RbFixup

  // ----- taking a node with at most one child out -----

  function OnlyChild(t: Shape): Shape
    requires t.Tree?
  {
    if t.l.Tree? then t.l else t.r
  }

  /** The writes of rb_delete that splice y out: its child x goes below its parent p. */
  function Unlinked(m: Mem, p: Node, y: Node, x: Node): Mem
    requires p in m && x in m
  {
    Reattached(m[x := m[x].(parent := p)], p, Left, y, x) - {y}
  }

  lemma {:induction false} UnlinkKeeps(m: Mem, nil: Node, root: Node, c: Ctx, s: Shape, y: Node)
    requires Separate(m.Keys, nil, root, c, Nil, y, s) && !m[nil].red && !m[root].red && m[root].right == nil
    requires Linked(m, s, y, nil) && CLinked(m, c, y, root, nil)
    ensures CNode(c, root) in m && RootOf(s, nil) in m
    ensures var m' := Unlinked(m, CNode(c, root), y, RootOf(s, nil));
            Good(m', nil, root, c, s) && m'[RootOf(s, nil)].parent == CNode(c, root)
  {
    hide Linked, CLinked, Apart, CApart, Nodes, CNodes, Reattached;
    var p, x := CNode(c, root), RootOf(s, nil);
    RootIn(s); CNodeIn(c, root);
    var m1 := m[x := m[x].(parent := p)];
    LinkedAdopt(m, m1, s, y, p, nil);
    CLinkedFrame(m, m1, c, y, root, nil);
    ReattachFills(m1, nil, root, c, Left, y, x);
    var m2, m' := Reattached(m1, p, Left, y, x), Unlinked(m, p, y, x);
    assert Agree(m1, m2, Nodes(s) + {nil}) by { ReattachedOnly(m1, p, Left, y, x); }
    LinkedFrame(m1, m2, s, p, nil);
    CLinkedFrame(m2, m', c, x, root, nil);
    LinkedFrame(m2, m', s, p, nil);
    assert m'.Keys == CNodes(c) + Nodes(s) + {nil, root} by { NilNodes(); }
  }

  lemma {:induction false} NilNodes()
    ensures Nodes(Nil) == {}
  {
  }

  lemma {:induction false} ReattachedOnly(m: Mem, p: Node, d: Dir, x: Node, y: Node)
    requires p in m
    ensures Agree(m, Reattached(m, p, d, x, y), m.Keys - {p})
  {
  }

  lemma {:induction false} GoodUnlink(m: Mem, nil: Node, root: Node, c: Ctx, t: Shape)
    requires Good(m, nil, root, c, t) && t.Tree? && (t.l.Nil? || t.r.Nil?)
    ensures var p, x := CNode(c, root), RootOf(OnlyChild(t), nil);
            x in m && p in m && x != t.n && p != t.n && Good(Unlinked(m, p, t.n, x), nil, root, c, OnlyChild(t)) &&
            Unlinked(m, p, t.n, x)[x].parent == p
  {
    hide Good, Linked, CLinked, Apart, CApart, Unlinked;
    GoodOpen(m, nil, root, c, Left, t.red, t.l, t.n, t.r);
    UnlinkKeeps(m, nil, root, c, OnlyChild(t), t.n);
    RootIn(OnlyChild(t)); CNodeIn(c, root);
  }

  lemma {:induction false} OnlyChildIn(m: Mem, nil: Node, root: Node, c: Ctx, t: Shape)
    requires Good(m, nil, root, c, t) && t.Tree? && (t.l.Nil? || t.r.Nil?)
    ensures RootOf(OnlyChild(t), nil) in m && RootOf(OnlyChild(t), nil) != root && RootOf(OnlyChild(t), nil) != t.n
    ensures t.l.Tree? ==> t.l.n != nil
  {
    assert t.l.Tree? ==> t.l.n in Nodes(t.l);
    assert t.r.Tree? ==> t.r.n in Nodes(t.r);
  }

  method UnlinkLinks(tree: RbTree, y: Node, x: Node)
    requires y in tree.repr && y != tree.nil && y != tree.root && y.parent in tree.repr + {tree.root} &&
      x in tree.repr + {tree.nil} && x != y && y.parent != y
    modifies tree`repr, tree.repr, tree.root, tree.nil
    ensures tree.repr == old(tree.repr) - {y} && y.red == old(y.red)
    ensures tree.Snap() == old(Unlinked(tree.Snap(), y.parent, y, x))
  {
    hide RbTree.Snap;
    tree.SnapAt(y); tree.SnapAt(x); tree.SnapAt(y.parent);
    tree.SetParent(x, y.parent);
    tree.SnapAt(y.parent);
    tree.SetKid(y.parent, if y == y.parent.left then Left else Right, x);
    tree.Forget(y);
  }

  /** y, which has at most one child, is spliced out and its child x (perhaps nil) moves up. */
  method Unlink(tree: RbTree, y: Node, ghost c: Ctx, ghost t: Shape) returns (x: Node)
    requires tree.View(c, t) && t.Tree? && t.n == y && (t.l.Nil? || t.r.Nil?)
    modifies tree`repr, tree.repr, tree.root, tree.nil
    ensures tree.repr == old(tree.repr) - {y}
    ensures tree.View(c, OnlyChild(t)) && x == RootOf(OnlyChild(t), tree.nil) && x.parent == CNode(c, tree.root)
    ensures y.red == old(y.red)
  {
    hide Good, Unlinked;
    ghost var m := tree.Snap();
    GoodParent(m, tree.nil, tree.root, c, t);
    OnlyChildIn(m, tree.nil, tree.root, c, t);
    GoodUnlink(m, tree.nil, tree.root, c, t);
    x := if y.left != tree.nil then y.left else y.right;
    UnlinkLinks(tree, y, x);
    assert tree.Snap()[x].parent == CNode(c, tree.root);
  }

  // ----- putting a node in the place of another -----

  lemma {:induction false} RootIn(t: Shape)
    ensures t.Tree? ==> t.n in Nodes(t)
  {
  }

  /** The writes of rb_delete when y takes the place of z, whose children are xl and xr. */
  function Replaced(m: Mem, p: Node, z: Node, xl: Node, xr: Node, y: Node): Mem
    requires p in m && z in m && xl in m && xr in m
  {
    var m1 := Reattached(m, p, Left, z, y);
    var m2 := m1[xr := m1[xr].(parent := y)];
    var m3 := m2[xl := m2[xl].(parent := y)];
    m3[y := m3[z]] - {z}
  }

  lemma {:induction false} ReplacedCells(m: Mem, p: Node, z: Node, xl: Node, xr: Node, y: Node)
    requires p in m && z in m && xl in m && xr in m && y !in m
    requires xl != xr && xl != p && xr != p && z != p && z != xl && z != xr
    ensures CellsReplaced(m, Replaced(m, p, z, xl, xr, y), p, z, xl, xr, y)
  {
  }

  ghost predicate CellsReplaced(m: Mem, m': Mem, p: Node, z: Node, xl: Node, xr: Node, y: Node)
    requires p in m && xl in m && xr in m && z in m
  {
    m'.Keys == m.Keys - {z} + {y} && Agree(m, m', m.Keys - {z, p, xl, xr}) &&
    Agree(Reattached(m, p, Left, z, y), m', m.Keys - {z, xl, xr}) &&
    xl in m' && xr in m' && m'[xl] == m[xl].(parent := y) && m'[xr] == m[xr].(parent := y) && m'[y] == m[z]
  }

  lemma {:induction false} ReplaceCtx(
    m: Mem, m': Mem, nil: Node, root: Node, c: Ctx, red: bool, l: Shape, z: Node, r: Shape, y: Node)
    requires Open(m, nil, root, c, Left, red, l, z, r) && l.Tree? && y !in m
    requires CNode(c, root) in m && z in m && l.n in m && RootOf(r, nil) in m
    requires CellsReplaced(m, m', CNode(c, root), z, l.n, RootOf(r, nil), y)
    ensures CLinked(m', c, y, root, nil) && m'[root].red == m[root].red && m'[root].right == nil
  {
    hide Linked, CLinked, Nodes, CNodes, Apart, CApart, Reattached;
    RootIn(l); RootIn(r);
    ReattachFills(m, nil, root, c, Left, z, y);
    var m1 := Reattached(m, CNode(c, root), Left, z, y);
    assert root in m1 && root in m.Keys - {z, l.n, RootOf(r, nil)};
    assert m'[root] == m1[root];
    CLinkedFrame(m1, m', c, y, root, nil);
  }

  lemma {:induction false} ReplaceSub(
    m: Mem, m': Mem, s: Shape, p: Node, z: Node, xl: Node, xr: Node, y: Node, nil: Node)
    requires p in m && xl in m && xr in m && z in m && CellsReplaced(m, m', p, z, xl, xr, y)
    requires Linked(m, s, z, nil) && Apart(s) && z !in Nodes(s) && p !in Nodes(s)
    requires s.Tree? ==> (s.n == xl && xr !in Nodes(s)) || (s.n == xr && xl !in Nodes(s))
    ensures Linked(m', s, y, nil)
  {
    LinkedAdopt(m, m', s, z, y, nil);
  }

  lemma {:induction false} ReplaceLinks(
    m: Mem, m': Mem, nil: Node, root: Node, c: Ctx, red: bool, l: Shape, z: Node, r: Shape, y: Node)
    requires Open(m, nil, root, c, Left, red, l, z, r) && l.Tree? && y !in m
    requires CNode(c, root) in m && z in m && l.n in m && RootOf(r, nil) in m &&
      m' == Replaced(m, CNode(c, root), z, l.n, RootOf(r, nil), y)
    ensures CLinked(m', c, y, root, nil) && Linked(m', l, y, nil) && Linked(m', r, y, nil) &&
      m'.Keys == m.Keys - {z} + {y}
    ensures m'[root].red == m[root].red && m'[root].right == nil && m'[nil].red == m[nil].red && m'[y] == m[z]
    ensures m'[nil].parent == if r.Nil? then y else m[nil].parent
  {
    hide Linked, CLinked, Nodes, CNodes, Apart, CApart, Replaced, Reattached;
    var p, xr := CNode(c, root), RootOf(r, nil);
    RootIn(l); RootIn(r); CNodeIn(c, root);
    ReplacedCells(m, p, z, l.n, xr, y);
    ReplaceCtx(m, m', nil, root, c, red, l, z, r, y);
    ReplaceSub(m, m', l, p, z, l.n, xr, y, nil);
    ReplaceSub(m, m', r, p, z, l.n, xr, y, nil);
    assert nil in m.Keys - {z, p, l.n};
  }

  lemma {:induction false} GoodReplace(m: Mem, nil: Node, root: Node, c: Ctx, t: Shape, y: Node)
    requires Good(m, nil, root, c, t) && t.Tree? && t.l.Tree? && y !in m
    ensures CNode(c, root) in m && t.n in m && t.l.n in m && RootOf(t.r, nil) in m
    ensures var m' := Replaced(m, CNode(c, root), t.n, t.l.n, RootOf(t.r, nil), y);
            Good(m', nil, root, c, t.(n := y)) && m'[nil].parent == if t.r.Nil? then y else m[nil].parent
  {
    hide Good, Linked, CLinked, Nodes, CNodes, Apart, CApart, Replaced;
    GoodParent(m, nil, root, c, t);
    GoodOpen(m, nil, root, c, Left, t.red, t.l, t.n, t.r);
    RootIn(t.l); RootIn(t.r);
    var m' := Replaced(m, CNode(c, root), t.n, t.l.n, RootOf(t.r, nil), y);
    ReplaceLinks(m, m', nil, root, c, t.red, t.l, t.n, t.r, y);
    GoodOpen(m', nil, root, c, Left, t.red, t.l, y, t.r);
  }

  lemma {:induction false} CNodeIn(c: Ctx, root: Node)
    ensures CNode(c, root) in CNodes(c) + {root}
  {
  }

  /** *y = *z, and y is in the tree instead of z. */
  method TakeFields(tree: RbTree, z: Node, y: Node)
    requires z in tree.repr && y !in tree.repr && tree.nil !in {y, z} && tree.root !in {y, z}
    modifies tree`repr, y
    ensures tree.repr == old(tree.repr) - {z} + {y}
    ensures z in old(tree.Snap()) && tree.Snap() == old(tree.Snap())[y := old(tree.Snap())[z]] - {z}
  {
    hide RbTree.Snap;
    tree.SnapAt(z);
    y.red, y.parent, y.left, y.right := z.red, z.parent, z.left, z.right;
    tree.Admit(y);
    tree.Forget(z);
  }

  method ReplaceLinksOf(tree: RbTree, z: Node, y: Node)
    requires {z, z.left} <= tree.repr && z.right in tree.repr + {tree.nil} && z.parent in tree.repr + {tree.root} &&
      z.parent != z
    requires z.left != z && z.right != z && z.left != z.parent && z.right != z.parent && z.left != z.right
    requires y !in tree.repr && tree.nil !in {y, z, z.left, z.parent} && tree.root !in {y, z, z.left, z.right}
    modifies tree`repr, tree.repr, tree.root, tree.nil, y
    ensures tree.repr == old(tree.repr) - {z} + {y}
    ensures tree.Snap() == old(Replaced(tree.Snap(), z.parent, z, z.left, z.right, y))
  {
    hide RbTree.Snap;
    tree.SnapAt(z); tree.SnapAt(z.parent);
    tree.SetKid(z.parent, if z == z.parent.left then Left else Right, y);
    tree.SetParent(z.right, y);
    tree.SetParent(z.left, y);
    TakeFields(tree, z, y);
  }

  /** y, which is not in the tree, takes the place of z, which has a left child. */
  method Replace(tree: RbTree, z: Node, y: Node, ghost c: Ctx, ghost t: Shape)
    requires tree.View(c, t) && t.Tree? && t.l.Tree? && t.n == z && y !in tree.repr && y != tree.nil && y != tree.root
    modifies tree`repr, tree.repr, tree.root, tree.nil, y
    ensures tree.repr == old(tree.repr) - {z} + {y}
    ensures tree.View(c, t.(n := y))
    ensures tree.nil.parent == if t.r.Nil? then y else old(tree.nil.parent)
  {
    hide Good, Replaced, Linked, CLinked, Nodes, CNodes, Apart, CApart, RbTree.Snap;
    tree.SnapAt(z); tree.SnapAt(tree.nil);
    GoodParent(tree.Snap(), tree.nil, tree.root, c, t);
    GoodOpen(tree.Snap(), tree.nil, tree.root, c, Left, t.red, t.l, z, t.r);
    RootIn(t.l); RootIn(t.r); CNodeIn(c, tree.root);
    GoodReplace(tree.Snap(), tree.nil, tree.root, c, t, y);
    ReplaceLinksOf(tree, z, y);
    tree.SnapAt(tree.nil);
  }

  // ----- the successor -----

  /** The last node on the way towards d. */
  method Extreme(
    tree: RbTree, d: Dir, top: Node, ghost c: Ctx, ghost t: Shape)
    returns (y: Node, ghost inner: Ctx, ghost s: Shape)
    requires tree.View(c, t) && t.Tree? && top == t.n
    ensures s.Tree? && s.n == y && (if d == Left then s.l.Nil? else s.r.Nil?)
    ensures Plug(inner, s) == t && (if d == Left then Before(inner) == [] else After(inner) == [])
    ensures tree.View(Cat(c, inner), s)
  {
    hide Good;
    y, inner, s := top, Top, t;
    GoodParent(tree.Snap(), tree.nil, tree.root, c, t);
    while y.Kid(d) != tree.nil
      invariant s.Tree? && s.n == y && Plug(inner, s) == t &&
        (if d == Left then Before(inner) == [] else After(inner) == [])
      invariant tree.View(Cat(c, inner), s)
      decreases s
    {
      ghost var near, far := if d == Left then s.l else s.r, if d == Left then s.r else s.l;
      ghost var inner' := Step(inner, d, s.red, s.n, far);
      GoodParent(tree.Snap(), tree.nil, tree.root, Cat(c, inner), s);
      GoodUp(tree.Snap(), tree.nil, tree.root, Step(Cat(c, inner), d, s.red, s.n, far), near);
      y, inner, s := y.Kid(d), inner', near;
    }
    GoodParent(tree.Snap(), tree.nil, tree.root, Cat(c, inner), s);
  }

  // ----- rb_delete -----

  /** The sequence without its element x. */
  function Without(s: seq<Node>, x: Node): seq<Node> {
    if s == [] then [] else if s[0] == x then s[1..] else [s[0]] + Without(s[1..], x)
  }

  /** Deleting a node just inserted gives back the old sequence. */
  lemma {:induction false} DeleteUndoesInsert(cmp: (int, int) -> int, s: seq<Node>, x: Node)
    requires x !in s
    ensures Without(Placed(cmp, s, x), x) == s
  {
    if s != [] && cmp(s[0].data, x.data) <= 0 {
      DeleteUndoesInsert(cmp, s[1..], x);
      assert s[0] in s && ([s[0]] + Placed(cmp, s[1..], x))[1..] == Placed(cmp, s[1..], x);
    } else {
      assert ([x] + s)[1..] == s;
    }
  }

  lemma {:induction false} WithoutBetween(a: seq<Node>, x: Node, b: seq<Node>)
    requires x !in a
    ensures Without(a + [x] + b, x) == a + b
  {
    if a == [] {
      assert a + [x] + b == [x] + b;
      assert a + b == b;
    } else {
      var s := a + [x] + b;
      assert s[1..] == a[1..] + [x] + b;
      WithoutBetween(a[1..], x, b);
      assert [a[0]] + (a[1..] + b) == a + b;
    }
  }

  lemma {:induction false} SortedWithout(cmp: (int, int) -> int, a: seq<Node>, x: Node, b: seq<Node>)
    requires Sorted(cmp, a + [x] + b)
    ensures Sorted(cmp, a + b)
  {
    var s, s' := a + [x] + b, a + b;
    forall i, j | 0 <= i < j < |s'| ensures cmp(s'[i].data, s'[j].data) <= 0 {
      var i0, j0 := if i < |a| then i else i + 1, if j < |a| then j else j + 1;
      assert s'[i] == s[i0] && s'[j] == s[j0];
    }
  }

  /** Both at once, for a tree whose in-order sequence loses one node. */
  lemma {:induction false} LosesOne(
    cmp: (int, int) -> int, shape: Shape, shape': Shape, a: seq<Node>, x: Node, b: seq<Node>)
    requires Apart(shape) && Inorder(shape) == a + [x] + b && Inorder(shape') == a + b && Sorted(cmp, Inorder(shape))
    ensures Inorder(shape') == Without(Inorder(shape), x) && Sorted(cmp, Inorder(shape'))
  {
    InorderNoDup(shape);
    var s := a + [x] + b;
    assert forall i :: 0 <= i < |a| ==> s[i] == a[i];
    assert s[|a|] == x;
    WithoutBetween(a, x, b);
    SortedWithout(cmp, a, x, b);
  }

  /** Taking out a red node leaves a red-black tree; taking out a black one leaves its
      child's place short. */
  lemma {:induction false} UnlinkColours(c: Ctx, t: Shape) returns (h: int)
    requires RbTop(Plug(c, t)) && t.Tree? && (t.l.Nil? || t.r.Nil?)
    ensures t.red ==> RbTop(Plug(c, OnlyChild(t)))
    ensures !t.red ==> RbFixup.Short(c, OnlyChild(t), h)
  {
    var k := UnplugRb(c, t);
    h := k - 1;
    var s := OnlyChild(t);
    if t.red {
      PlugRb(c, s, k);
    } else if IsRed(s) {
      assert Rb(s, h);
      assert Rb(Blacken(s), h + 1);
    }
  }

  /** The colours around a hole do not depend on which node sits where. */
  lemma {:induction false} RenameCtx(outer: Ctx, outer': Ctx, inner: Ctx, h: int)
    requires outer.Step? && outer'.Step? && outer' == outer.(n := outer'.n)
    ensures CRb(Cat(outer, inner), h) <==> CRb(Cat(outer', inner), h)
    decreases inner
  {
    if inner.Step? {
      RenameCtx(outer, outer', inner.up, if inner.red then h else h + 1);
    }
  }

  lemma {:induction false} RenameTop(c: Ctx, t: Shape, y: Node)
    requires RbTop(Plug(c, t)) && t.Tree?
    ensures RbTop(Plug(c, t.(n := y)))
  {
    var h := UnplugRb(c, t);
    PlugRb(c, t.(n := y), h);
  }

  /** In order, a node stands between what its context and its subtrees put before and after it. */
  lemma {:induction false} InorderAround(c: Ctx, t: Shape)
    requires t.Tree?
    ensures Inorder(Plug(c, t)) == (Before(c) + Inorder(t.l)) + [t.n] + (Inorder(t.r) + After(c))
  {
    PlugInorder(c, t);
    Regroup4(Before(c), Inorder(t.l), t.n, Inorder(t.r), After(c));
  }

  lemma {:induction false} Regroup4(a: seq<Node>, b: seq<Node>, n: Node, s: seq<Node>, e: seq<Node>)
    ensures a + (b + [n] + s) + e == (a + b) + [n] + (s + e)
  {
  }

  lemma {:induction false} UnlinkInorder(c: Ctx, t: Shape)
    requires t.Tree? && (t.l.Nil? || t.r.Nil?)
    ensures Inorder(Plug(c, OnlyChild(t))) == (Before(c) + Inorder(t.l)) + (Inorder(t.r) + After(c))
  {
    PlugInorder(c, OnlyChild(t));
    if t.l.Nil? {
      assert Before(c) + [] == Before(c);
      assert Before(c) + Inorder(t.r) + After(c) == Before(c) + (Inorder(t.r) + After(c));
    } else {
      assert [] + After(c) == After(c);
    }
  }

  /** The successor s.n of z, moved into z's place. */
  lemma {:induction false} ReplaceInorder(c: Ctx, red: bool, l: Shape, inner: Ctx, s: Shape)
    requires s.Tree? && s.l.Nil? && Before(inner) == []
    ensures Inorder(Plug(c, Tree(red, l, s.n, Plug(inner, s.r)))) ==
      (Before(c) + Inorder(l)) + (Inorder(Plug(inner, s)) + After(c))
  {
    hide Plug, Before, After;
    InorderAround(c, Tree(red, l, s.n, Plug(inner, s.r)));
    PlugInorder(inner, s);
    PlugInorder(inner, s.r);
    Regroup5(Before(c) + Inorder(l), s.n, Inorder(s.r), After(inner), After(c));
  }

  lemma {:induction false} Regroup5(a: seq<Node>, y: Node, q: seq<Node>, e: seq<Node>, b: seq<Node>)
    ensures a + [y] + (([] + q + e) + b) == a + (([] + ([] + [y] + q) + e) + b)
  {
    assert [] + ([] + [y] + q) + e == [y] + (q + e);
    assert [] + q + e == q + e;
    assert a + [y] + ((q + e) + b) == a + (([y] + (q + e)) + b);
  }

  /** z has at most one child: it is spliced out. */
  method DeleteLeafward(tree: RbTree, z: Node, ghost c: Ctx, ghost t: Shape)
    requires tree.View(c, t) && t.Tree? && t.n == z && (t.l.Nil? || t.r.Nil?) && RbTop(Plug(c, t))
    modifies tree, tree.repr, tree.root, tree.nil
    ensures tree.repr == old(tree.repr) - {z} && tree.View(Top, tree.shape) && RbTop(tree.shape)
    ensures Inorder(tree.shape) == (Before(c) + Inorder(t.l)) + (Inorder(t.r) + After(c))
  {
    hide Good, Inorder, Plug, RbTop, RbTree.Snap;
    ghost var h := UnlinkColours(c, t);
    UnlinkInorder(c, t);
    GoodParent(tree.Snap(), tree.nil, tree.root, c, t);
    tree.SnapAt(z);
    var x := Unlink(tree, z, c, t);
    var needFixup := !z.red;
    if needFixup {
      RbFixup.Fixup(tree, x, c, OnlyChild(t), h);
    } else {
      Refocus(tree.Snap(), tree.nil, tree.root, c, OnlyChild(t));
      tree.shape := Plug(c, OnlyChild(t));
    }
  }

  /** z has two children: its successor y is spliced out and takes z's place. */
  method DeleteInner(tree: RbTree, z: Node, ghost c: Ctx, ghost t: Shape)
    requires tree.View(c, t) && t.Tree? && t.n == z && t.l.Tree? && t.r.Tree? && RbTop(Plug(c, t))
    modifies tree, tree.repr, tree.root, tree.nil
    ensures tree.repr == old(tree.repr) - {z} && tree.View(Top, tree.shape) && RbTop(tree.shape)
    ensures Inorder(tree.shape) == (Before(c) + Inorder(t.l)) + (Inorder(t.r) + After(c))
  {
    hide Good, Inorder, Plug, RbTop, Rb, CRb, Nodes, CNodes, Before, After, RbTree.Snap;
    ghost var nil, root := tree.nil, tree.root;
    GoodParent(tree.Snap(), nil, root, c, t);
    tree.SnapAt(z);
    ghost var c1 := Step(c, Right, t.red, z, t.l);
    GoodUp(tree.Snap(), nil, root, c1, t.r);
    var y; ghost var inner, s;
    y, inner, s := Extreme(tree, Left, z.right, c1, t.r);
    ghost var cy := Cat(c1, inner);
    PlugThrough(c, c1, inner, s, t);
    ghost var h := UnlinkColours(cy, s);
    GoodParent(tree.Snap(), nil, root, cy, s);
    tree.SnapAt(y);
    var x := Unlink(tree, y, cy, s);
    var needFixup := !y.red;
    ghost var tz := Tree(t.red, t.l, z, Plug(inner, s.r));
    ghost var ty := Tree(t.red, t.l, y, Plug(inner, s.r));
    PlugThrough(c, c1, inner, s.r, tz);
    Refocus(tree.Snap(), nil, root, cy, s.r);
    Refocus(tree.Snap(), nil, root, c, tz);
    Replace(tree, z, y, c, tz);
    ghost var c2 := Step(c, Right, t.red, y, t.l);
    ReplaceInorder(c, t.red, t.l, inner, s);
    Refocus(tree.Snap(), nil, root, c, ty);
    if needFixup {
      PlugThrough(c, c2, inner, s.r, ty);
      Refocus(tree.Snap(), nil, root, Cat(c2, inner), s.r);
      RenameCtx(c1, c2, inner, h + 1);
      NilParent(tree.Snap(), nil, root, c1, c2, inner, s.r);
      tree.SnapAt(x);
      RbFixup.Fixup(tree, x, Cat(c2, inner), s.r, h);
    } else {
      RenameTop(c, tz, y);
      tree.shape := Plug(c, ty);
    }
  }

  lemma {:induction false} PlugThrough(c: Ctx, c1: Ctx, inner: Ctx, s: Shape, t: Shape)
    requires t.Tree? && c1 == Step(c, Right, t.red, t.n, t.l) && t.r == Plug(inner, s)
    ensures Plug(Cat(c1, inner), s) == Plug(c, t)
  {
    PlugCat(c1, inner, s);
  }

  /** Whose child x is, before and after y takes z's place. */
  lemma {:induction false} NilParent(m: Mem, nil: Node, root: Node, c1: Ctx, c2: Ctx, inner: Ctx, s: Shape)
    requires Good(m, nil, root, Cat(c2, inner), s) && c1.Step? && c2.Step?
    ensures s.Tree? ==> s.n in m && m[s.n].parent == CNode(Cat(c2, inner), root)
    ensures inner.Step? ==> CNode(Cat(c2, inner), root) == CNode(Cat(c1, inner), root) && Plug(inner, s).Tree?
    ensures inner.Top? ==> CNode(Cat(c2, inner), root) == c2.n && Plug(inner, s) == s
  {
    hide Good;
    GoodParent(m, nil, root, Cat(c2, inner), s);
    if inner.Step? {
      RbFixup.TopNodeIs(inner, s);
    }
  }

  /** rb_delete */
  method Delete(tree: RbTree, node: Node)
    requires tree.Valid() && node in tree.repr
    modifies tree, tree.repr, tree.root, tree.nil
    ensures tree.Valid() && tree.repr == old(tree.repr) - {node}
    ensures Inorder(tree.shape) == Without(old(Inorder(tree.shape)), node)
  {
    hide Good, Inorder, Plug, RbTop, Sorted, TotalPreorder, Without, RbTree.Snap;
    ghost var shape := tree.shape;
    NodesOf(tree.Snap(), tree.nil, tree.root, shape);
    tree.SnapAt(node);
    ghost var c, t := Locate(shape, node);
    Refocus(tree.Snap(), tree.nil, tree.root, c, t);
    GoodParent(tree.Snap(), tree.nil, tree.root, c, t);
    InorderAround(c, t);
    if node.left == tree.nil || node.right == tree.nil {
      DeleteLeafward(tree, node, c, t);
    } else {
      DeleteInner(tree, node, c, t);
    }
    LosesOne(tree.compare, shape, tree.shape, Before(c) + Inorder(t.l), node, Inorder(t.r) + After(c));
  }

  lemma {:induction false} NodesOf(m: Mem, nil: Node, root: Node, t: Shape)
    requires Good(m, nil, root, Top, t)
    ensures m.Keys == Nodes(t) + {nil, root} && nil !in Nodes(t) && root !in Nodes(t) && Apart(t)
  {
  }
}
