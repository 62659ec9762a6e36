/**
 The heap side of the red-black tree: what it means for the linked nodes to spell
 out a Shape, and the in-place primitives, painting and rotation.

 The fields of all nodes of a tree, taken together, are a value too: a map from
 nodes to cells.  Every write goes through one of three setters that say what it
 does to that map, so that the arguments about links are about maps.
 */
module RbHeap {
  import opened RbShape

  datatype Cell = Cell(red: bool, parent: Node, left: Node, right: Node) {
    function Kid(d: Dir): Node {
      if d == Left then left else right
    }
    function SetKid(d: Dir, k: Node): Cell {
      if d == Left then this.(left := k) else this.(right := k)
    }
  }

  type Mem = map<Node, Cell>

  function RootOf(t: Shape, nil: Node): Node {
    if t.Nil? then nil else t.n
  }

  function CNode(c: Ctx, root: Node): Node {
    if c.Top? then root else c.n
  }

  /** The cell of a node with child `near` towards d and `far` away from it. */
  function MkCell(d: Dir, red: bool, p: Node, near: Node, far: Node): Cell {
    if d == Left then Cell(red, p, near, far) else Cell(red, p, far, near)
  }

  /** The nodes below `p` are linked and coloured as `t` says; nil's own fields are free. */
  ghost predicate Linked(m: Mem, t: Shape, p: Node, nil: Node) {
    match t
    case Nil => true
    case Tree(red, l, n, r) =>
      n in m && m[n] == Cell(red, p, RootOf(l, nil), RootOf(r, nil)) && Linked(m, l, n, nil) && Linked(m, r, n, nil)
  }

  /** The nodes around the hole are linked as `c` says, and the hole holds `hole`. */
  ghost predicate CLinked(m: Mem, c: Ctx, hole: Node, root: Node, nil: Node) {
    match c
    case Top => root in m && m[root].left == hole
    case Step(up, d, red, n, sib) =>
      n in m && m[n] == MkCell(d, red, CNode(up, root), hole, RootOf(sib, nil)) &&
      Linked(m, sib, n, nil) && CLinked(m, up, n, root, nil)
  }

  /** The memory holds the tree Plug(c, t). */
  ghost predicate Good(m: Mem, nil: Node, root: Node, c: Ctx, t: Shape) {
    nil != root && m.Keys == CNodes(c) + Nodes(t) + {nil, root} && nil !in CNodes(c) + Nodes(t) &&
    root !in CNodes(c) + Nodes(t) &&
    !m[nil].red && !m[root].red && m[root].right == nil && Whole(c, t) &&
    Linked(m, t, CNode(c, root), nil) && CLinked(m, c, RootOf(t, nil), root, nil)
  }

  ghost predicate Agree(m: Mem, m': Mem, s: set<Node>) {
    forall n :: n in s && n in m ==> n in m' && m'[n] == m[n]
  }

  lemma {:induction false} LinkedFrame(m: Mem, m': Mem, t: Shape, p: Node, nil: Node)
    requires Linked(m, t, p, nil) && Agree(m, m', Nodes(t))
    ensures Linked(m', t, p, nil)
  {
    match t
    case Nil =>
    case Tree(_, l, n, r) =>
      LinkedFrame(m, m', l, n, nil);
      LinkedFrame(m, m', r, n, nil);
  }

  lemma {:induction false} CLinkedFrame(m: Mem, m': Mem, c: Ctx, hole: Node, root: Node, nil: Node)
    requires CLinked(m, c, hole, root, nil) && Agree(m, m', CNodes(c)) && root in m && root in m' &&
      m'[root].left == m[root].left
    ensures CLinked(m', c, hole, root, nil)
  {
    match c
    case Top =>
    case Step(up, d, red, n, sib) =>
      LinkedFrame(m, m', sib, n, nil);
      CLinkedFrame(m, m', up, n, root, nil);
  }

  /** The parent of the root of a subtree changes and nothing else in it. */
  lemma {:induction false} LinkedAdopt(m: Mem, m': Mem, t: Shape, p: Node, p': Node, nil: Node)
    requires Linked(m, t, p, nil) && Apart(t) && Agree(m, m', if t.Nil? then {} else Nodes(t) - {t.n})
    requires t.Tree? ==> t.n in m' && m'[t.n] == m[t.n].(parent := p')
    ensures Linked(m', t, p', nil)
  {
    if t.Tree? {
      LinkedFrame(m, m', t.l, t.n, nil);
      LinkedFrame(m, m', t.r, t.n, nil);
    }
  }

  /** Another subtree goes into the hole. */
  lemma {:induction false} CLinkedFill(m: Mem, m': Mem, c: Ctx, hole: Node, hole': Node, root: Node, nil: Node)
    requires CLinked(m, c, hole, root, nil) && CApart(c) && root !in CNodes(c) && root in m && root in m'
    requires c.Step? ==> Agree(m, m', CNodes(c) - {c.n}) && m'[root].left == m[root].left
    requires c.Step? ==> c.n in m' && m'[c.n] == m[c.n].SetKid(c.d, hole')
    requires c.Top? ==> m'[root].left == hole'
    ensures CLinked(m', c, hole', root, nil)
  {
    if c.Step? {
      LinkedFrame(m, m', c.sib, c.n, nil);
      CLinkedFrame(m, m', c.up, c.n, root, nil);
    }
  }

  lemma {:induction false} MkLinked(m: Mem, d: Dir, red: bool, near: Shape, n: Node, far: Shape, p: Node, nil: Node)
    ensures Linked(m, Mk(d, red, near, n, far), p, nil) <==>
            n in m && m[n] == MkCell(d, red, p, RootOf(near, nil), RootOf(far, nil)) &&
            Linked(m, near, n, nil) && Linked(m, far, n, nil)
  {
  }

  lemma {:induction false} GoodUp(m: Mem, nil: Node, root: Node, c: Ctx, t: Shape)
    requires c.Step?
    ensures Good(m, nil, root, c, t) <==> Good(m, nil, root, c.up, Mk(c.d, c.red, t, c.n, c.sib))
  {
    var t' := Mk(c.d, c.red, t, c.n, c.sib);
    MkLinked(m, c.d, c.red, t, c.n, c.sib, CNode(c.up, root), nil);
    MkApart(c.d, c.red, t, c.n, c.sib);
    assert CNodes(c) + Nodes(t) == CNodes(c.up) + Nodes(t');
  }

  /** What memory holds does not depend on where one looks. */
  lemma {:induction false} Refocus(m: Mem, nil: Node, root: Node, c: Ctx, t: Shape)
    ensures Good(m, nil, root, c, t) <==> Good(m, nil, root, Top, Plug(c, t))
    decreases c
  {
    if c.Step? {
      GoodUp(m, nil, root, c, t);
      Refocus(m, nil, root, c.up, Mk(c.d, c.red, t, c.n, c.sib));
    }
  }

  lemma {:induction false} GoodPaint(m: Mem, nil: Node, root: Node, c: Ctx, t: Shape, red: bool)
    requires Good(m, nil, root, c, t) && t.Tree?
    ensures Good(m[t.n := m[t.n].(red := red)], nil, root, c, t.(red := red))
  {
    var m' := m[t.n := m[t.n].(red := red)];
    LinkedFrame(m, m', t.l, t.n, nil);
    LinkedFrame(m, m', t.r, t.n, nil);
    CLinkedFrame(m, m', c, t.n, root, nil);
    assert m'.Keys == m.Keys;
  }

  /** The child slot of p that holds x, looked for first towards d, is made to hold y. */
  function Reattached(m: Mem, p: Node, d: Dir, x: Node, y: Node): Mem
    requires p in m
  {
    m[p := m[p].SetKid(if m[p].Kid(d) == x then d else Opp(d), y)]
  }

  lemma {:induction false} ReattachFills(m: Mem, nil: Node, root: Node, c: Ctx, d: Dir, x: Node, y: Node)
    requires CLinked(m, c, x, root, nil) && CApart(c) && root !in CNodes(c) && root in m
    requires x != nil && x !in CNodes(c) && m[root].right == nil
    ensures CNode(c, root) in m
    ensures var m' := Reattached(m, CNode(c, root), d, x, y);
            CLinked(m', c, y, root, nil) && m'[root].right == nil && m'.Keys == m.Keys && m'[root].red == m[root].red
  {
    var m' := Reattached(m, CNode(c, root), d, x, y);
    assert c.Step? && c.sib.Tree? ==> c.sib.n in CNodes(c);
    CLinkedFill(m, m', c, x, y, root, nil);
    assert m'.Keys == m.Keys;
  }

  /** The writes of FUNC_ROTATE, in order. */
  function Rotated(m: Mem, nil: Node, d: Dir, x: Node): Mem
    requires x in m && m[x].Kid(Opp(d)) in m && m[x].parent in m
    requires m[m[x].Kid(Opp(d))].Kid(d) in m
  {
    var y := m[x].Kid(Opp(d));
    var b := m[y].Kid(d);
    var m1 := m[x := m[x].SetKid(Opp(d), b)];
    var m2 := if b != nil then m1[b := m1[b].(parent := x)] else m1;
    var m3 := m2[y := m2[y].(parent := m2[x].parent)];
    var m4 := Reattached(m3, m3[x].parent, d, x, y);
    var m5 := m4[y := m4[y].SetKid(d, x)];
    m5[x := m5[x].(parent := y)]
  }

  ghost predicate CellsRotated(m: Mem, m': Mem, nil: Node, d: Dir, x: Node, y: Node, b: Node, p: Node) {
    m'.Keys == m.Keys && Agree(m, m', m.Keys - {x, y, b, p}) && x in m && y in m && b in m && p in m &&
    m'[x] == m[x].SetKid(Opp(d), b).(parent := y) && m'[y] == m[y].SetKid(d, x).(parent := p) &&
    m'[b] == (if b != nil then m[b].(parent := x) else m[b]) && m'[p] == Reattached(m, p, d, x, y)[p]
  }

  lemma {:induction false} RotatedCells(m: Mem, nil: Node, d: Dir, x: Node, y: Node, b: Node, p: Node)
    requires x in m && y in m && b in m && p in m && m[x].Kid(Opp(d)) == y && m[x].parent == p && m[y].Kid(d) == b
    requires x != y && x != b && y != b && p != x && p != y && p != b
    ensures CellsRotated(m, Rotated(m, nil, d, x), nil, d, x, y, b, p)
  {
  }

  /** The context, the node and its two subtrees are separate and make up all of memory. */
  ghost predicate Separate(keys: set<Node>, nil: Node, root: Node, c: Ctx, near: Shape, n: Node, far: Shape) {
    nil != root && keys == CNodes(c) + {n, nil, root} + Nodes(near) + Nodes(far) &&
    nil !in CNodes(c) && nil != n && nil !in Nodes(near) && nil !in Nodes(far) &&
    root !in CNodes(c) && root != n && root !in Nodes(near) && root !in Nodes(far) &&
    n !in CNodes(c) && n !in Nodes(near) && n !in Nodes(far) &&
    CNodes(c) !! Nodes(near) && CNodes(c) !! Nodes(far) && Nodes(near) !! Nodes(far) && CApart(c) && Apart(near) &&
    Apart(far)
  }

  /** Good, one node of the subtree opened up. */
  ghost predicate Open(m: Mem, nil: Node, root: Node, c: Ctx, d: Dir, red: bool, near: Shape, n: Node, far: Shape) {
    Separate(m.Keys, nil, root, c, near, n, far) && !m[nil].red && !m[root].red && m[root].right == nil &&
    m[n] == MkCell(d, red, CNode(c, root), RootOf(near, nil), RootOf(far, nil)) &&
    Linked(m, near, n, nil) && Linked(m, far, n, nil) && CLinked(m, c, n, root, nil)
  }

  lemma {:induction false} SeparateRotate(
    keys: set<Node>, nil: Node, root: Node, d: Dir, c: Ctx, x: Node, rx: bool, a: Shape, y: Node, ry: bool, b: Shape,
    g: Shape)
    requires Separate(keys, nil, root, Step(c, Opp(d), rx, x, a), b, y, g)
    ensures Separate(keys, nil, root, Step(c, d, ry, y, g), a, x, b)
  {
  }

  lemma {:induction false} GoodOpen(
    m: Mem, nil: Node, root: Node, c: Ctx, d: Dir, red: bool, near: Shape, n: Node, far: Shape)
    ensures Good(m, nil, root, c, Mk(d, red, near, n, far)) <==> Open(m, nil, root, c, d, red, near, n, far)
  {
    hide Linked, CLinked, Apart, CApart, Nodes, CNodes;
    var t := Mk(d, red, near, n, far);
    MkApart(d, red, near, n, far);
    MkLinked(m, d, red, near, n, far, CNode(c, root), nil);
    assert RootOf(t, nil) == n;
    assert CNodes(c) + (Nodes(near) + {n} + Nodes(far)) + {nil, root} ==
      CNodes(c) + {n, nil, root} + Nodes(near) + Nodes(far);
    if Good(m, nil, root, c, t) {
      assert Separate(m.Keys, nil, root, c, near, n, far);
    }
    if Open(m, nil, root, c, d, red, near, n, far) {
      assert Whole(c, t);
    }
  }

  lemma {:induction false} RotateCtx(
    m: Mem, m': Mem, nil: Node, root: Node, d: Dir, c: Ctx, x: Node, rx: bool, a: Shape, y: Node, ry: bool, b: Shape,
    g: Shape)
    requires Open(m, nil, root, Step(c, Opp(d), rx, x, a), d, ry, b, y, g)
    requires CellsRotated(m, m', nil, d, x, y, RootOf(b, nil), CNode(c, root))
    ensures CLinked(m', c, y, root, nil) && m'[root].right == nil && !m'[root].red
  {
    assert b.Tree? ==> b.n in Nodes(b);
    var m0 := Reattached(m, CNode(c, root), d, x, y);
    ReattachFills(m, nil, root, c, d, x, y);
    assert Agree(m0, m', CNodes(c));
    CLinkedFrame(m0, m', c, y, root, nil);
  }

  lemma {:induction false} RotateOther(
    m: Mem, m': Mem, nil: Node, d: Dir, x: Node, y: Node, b: Node, p: Node, s: Shape, q: Node)
    requires CellsRotated(m, m', nil, d, x, y, b, p) && Linked(m, s, q, nil)
    requires x !in Nodes(s) && y !in Nodes(s) && b !in Nodes(s) && p !in Nodes(s)
    ensures Linked(m', s, q, nil)
  {
    LinkedFrame(m, m', s, q, nil);
  }

  lemma {:induction false} RotateInner(
    m: Mem, m': Mem, nil: Node, root: Node, d: Dir, c: Ctx, x: Node, rx: bool, a: Shape, y: Node, ry: bool, b: Shape,
    g: Shape)
    requires Open(m, nil, root, Step(c, Opp(d), rx, x, a), d, ry, b, y, g)
    requires CellsRotated(m, m', nil, d, x, y, RootOf(b, nil), CNode(c, root))
    ensures Linked(m', b, x, nil)
  {
    assert b.Tree? ==> b.n in Nodes(b);
    LinkedAdopt(m, m', b, y, x, nil);
  }

  lemma {:induction false} OpenRotate(
    m: Mem, m': Mem, nil: Node, root: Node, d: Dir, c: Ctx, x: Node, rx: bool, a: Shape, y: Node, ry: bool, b: Shape,
    g: Shape)
    requires Open(m, nil, root, Step(c, Opp(d), rx, x, a), d, ry, b, y, g)
    requires CellsRotated(m, m', nil, d, x, y, RootOf(b, nil), CNode(c, root))
    ensures Open(m', nil, root, Step(c, d, ry, y, g), d, rx, a, x, b)
  {
    SeparateRotate(m.Keys, nil, root, d, c, x, rx, a, y, ry, b, g);
    RotateCtx(m, m', nil, root, d, c, x, rx, a, y, ry, b, g);
    assert b.Tree? ==> b.n in Nodes(b);
    RotateOther(m, m', nil, d, x, y, RootOf(b, nil), CNode(c, root), a, x);
    RotateOther(m, m', nil, d, x, y, RootOf(b, nil), CNode(c, root), g, y);
    RotateInner(m, m', nil, root, d, c, x, rx, a, y, ry, b, g);
  }

  /** The four nodes whose cells a rotation changes, or might. */
  lemma {:induction false} RotateMembers(
    m: Mem, nil: Node, root: Node, d: Dir, c: Ctx, x: Node, rx: bool, a: Shape, y: Node, ry: bool, b: Shape, g: Shape)
    requires Open(m, nil, root, Step(c, Opp(d), rx, x, a), d, ry, b, y, g)
    ensures x in m && y in m && m[x].Kid(Opp(d)) == y && m[x].parent == CNode(c, root) && m[y].Kid(d) == RootOf(b, nil)
    ensures CNode(c, root) in m && RootOf(b, nil) in m && x != y
    ensures CNode(c, root) !in {x, y, nil, RootOf(b, nil)} && RootOf(b, nil) !in {x, y} && nil !in {x, y} &&
      root !in {x, y}
  {
    assert b.Tree? ==> b.n in Nodes(b);
    assert CNode(c, root) in CNodes(c) + {root};
  }

  lemma {:induction false} GoodRotate(
    m: Mem, nil: Node, root: Node, d: Dir, c: Ctx, x: Node, rx: bool, a: Shape, y: Node, ry: bool, b: Shape, g: Shape)
    requires Good(m, nil, root, c, Mk(d, rx, a, x, Mk(d, ry, b, y, g)))
    ensures x in m && m[x].Kid(Opp(d)) == y && y in m && m[x].parent in m && m[y].Kid(d) in m
    ensures Good(Rotated(m, nil, d, x), nil, root, c, Mk(d, ry, Mk(d, rx, a, x, b), y, g))
    ensures nil !in {x, y, m[x].parent} && root !in {x, y} && x != y
  {
    hide Good, Open, Rotated, CellsRotated;
    var c1, c2 := Step(c, Opp(d), rx, x, a), Step(c, d, ry, y, g);
    GoodUp(m, nil, root, c1, Mk(d, ry, b, y, g));
    GoodOpen(m, nil, root, c1, d, ry, b, y, g);
    RotateMembers(m, nil, root, d, c, x, rx, a, y, ry, b, g);
    RotatedCells(m, nil, d, x, y, RootOf(b, nil), CNode(c, root));
    var m' := Rotated(m, nil, d, x);
    OpenRotate(m, m', nil, root, d, c, x, rx, a, y, ry, b, g);
    GoodOpen(m', nil, root, c2, d, rx, a, x, b);
    GoodUp(m', nil, root, c2, Mk(d, rx, a, x, b));
  }

  // ----- the order -----

  /** What rb_tree.h asks of a comparison function. */
  ghost predicate TotalPreorder(cmp: (int, int) -> int) {
    (forall a, b :: cmp(a, b) > 0 <==> cmp(b, a) < 0) &&
    (forall a, b, c :: cmp(a, b) <= 0 && cmp(b, c) <= 0 ==> cmp(a, c) <= 0)
  }

  ghost predicate Sorted(cmp: (int, int) -> int, s: seq<Node>) {
    forall i, j :: 0 <= i < j < |s| ==> cmp(s[i].data, s[j].data) <= 0
  }

  /** struct rb_tree: the sentinel, the fake root whose left child is the real root, and
      the comparison function.  `repr` is the set of nodes now in the tree. */
  class RbTree {
    const compare: (int, int) -> int
    const nil: Node
    const root: Node
    ghost var repr: set<Node>
    ghost var shape: Shape

    /** rb_tree_create, once it has its memory. */
    constructor (compare: (int, int) -> int)
      requires TotalPreorder(compare)
      ensures this.compare == compare && fresh(nil) && fresh(root)
      ensures Valid() && Inorder(shape) == []
    {
      this.compare := compare;
      var n := new Node(0);
      var r := new Node(0);
      n.parent, n.left, n.right, n.red := n, n, n, false;
      r.parent, r.left, r.right, r.red := n, n, n, false;
      nil, root := n, r;
      repr, shape := {}, Nil;
    }

    /** All fields of the tree's nodes and its two sentinels. */
    ghost function Snap(): Mem
      reads this`repr, repr, nil, root
    {
      map n | n in repr + {nil, root} :: Cell(n.red, n.parent, n.left, n.right)
    }

    /** The heap holds the tree Plug(c, t). */
    ghost predicate View(c: Ctx, t: Shape)
      reads this`repr, repr, nil, root
    {
      nil != root && nil !in repr && root !in repr && Good(Snap(), nil, root, c, t)
    }

    /** The tree is a red-black tree: linked both ways, coloured and balanced by the rules
        check_tree asserts, and sorted. */
    ghost predicate Valid()
      reads this, repr, nil, root
    {
      TotalPreorder(compare) && View(Top, shape) && RbTop(shape) && Sorted(compare, Inorder(shape))
    }

    method SetRed(x: Node, red: bool)
      requires x in repr + {nil, root}
      modifies x`red
      ensures Snap() == old(Snap())[x := old(Snap())[x].(red := red)]
    {
      x.red := red;
    }

    method SetParent(x: Node, p: Node)
      requires x in repr + {nil, root}
      modifies x`parent
      ensures Snap() == old(Snap())[x := old(Snap())[x].(parent := p)]
    {
      x.parent := p;
    }

    method SetKid(x: Node, d: Dir, k: Node)
      requires x in repr + {nil, root}
      modifies x`left, x`right
      ensures Snap() == old(Snap())[x := old(Snap())[x].SetKid(d, k)]
    {
      if d == Left { x.left := k; } else { x.right := k; }
    }

    /** y leaves the set of tree nodes; its fields stay. */
    ghost method Forget(y: Node)
      requires y in repr && y != nil && y != root
      modifies this`repr
      ensures repr == old(repr) - {y} && Snap() == old(Snap()) - {y}
    {
      repr := repr - {y};
    }

    /** z joins the set of tree nodes. */
    ghost method Admit(z: Node)
      requires z !in repr && z != nil && z != root
      modifies this`repr
      ensures repr == old(repr) + {z} && Snap() == old(Snap())[z := Cell(z.red, z.parent, z.left, z.right)]
    {
      repr := repr + {z};
    }

    lemma {:induction false} SnapAt(x: Node)
      ensures Snap().Keys == repr + {nil, root}
      ensures x in repr + {nil, root} ==> Snap()[x] == Cell(x.red, x.parent, x.left, x.right)
    {
    }

    /** x->red = red */
    method Paint(x: Node, red: bool, ghost c: Ctx, ghost t: Shape)
      requires View(c, t) && t.Tree? && t.n == x
      modifies x`red
      ensures View(c, t.(red := red))
    {
      GoodPaint(Snap(), nil, root, c, t, red);
      SetRed(x, red);
    }

    /** The body of FUNC_ROTATE. */
    method RotateLinks(d: Dir, x: Node)
      requires x in repr && x.Kid(Opp(d)) in repr && x.Kid(Opp(d)) != x && x.parent in repr + {root} &&
        x.Kid(Opp(d)).Kid(d) in repr + {nil, root}
      modifies repr, root
      ensures Snap() == Rotated(old(Snap()), nil, d, x)
    {
      hide RbTree.Snap;
      var y := x.Kid(Opp(d));
      SnapAt(x); SnapAt(y); SnapAt(x.parent);
      SetKid(x, Opp(d), y.Kid(d));
      if y.Kid(d) != nil {
        SetParent(y.Kid(d), x);
      }
      SnapAt(x);
      SetParent(y, x.parent);
      SnapAt(x.parent);
      SetKid(x.parent, if x == x.parent.Kid(d) then d else Opp(d), y);
      SetKid(y, d, x);
      SetParent(x, y);
    }

    /** FUNC_ROTATE: the child of x away from d takes x's place, x becomes its child towards d. */
    method Rotate(
      d: Dir, x: Node, ghost c: Ctx, ghost rx: bool, ghost a: Shape, ghost y: Node, ghost ry: bool, ghost b: Shape,
      ghost g: Shape)
      requires View(c, Mk(d, rx, a, x, Mk(d, ry, b, y, g)))
      modifies repr, root
      ensures View(c, Mk(d, ry, Mk(d, rx, a, x, b), y, g))
    {
      hide RbTree.Snap, Good, Rotated;
      GoodRotate(Snap(), nil, root, d, c, x, rx, a, y, ry, b, g);
      SnapAt(x); SnapAt(y);
      RotateLinks(d, x);
    }
  }

  /** rb_tree_create; treeGiven, nilGiven and rootGiven are the answers of its three calls of kmalloc. */
  method RbTreeCreate(compare: (int, int) -> int, treeGiven: bool, nilGiven: bool, rootGiven: bool)
    returns (tree: RbTree?)
    requires TotalPreorder(compare)
    ensures tree == null <==> !(treeGiven && nilGiven && rootGiven)
    ensures tree != null ==>
      fresh(tree) && fresh(tree.nil) && fresh(tree.root) && tree.compare == compare && tree.Valid() &&
      Inorder(tree.shape) == []
  {
    if !treeGiven || !nilGiven || !rootGiven {
      return null;
    }
    tree := new RbTree(compare);
  }
}
