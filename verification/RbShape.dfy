/**
 The red-black tree of the kernel library, seen as a value.

 A Shape is the tree of node references with their colours, as it hangs below the
 fake root.  A Ctx is the same tree with one subtree cut out (a zipper): the heap
 code works at one place and climbs, so its state is always "this context, this
 subtree".  The mirrored left/right macros of the source become a Dir parameter.
 */
module RbShape {

  datatype Dir = Left | Right

  function Opp(d: Dir): Dir {
    if d == Left then Right else Left
  }

  /** struct rb_node.  `data` stands for the structure the node is embedded in,
      which is all a comparison function looks at and which no operation moves. */
  class Node {
    const data: int
    var red: bool
    var parent: Node
    var left: Node
    var right: Node

    constructor (data: int)
      ensures this.data == data
    {
      this.data := data;
      red := false;
      parent, left, right := this, this, this;
    }

    function Kid(d: Dir): Node
      reads this
    {
      if d == Left then left else right
    }
  }

  datatype Shape = Nil | Tree(red: bool, l: Shape, n: Node, r: Shape)

  datatype Ctx = Top | Step(up: Ctx, d: Dir, red: bool, n: Node, sib: Shape)

  /** The tree whose child towards `d` is `near` and whose other child is `far`. */
  function Mk(d: Dir, red: bool, near: Shape, n: Node, far: Shape): Shape {
    if d == Left then Tree(red, near, n, far) else Tree(red, far, n, near)
  }

  function Plug(c: Ctx, t: Shape): Shape
    decreases c
  {
    match c
    case Top => t
    case Step(up, d, red, n, sib) => Plug(up, Mk(d, red, t, n, sib))
  }

  lemma {:induction false} PlugStep(c: Ctx, t: Shape)
    requires c.Step?
    ensures Plug(c, t) == Plug(c.up, Mk(c.d, c.red, t, c.n, c.sib))
  {
  }

  function IsRed(t: Shape): bool {
    t.Tree? && t.red
  }

  function CRed(c: Ctx): bool {
    c.Step? && c.red
  }

  function Blacken(t: Shape): Shape {
    if t.Nil? then t else t.(red := false)
  }

  // ----- in-order sequence -----

  function Inorder(t: Shape): seq<Node> {
    match t
    case Nil => []
    case Tree(_, l, n, r) => Inorder(l) + [n] + Inorder(r)
  }

  function Before(c: Ctx): seq<Node> {
    match c
    case Top => []
    case Step(up, d, _, n, sib) =>
      if d == Left then Before(up) else Before(up) + Inorder(sib) + [n]
  }

  function After(c: Ctx): seq<Node> {
    match c
    case Top => []
    case Step(up, d, _, n, sib) =>
      if d == Left then [n] + Inorder(sib) + After(up) else After(up)
  }

  lemma {:induction false} Regroup(a: seq<Node>, b: seq<Node>, n: Node, s: seq<Node>, e: seq<Node>)
    ensures a + (b + [n] + s) + e == a + b + ([n] + s + e)
    ensures a + (b + [n] + s) + e == (a + b + [n]) + s + e
  {
  }

  lemma {:induction false} PlugInorder(c: Ctx, t: Shape)
    ensures Inorder(Plug(c, t)) == Before(c) + Inorder(t) + After(c)
    decreases c
  {
    match c
    case Top =>
    case Step(up, d, red, n, sib) =>
      var t1 := Mk(d, red, t, n, sib);
      PlugInorder(up, t1);
      if d == Left {
        Regroup(Before(up), Inorder(t), n, Inorder(sib), After(up));
      } else {
        Regroup(Before(up), Inorder(sib), n, Inorder(t), After(up));
      }
  }

  // ----- the nodes, each occurring once -----

  ghost function Nodes(t: Shape): set<Node> {
    match t
    case Nil => {}
    case Tree(_, l, n, r) => Nodes(l) + {n} + Nodes(r)
  }

  ghost function CNodes(c: Ctx): set<Node> {
    match c
    case Top => {}
    case Step(up, _, _, n, sib) => CNodes(up) + {n} + Nodes(sib)
  }

  ghost predicate Apart(t: Shape) {
    match t
    case Nil => true
    case Tree(_, l, n, r) =>
      n !in Nodes(l) && n !in Nodes(r) && Nodes(l) !! Nodes(r) && Apart(l) && Apart(r)
  }

  ghost predicate CApart(c: Ctx) {
    match c
    case Top => true
    case Step(up, _, _, n, sib) =>
      n !in CNodes(up) && n !in Nodes(sib) && Nodes(sib) !! CNodes(up) && Apart(sib) && CApart(up)
  }

  ghost predicate Whole(c: Ctx, t: Shape) {
    Apart(t) && CApart(c) && Nodes(t) !! CNodes(c)
  }

  lemma {:induction false} MkApart(d: Dir, red: bool, near: Shape, n: Node, far: Shape)
    ensures Nodes(Mk(d, red, near, n, far)) == Nodes(near) + {n} + Nodes(far)
    ensures Apart(Mk(d, red, near, n, far)) <==>
            n !in Nodes(near) && n !in Nodes(far) && Nodes(near) !! Nodes(far) && Apart(near) && Apart(far)
  {
  }

  lemma {:induction false} PlugNodes(c: Ctx, t: Shape)
    ensures Nodes(Plug(c, t)) == CNodes(c) + Nodes(t)
    decreases c
  {
    match c
    case Top =>
    case Step(up, d, red, n, sib) => PlugNodes(up, Mk(d, red, t, n, sib));
  }

  lemma {:induction false} PlugWhole(c: Ctx, t: Shape)
    ensures Apart(Plug(c, t)) <==> Whole(c, t)
    decreases c
  {
    match c
    case Top =>
    case Step(up, d, red, n, sib) => PlugWhole(up, Mk(d, red, t, n, sib));
  }

  lemma {:induction false} InorderNodes(t: Shape)
    ensures forall x :: x in Inorder(t) ==> x in Nodes(t)
    ensures forall x :: x in Nodes(t) ==> x in Inorder(t)
  {
    match t
    case Nil =>
    case Tree(_, l, n, r) => InorderNodes(l); InorderNodes(r);
  }

  ghost predicate NoDup(s: seq<Node>) {
    forall i, j :: 0 <= i < j < |s| ==> s[i] != s[j]
  }

  lemma {:induction false} InorderNoDup(t: Shape)
    requires Apart(t)
    ensures NoDup(Inorder(t))
  {
    match t
    case Nil =>
    case Tree(_, l, n, r) =>
      InorderNoDup(l); InorderNoDup(r);
      InorderNodes(l); InorderNodes(r);
      forall x | x in Inorder(l) ensures x !in Inorder(r) {
        assert x in Nodes(l);
      }
      NoDupCat(Inorder(l), n, Inorder(r));
  }

  lemma {:induction false} NoDupCat(a: seq<Node>, n: Node, b: seq<Node>)
    requires NoDup(a) && NoDup(b)
    requires n !in a && n !in b && forall x :: x in a ==> x !in b
    ensures NoDup(a + [n] + b)
  {
    var s := a + [n] + b;
    forall i, j | 0 <= i < j < |s| ensures s[i] != s[j] {
      if j < |a| {
      } else if j == |a| {
        assert s[i] == a[i];
      } else {
        assert s[j] == b[j - |a| - 1];
        assert b[j - |a| - 1] in b;
        if i < |a| {
          assert s[i] == a[i] && a[i] in a;
        } else if i > |a| {
          assert s[i] == b[i - |a| - 1];
        }
      }
    }
  }

  // ----- the colour and height rules (check_tree) -----

  /** A tree of black height `h` (nil counts 1) with no red node above a red node. */
  predicate Rb(t: Shape, h: int) {
    match t
    case Nil => h == 1
    case Tree(red, l, _, r) =>
      var k := if red then h else h - 1;
      Rb(l, k) && Rb(r, k) && (red ==> !IsRed(l) && !IsRed(r))
  }

  /** A context that is a red-black tree once a subtree of black height `h`, black
      if the frame above it is red, is plugged in; its topmost node is black. */
  predicate CRb(c: Ctx, h: int) {
    match c
    case Top => true
    case Step(up, _, red, _, sib) =>
      Rb(sib, h) && (red ==> !IsRed(sib) && up.Step? && !up.red) && CRb(up, if red then h else h + 1)
  }

  function BlackHeight(t: Shape): int {
    match t
    case Nil => 1
    case Tree(red, l, _, _) => BlackHeight(l) + if red then 0 else 1
  }

  predicate RbTop(t: Shape) {
    !IsRed(t) && Rb(t, BlackHeight(t))
  }

  lemma {:induction false} RbHeight(t: Shape, h: int)
    requires Rb(t, h)
    ensures h == BlackHeight(t) && h >= 1
    ensures h == 1 && !IsRed(t) ==> t.Nil?
  {
    match t
    case Nil =>
    case Tree(red, l, _, _) => RbHeight(l, if red then h else h - 1);
  }

  lemma {:induction false} PlugRb(c: Ctx, t: Shape, h: int)
    requires Rb(t, h) && CRb(c, h)
    requires CRed(c) || c.Top? ==> !IsRed(t)
    ensures RbTop(Plug(c, t))
    decreases c
  {
    match c
    case Top => RbHeight(t, h);
    case Step(up, d, red, n, sib) => PlugRb(up, Mk(d, red, t, n, sib), if red then h else h + 1);
  }

  lemma {:induction false} UnplugRb(c: Ctx, t: Shape) returns (h: int)
    requires RbTop(Plug(c, t))
    ensures Rb(t, h) && CRb(c, h)
    ensures CRed(c) || c.Top? ==> !IsRed(t)
    decreases c
  {
    match c
    case Top => h := BlackHeight(t);
    case Step(up, d, red, n, sib) =>
      var k := UnplugRb(up, Mk(d, red, t, n, sib));
      h := if red then k else k - 1;
  }

  // ----- moving around -----

  function Cat(outer: Ctx, inner: Ctx): Ctx {
    match inner
    case Top => outer
    case Step(up, d, red, n, sib) => Step(Cat(outer, up), d, red, n, sib)
  }

  lemma {:induction false} PlugCat(outer: Ctx, inner: Ctx, t: Shape)
    ensures Plug(Cat(outer, inner), t) == Plug(outer, Plug(inner, t))
    decreases inner
  {
    match inner
    case Top =>
    case Step(up, d, red, n, sib) => PlugCat(outer, up, Mk(d, red, t, n, sib));
  }

  /** Every node of a tree is the root of a subtree in some context. */
  lemma {:induction false} Locate(t: Shape, x: Node) returns (c: Ctx, s: Shape)
    requires x in Nodes(t)
    ensures Plug(c, s) == t && s.Tree? && s.n == x
  {
    if t.n == x {
      c, s := Top, t;
    } else if x in Nodes(t.l) {
      var c0, s0 := Locate(t.l, x);
      var outer := Step(Top, Left, t.red, t.n, t.r);
      PlugCat(outer, c0, s0);
      c, s := Cat(outer, c0), s0;
    } else {
      var c0, s0 := Locate(t.r, x);
      var outer := Step(Top, Right, t.red, t.n, t.l);
      PlugCat(outer, c0, s0);
      c, s := Cat(outer, c0), s0;
    }
  }

  function Depth(c: Ctx): nat {
    match c
    case Top => 0
    case Step(up, _, _, _, _) => 1 + Depth(up)
  }
}
