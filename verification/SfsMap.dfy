/**
 Block maps of the simple file system: direct, indirect and double-indirect entries as the
 kernel reads them, and what the image builder keeps true of them.
 */
module SfsMap {

  const NDIRECT := 12
  const NENTRY := 1024
  /** The first block behind the indirect one, and the largest number of blocks of a file. */
  const L1 := 1036
  const LN := 32768

  /** What the image builder keeps of a file.  Cached index blocks are named by their number,
      so l1 and l2 are numbers too, 0 standing for NULL. */
  datatype File = File(nblks: int, direct: seq<int>, indirect: int, dbl: int, l1: int, l2: int)

  /** The contents of index blocks. */
  type Blocks = map<int, seq<int>>

  /** What a block number was handed out for. */
  datatype Role =
    | Inode
    | Data(file: int, index: int)
    | Single(file: int)
    | Double(file: int)
    | Leaf(file: int, part: int)

  /** sfs_bmap_get_sub_nolock without create. */
  function Entry(blocks: Blocks, ent: int, index: int): int {
    if ent == 0 then 0
    else if ent in blocks && 0 <= index < |blocks[ent]| then blocks[ent][index] else 0
  }

  /** sfs_bmap_get_nolock without create: the number of a block of a file, 0 if there is none. */
  function BmapGet(f: File, blocks: Blocks, index: int): int
    requires |f.direct| == NDIRECT && index >= 0
  {
    if index < NDIRECT then f.direct[index]
    else if index < L1 then Entry(blocks, f.indirect, index - NDIRECT)
    else Entry(blocks, Entry(blocks, f.dbl, (index - L1) / NENTRY), (index - L1) % NENTRY)
  }

  ghost predicate HasRole(roles: map<int, Role>, x: int, r: Role) {
    x in roles && roles[x] == r
  }

  /** The index blocks of a file with n blocks exist exactly as far as they are needed. */
  ghost predicate Indexed(id: int, f: File, n: int, blocks: Blocks, roles: map<int, Role>) {
    (f.indirect != 0 <==> n > NDIRECT) && (f.dbl != 0 <==> n > L1) &&
    (f.indirect != 0 ==> HasRole(roles, f.indirect, Single(id))) &&
    (f.dbl != 0 ==> HasRole(roles, f.dbl, Double(id))) &&
    (forall q | 0 <= q < NENTRY :: Entry(blocks, f.dbl, q) != 0 <==> n > L1 + q * NENTRY) &&
    (forall q | 0 <= q < NENTRY :: Entry(blocks, f.dbl, q) != 0 ==>
      HasRole(roles, Entry(blocks, f.dbl, q), Leaf(id, q)))
  }

  /** The cached pointers are those that the next append uses, unless it needs a new block. */
  ghost predicate Cached(f: File, n: int, blocks: Blocks) {
    f.l2 == f.dbl &&
    (NDIRECT < n <= L1 ==> f.l1 == f.indirect) &&
    (n > L1 ==> f.l1 == Entry(blocks, f.dbl, (n - 1 - L1) / NENTRY))
  }

  /** The file maps exactly the numbers in d, in order. */
  ghost predicate Maps(f: File, blocks: Blocks, d: seq<int>)
    requires |f.direct| == NDIRECT
  {
    forall i | 0 <= i < L1 + NENTRY * NENTRY :: BmapGet(f, blocks, i) == if i < |d| then d[i] else 0
  }

  ghost predicate FileOk(id: int, f: File, blocks: Blocks, d: seq<int>, roles: map<int, Role>) {
    |f.direct| == NDIRECT && f.nblks == |d| <= LN &&
    Indexed(id, f, |d|, blocks, roles) && Cached(f, |d|, blocks) && Maps(f, blocks, d)
  }

  /** Index blocks are whole blocks, and every cached block is an index block. */
  ghost predicate BlocksOk(blocks: Blocks, roles: map<int, Role>) {
    (forall x | x in blocks :: |blocks[x]| == NENTRY && x != 0) &&
    (forall x | x in roles :: x in blocks <==> roles[x].Single? || roles[x].Double? || roles[x].Leaf?) &&
    (forall x | x in blocks :: x in roles)
  }

  function Zeros(): (b: seq<int>)
    ensures |b| == NENTRY && forall i | 0 <= i < NENTRY :: b[i] == 0
  {
    seq(NENTRY, (i: int) => 0)
  }

  /** Whose block it is. */
  function Owner(r: Role): int {
    match r
    case Inode => 0
    case Data(f, _) => f
    case Single(f) => f
    case Double(f) => f
    case Leaf(f, _) => f
  }

  // What does not matter to a file

  /** Another file's blocks, new roles and new blocks leave a file as it is. */
  lemma {:induction false} Unaffected(
    id: int, f: File, blocks: Blocks, d: seq<int>, roles: map<int, Role>, blocks': Blocks, roles': map<int, Role>)
    requires FileOk(id, f, blocks, d, roles) && BlocksOk(blocks, roles)
    requires forall x | x in roles :: x in roles' && roles'[x] == roles[x]
    requires forall x | x in blocks && Owner(roles[x]) == id :: x in blocks' && blocks'[x] == blocks[x]
    ensures FileOk(id, f, blocks', d, roles')
  {
    SameEntries(id, f, blocks, d, roles, blocks', roles');
    forall i | 0 <= i < L1 + NENTRY * NENTRY
      ensures BmapGet(f, blocks', i) == BmapGet(f, blocks, i)
    {
      SameLookup(id, f, blocks, d, roles, blocks', roles', i);
    }
  }

  lemma {:induction false} SameEntries(
    id: int, f: File, blocks: Blocks, d: seq<int>, roles: map<int, Role>, blocks': Blocks, roles': map<int, Role>)
    requires Indexed(id, f, |d|, blocks, roles) && BlocksOk(blocks, roles)
    requires forall x | x in blocks && Owner(roles[x]) == id :: x in blocks' && blocks'[x] == blocks[x]
    ensures forall q :: Entry(blocks', f.dbl, q) == Entry(blocks, f.dbl, q)
    ensures forall q :: Entry(blocks', f.indirect, q) == Entry(blocks, f.indirect, q)
  {
  }

  lemma {:induction false} SameLookup(
    id: int, f: File, blocks: Blocks, d: seq<int>, roles: map<int, Role>, blocks': Blocks, roles': map<int, Role>,
    i: int)
    requires |f.direct| == NDIRECT && Indexed(id, f, |d|, blocks, roles) && BlocksOk(blocks, roles)
    requires forall x | x in blocks && Owner(roles[x]) == id :: x in blocks' && blocks'[x] == blocks[x]
    requires 0 <= i < L1 + NENTRY * NENTRY
    ensures BmapGet(f, blocks', i) == BmapGet(f, blocks, i)
  {
    SameEntries(id, f, blocks, d, roles, blocks', roles');
    if i >= L1 {
      var q := (i - L1) / NENTRY;
      var leaf := Entry(blocks, f.dbl, q);
      assert 0 <= q < NENTRY;
      if leaf != 0 {
        assert HasRole(roles, leaf, Leaf(id, q));
      }
    }
  }

  // Appending: first the index blocks for one more block, then its entry

  /** All index blocks for the next append are there, and l1 and l2 point to them. */
  ghost predicate Ready(id: int, f: File, blocks: Blocks, d: seq<int>, roles: map<int, Role>) {
    |f.direct| == NDIRECT && f.nblks == |d| < LN &&
    Indexed(id, f, |d| + 1, blocks, roles) && Cached(f, |d| + 1, blocks) && Maps(f, blocks, d)
  }

  /** Blocks that are not indexed by a fresh entry: nothing to prepare. */
  lemma {:induction false} ReadyAsIs(id: int, f: File, blocks: Blocks, d: seq<int>, roles: map<int, Role>)
    requires FileOk(id, f, blocks, d, roles) && |d| < LN && |d| != NDIRECT && (|d| < L1 || (|d| - L1) % NENTRY != 0)
    ensures Ready(id, f, blocks, d, roles)
  {
    hide Maps, BmapGet, Entry, HasRole;
    var n := |d|;
    if n > L1 {
      LeafDivides(n);
      assert (n - L1) / NENTRY == (n - 1 - L1) / NENTRY;
    }
  }

  lemma {:induction false} LeafDivides(n: int)
    requires n >= L1 && (n - L1) % NENTRY != 0
    ensures forall q :: n > L1 + q * NENTRY <==> n + 1 > L1 + q * NENTRY
  {
  }

  /** A new indirect block. */
  lemma {:induction false} NewSingle(id: int, f: File, blocks: Blocks, d: seq<int>, roles: map<int, Role>, x: int)
    requires FileOk(id, f, blocks, d, roles) && BlocksOk(blocks, roles) && |d| == NDIRECT && x != 0 && x !in roles
    ensures Ready(id, f.(indirect := x, l1 := x), blocks[x := Zeros()], d, roles[x := Single(id)])
  {
    var f', blocks', roles' := f.(indirect := x, l1 := x), blocks[x := Zeros()], roles[x := Single(id)];
    assert x !in blocks;
    SameEntries(id, f, blocks, d, roles, blocks', roles');
    forall i | 0 <= i < L1 + NENTRY * NENTRY ensures BmapGet(f', blocks', i) == BmapGet(f, blocks, i) {
      SameLookup(id, f, blocks, d, roles, blocks', roles', i);
    }
  }

  /** A new block below the double-indirect block y, which is new itself for the first of them. */
  lemma {:induction false} NewLeaf(id: int, f: File, blocks: Blocks, d: seq<int>, roles: map<int, Role>, y: int, z: int)
    requires FileOk(id, f, blocks, d, roles) && BlocksOk(blocks, roles) && |d| >= L1 && (|d| - L1) % NENTRY == 0 &&
      |d| < LN
    requires z != 0 && z !in roles && y != 0 && y != z && (if |d| == L1 then y !in roles else y == f.dbl)
    ensures |d| > L1 ==> y in blocks
    ensures
      var q := (|d| - L1) / NENTRY;
      var table := if |d| == L1 then Zeros() else blocks[y];
      0 <= q < |table| &&
      Ready(id, f.(dbl := y, l2 := y, l1 := z), blocks[y := table[q := z]][z := Zeros()], d,
        roles[y := Double(id)][z := Leaf(id, q)])
  {
    var q := (|d| - L1) / NENTRY;
    if |d| > L1 {
      assert HasRole(roles, y, Double(id));
    }
    var table := if |d| == L1 then Zeros() else blocks[y];
    var f', blocks', roles' :=
      f.(dbl := y, l2 := y, l1 := z), blocks[y := table[q := z]][z := Zeros()],
      roles[y := Double(id)][z := Leaf(id, q)];
    forall p | 0 <= p < NENTRY ensures Entry(blocks', y, p) == if p == q then z else Entry(blocks, f.dbl, p) {
    }
  }

  lemma {:induction false} WriteDirect(id: int, f: File, blocks: Blocks, d: seq<int>, roles: map<int, Role>, ino: int)
    requires Ready(id, f, blocks, d, roles) && |d| < NDIRECT
    ensures FileOk(id, f.(direct := f.direct[|d| := ino], nblks := f.nblks + 1), blocks, d + [ino], roles)
  {
    hide Entry, HasRole;
    var f' := f.(direct := f.direct[|d| := ino], nblks := f.nblks + 1);
    forall i | 0 <= i < L1 + NENTRY * NENTRY
      ensures BmapGet(f', blocks, i) == if i < |d| + 1 then (d + [ino])[i] else 0
    {
      assert BmapGet(f, blocks, i) == if i < |d| then d[i] else 0;
    }
  }

  lemma {:induction false} WriteSingle(id: int, f: File, blocks: Blocks, d: seq<int>, roles: map<int, Role>, ino: int)
    requires Ready(id, f, blocks, d, roles) && BlocksOk(blocks, roles) && NDIRECT <= |d| < L1
    ensures
      var k := |d| - NDIRECT;
      f.l1 in blocks && |blocks[f.l1]| == NENTRY &&
      FileOk(id, f.(nblks := f.nblks + 1), blocks[f.l1 := blocks[f.l1][k := ino]], d + [ino], roles)
  {
    var n, x := |d|, f.indirect;
    assert HasRole(roles, x, Single(id));
    var blocks' := blocks[x := blocks[x][n - NDIRECT := ino]];
    forall q ensures Entry(blocks', f.dbl, q) == Entry(blocks, f.dbl, q) {
    }
    var f' := f.(nblks := f.nblks + 1);
    forall i | 0 <= i < L1 + NENTRY * NENTRY
      ensures BmapGet(f', blocks', i) == if i < n + 1 then (d + [ino])[i] else 0
    {
      assert BmapGet(f, blocks, i) == if i < n then d[i] else 0;
    }
  }

  lemma {:induction false} WriteLeaf(id: int, f: File, blocks: Blocks, d: seq<int>, roles: map<int, Role>, ino: int)
    requires Ready(id, f, blocks, d, roles) && BlocksOk(blocks, roles) && L1 <= |d|
    ensures
      var k := (|d| - L1) % NENTRY;
      f.l1 in blocks && |blocks[f.l1]| == NENTRY &&
      FileOk(id, f.(nblks := f.nblks + 1), blocks[f.l1 := blocks[f.l1][k := ino]], d + [ino], roles)
  {
    var n, z := |d|, f.l1;
    var q, k := (n - L1) / NENTRY, (n - L1) % NENTRY;
    assert 0 <= q < NENTRY && n + 1 > L1 + q * NENTRY;
    assert z == Entry(blocks, f.dbl, q) && HasRole(roles, z, Leaf(id, q));
    var blocks' := blocks[z := blocks[z][k := ino]];
    forall p ensures Entry(blocks', f.dbl, p) == Entry(blocks, f.dbl, p) {
    }
    var f' := f.(nblks := f.nblks + 1);
    forall i | 0 <= i < L1 + NENTRY * NENTRY
      ensures BmapGet(f', blocks', i) == if i < n + 1 then (d + [ino])[i] else 0
    {
      assert BmapGet(f, blocks, i) == if i < n then d[i] else 0;
      if i >= L1 {
        assert 0 <= (i - L1) / NENTRY < NENTRY;
      }
    }
  }
}
