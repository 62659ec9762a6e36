/** The image builder: block numbers from a counter, cached index blocks, appending to files. */
module Sfs {
  import opened Common
  import opened SfsMap

  const HASH_LIST_SIZE := 1024

  /** hash32, in 32-bit arithmetic. */
  function Hash32(val: int): int {
    val * 0x9e370001 % 0x1_0000_0000 / 0x40_0000
  }

  /** At most SFS_MAX_NBLKS blocks are used. */
  function Usable(size: int): int {
    if size > 1024 * 512 then 1024 * 512 else size
  }

  /** The first block behind the bitmap, which begins at block 2 and has 2^15 bits a block. */
  function FirstFree(ninos: int): int {
    2 + (ninos + 32767) / 32768
  }

  /** create_sfs: an image that is too small for its bitmap is refused. */
  method CreateSfs(size: int)
    returns (img: Image?)
    ensures img == null <==> FirstFree(Usable(size)) >= Usable(size)
    ensures img != null ==>
      fresh(img) && img.Valid() && img.ninos == Usable(size) && img.nextIno == FirstFree(Usable(size)) &&
      img.files.Keys == {1} && img.data == map[1 := []] && img.roles == map[1 := Inode]
  {
    if FirstFree(Usable(size)) >= Usable(size) {
      return null;
    }
    img := new Image(size);
  }

  /** The index blocks of a file with n blocks: the indirect one, the double-indirect one and its leaves. */
  function Indexes(n: int): int {
    (if n > NDIRECT then 1 else 0) + (if n > L1 then 1 + (n - L1 + NENTRY - 1) / NENTRY else 0)
  }

  /** How many of them block n of a file is the first to need. */
  function NewIndexes(n: int): int {
    Indexes(n + 1) - Indexes(n)
  }

  lemma {:induction false} NewIndexesAre(n: int)
    requires 0 <= n
    ensures n < NDIRECT ==> NewIndexes(n) == 0
    ensures NDIRECT <= n < L1 ==> NewIndexes(n) == if n == NDIRECT then 1 else 0
    ensures n == L1 ==> NewIndexes(n) == 2
    ensures n > L1 ==> NewIndexes(n) == if (n - L1) % NENTRY == 0 then 1 else 0
  {
    if n > L1 {
      var q, r := (n - L1) / NENTRY, (n - L1) % NENTRY;
      assert n - L1 == NENTRY * q + r;
    }
  }

  /** How an append ends; the builder gives up after either error. */
  datatype Outcome = Done | TooBig | NoSpace

  ghost predicate Distinct(l: seq<int>) {
    forall i, j | 0 <= i < j < |l| :: l[i] != l[j]
  }

  /** Every cached block is in the first bucket once, and the other buckets stay empty: blocks are
      filed under the number asked for, which is always 0. */
  ghost predicate Bucketed(buckets: seq<seq<int>>, blocks: Blocks) {
    |buckets| == HASH_LIST_SIZE && Distinct(buckets[0]) && (forall x :: x in buckets[0] <==> x in blocks) &&
    forall h | 0 < h < HASH_LIST_SIZE :: buckets[h] == []
  }

  lemma {:induction false} BucketNew(buckets: seq<seq<int>>, blocks: Blocks, x: int, b: seq<int>)
    requires Bucketed(buckets, blocks) && x !in blocks
    ensures Bucketed(buckets[0 := [x] + buckets[0]], blocks[x := b])
  {
    var l := [x] + buckets[0];
    forall y ensures y in l <==> y == x || y in buckets[0] {
    }
    forall i, j | 0 <= i < j < |l| ensures l[i] != l[j] {
      assert l[j] in buckets[0];
    }
  }

  ghost predicate RolesOk(files: map<int, File>, data: map<int, seq<int>>, roles: map<int, Role>, next: int) {
    files.Keys == data.Keys &&
    (forall x | x in roles :: 0 < x < next) &&
    (forall id | id in files :: HasRole(roles, id, Inode)) &&
    (forall id, i | id in data && 0 <= i < |data[id]| :: HasRole(roles, data[id][i], Data(id, i)))
  }

  /** The bitmap, whose blocks begin at 2, ends before every number handed out but the root's. */
  ghost predicate BehindMap(ninos: int, next: int, roles: map<int, Role>) {
    32768 * (next - 2) >= ninos && HasRole(roles, 1, Inode) &&
    forall x | x in roles && x != 1 :: 32768 * (x - 2) >= ninos
  }

  /** All files but one. */
  ghost predicate OthersOk(
    id: int, files: map<int, File>, blocks: Blocks, data: map<int, seq<int>>, roles: map<int, Role>)
  {
    forall g | g in files && g != id :: g in data && FileOk(g, files[g], blocks, data[g], roles)
  }

  lemma {:induction false} OthersNew(
    id: int, files: map<int, File>, blocks: Blocks, data: map<int, seq<int>>, roles: map<int, Role>, x: int, r: Role)
    requires OthersOk(id, files, blocks, data, roles) && BlocksOk(blocks, roles) && x !in roles
    ensures OthersOk(id, files, blocks[x := Zeros()], data, roles[x := r])
    ensures OthersOk(id, files, blocks, data, roles[x := r])
  {
    hide FileOk;
    forall g | g in files && g != id
      ensures FileOk(g, files[g], blocks[x := Zeros()], data[g], roles[x := r])
      ensures FileOk(g, files[g], blocks, data[g], roles[x := r])
    {
      Unaffected(g, files[g], blocks, data[g], roles, blocks[x := Zeros()], roles[x := r]);
      Unaffected(g, files[g], blocks, data[g], roles, blocks, roles[x := r]);
    }
  }

  lemma {:induction false} OthersWrite(
    id: int, files: map<int, File>, blocks: Blocks, data: map<int, seq<int>>, roles: map<int, Role>, x: int,
    b: seq<int>)
    requires OthersOk(id, files, blocks, data, roles) && BlocksOk(blocks, roles) && x in roles && Owner(roles[x]) == id
    ensures OthersOk(id, files, blocks[x := b], data, roles)
  {
    hide FileOk;
    forall g | g in files && g != id ensures FileOk(g, files[g], blocks[x := b], data[g], roles) {
      Unaffected(g, files[g], blocks, data[g], roles, blocks[x := b], roles);
    }
  }

  class Image {
    const ninos: int
    var nextIno: int
    var unused: int
    var files: map<int, File>
    var blocks: Blocks
    var buckets: seq<seq<int>>
    /** The numbers appended to each file, and what every number was handed out for. */
    ghost var data: map<int, seq<int>>
    ghost var roles: map<int, Role>

    ghost predicate Base()
      reads this
    {
      0 < nextIno <= ninos && nextIno + unused == ninos && BlocksOk(blocks, roles) && Bucketed(buckets, blocks) &&
      RolesOk(files, data, roles, nextIno) && BehindMap(ninos, nextIno, roles)
    }

    ghost predicate Valid()
      reads this
    {
      Base() && forall id | id in files :: FileOk(id, files[id], blocks, data[id], roles)
    }

    /** The empty image: the super block, the root inode and the bitmap come first. */
    constructor (size: int)
      requires FirstFree(Usable(size)) < Usable(size)
      ensures Valid() && ninos == Usable(size) && nextIno == FirstFree(ninos)
      ensures files.Keys == {1} && data == map[1 := []] && roles == map[1 := Inode]
    {
      this.ninos, this.nextIno := Usable(size), FirstFree(Usable(size));
      this.unused := Usable(size) - FirstFree(Usable(size));
      var root := Fresh();
      files, blocks, buckets := map[1 := root], map[], seq(HASH_LIST_SIZE, (i: int) => []);
      data, roles := map[1 := []], map[1 := Inode];
      new;
      FreshOk(1, blocks, roles);
    }

    /** alloc_cache_inode for a new file. */
    method AddInode()
      returns (ino: Option<int>)
      requires Valid()
      modifies this
      ensures ino.None? <==> old(nextIno) == ninos
      ensures ino.Some? ==>
        Valid() && ino.value == old(nextIno) && ino.value !in old(files) && data == old(data)[ino.value := []] &&
        roles == old(roles)[ino.value := Inode]
    {
      hide BlocksOk, Bucketed, FileOk;
      ghost var roles0 := roles;
      ino := AllocIno(Inode);
      if ino.Some? {
        forall g | g in files ensures FileOk(g, files[g], blocks, data[g], roles) {
          Unaffected(g, files[g], blocks, data[g], roles0, blocks, roles);
        }
        FreshOk(ino.value, blocks, roles);
        files := files[ino.value := Fresh()];
        data := data[ino.value := []];
      }
    }

    /** One turn of the copying loops: a number for the data, then the append. */
    method AppendData(id: int)
      returns (r: Outcome)
      requires Valid() && id in files
      modifies this
      ensures var n := |old(data)[id]|;
              var left := ninos - old(nextIno);
              (r == TooBig <==> n >= LN && left > 0) &&
              (r == NoSpace <==> left == 0 || (n < LN && left < 1 + NewIndexes(n))) &&
              (r == Done ==> nextIno == old(nextIno) + 1 + NewIndexes(n))
      ensures r == Done ==>
        Valid() && data == old(data)[id := old(data)[id] + [old(nextIno)]] &&
        (forall x | x in old(roles) :: HasRole(roles, x, old(roles)[x]))
    {
      hide BlocksOk, Bucketed, FileOk, NewIndexes;
      ghost var roles0 := roles;
      NewIndexesAre(|data[id]|);
      var ino := AllocIno(Data(id, |data[id]|));
      if ino.None? {
        return NoSpace;
      }
      forall g | g in files ensures FileOk(g, files[g], blocks, data[g], roles) {
        Unaffected(g, files[g], blocks, data[g], roles0, blocks, roles);
      }
      ghost var roles1 := roles;
      r := AppendBlock(id, ino.value);
      forall x | r == Done && x in roles0 ensures HasRole(roles, x, roles0[x]) {
        assert x in roles1 && HasRole(roles, x, roles1[x]);
      }
    }

    /** sfs_alloc_ino; None stands for running out of disk space. */
    method AllocIno(ghost r: Role)
      returns (ino: Option<int>)
      requires Base() && (r.Inode? || r.Data?)
      modifies this`nextIno, this`unused, this`roles
      ensures ino.None? <==> old(nextIno) == ninos
      ensures ino.None? ==> nextIno == old(nextIno) && unused == old(unused) && roles == old(roles)
      ensures ino.Some? ==>
        Base() && ino.value == old(nextIno) == nextIno - 1 && ino.value !in old(roles) &&
        roles == old(roles)[ino.value := r]
    {
      if nextIno < ninos {
        unused := unused - 1;
        ino := Some(nextIno);
        roles := roles[nextIno := r];
        nextIno := nextIno + 1;
      } else {
        ino := None;
      }
    }

    /** alloc_cache_block for a new block number. */
    method AllocCacheBlock(ghost r: Role)
      returns (ino: Option<int>)
      requires Base() && (r.Single? || r.Double? || r.Leaf?)
      modifies this`nextIno, this`unused, this`roles, this`blocks, this`buckets
      ensures ino.None? <==> old(nextIno) == ninos
      ensures ino.Some? ==>
        Base() && ino.value == old(nextIno) == nextIno - 1 && ino.value !in old(roles) && ino.value != 0 &&
        roles == old(roles)[ino.value := r] && blocks == old(blocks)[ino.value := Zeros()]
    {
      if nextIno >= ninos {
        return None;
      }
      var x := nextIno;
      unused, nextIno := unused - 1, nextIno + 1;
      roles := roles[x := r];
      blocks := blocks[x := Zeros()];
      var h := Hash32(0);
      BucketNew(buckets, old(blocks), x, Zeros());
      buckets := buckets[h := [x] + buckets[h]];
      return Some(x);
    }

    /** search_cache_block: the walk along one bucket. */
    method SearchCacheBlock(ino: int)
      returns (found: bool)
      requires Bucketed(buckets, blocks)
      ensures found <==> ino in blocks && Hash32(ino) == 0
    {
      var l := buckets[Hash32(ino)];
      var i := 0;
      while i < |l| && l[i] != ino
        invariant 0 <= i <= |l| && ino !in l[..i]
      {
        i := i + 1;
      }
      assert i == |l| ==> l[..i] == l;
      found := i < |l|;
    }

    /** update_cache: the index block behind an entry, a new one if the entry is 0.  It fails when no
        number is left, or when the cached pointer is stale and the search misses the block. */
    method UpdateCache(cb: int, ino: int, ghost r: Role)
      returns (ok: bool, ino': int)
      requires Base() && (r.Single? || r.Double? || r.Leaf?)
      modifies this`nextIno, this`unused, this`roles, this`blocks, this`buckets
      ensures ok <==> if ino == 0 then old(nextIno) < ninos else cb == ino || (ino in old(blocks) && Hash32(ino) == 0)
      ensures ok ==> Base()
      ensures ok && ino != 0 ==> ino' == ino && roles == old(roles) && blocks == old(blocks) && nextIno == old(nextIno)
      ensures ok && ino == 0 ==>
        ino' == old(nextIno) == nextIno - 1 && ino' !in old(roles) && ino' != 0 &&
        roles == old(roles)[ino' := r] && blocks == old(blocks)[ino' := Zeros()]
    {
      if ino == 0 {
        var x := AllocCacheBlock(r);
        return x.Some?, if x.Some? then x.value else 0;
      } else if cb != ino {
        var found := SearchCacheBlock(ino);
        return found, ino;
      }
      return true, ino;
    }

    /** __append_block */
    method AppendBlock(id: int, ino: int)
      returns (r: Outcome)
      requires Valid() && id in files && HasRole(roles, ino, Data(id, |data[id]|))
      modifies this
      ensures r == TooBig <==> |old(data)[id]| >= LN
      ensures r == NoSpace <==> |old(data)[id]| < LN && ninos - old(nextIno) < NewIndexes(|old(data)[id]|)
      ensures r == Done ==> nextIno == old(nextIno) + NewIndexes(|old(data)[id]|)
      ensures r == Done ==>
        Valid() && data == old(data)[id := old(data)[id] + [ino]] &&
        (forall x | x in old(roles) :: HasRole(roles, x, old(roles)[x]))
    {
      hide FileOk, BlocksOk, Bucketed, OthersOk, NewIndexes;
      NewIndexesAre(|data[id]|);
      Split(id, files, blocks, data, roles);
      var n := files[id].nblks;
      FileLength(id, files[id], blocks, data[id], roles);
      if n >= LN {
        return TooBig;
      }
      if n < NDIRECT {
        AppendDirect(id, ino);
      } else if n < L1 {
        var ok := AppendSingle(id, ino);
        if !ok {
          return NoSpace;
        }
      } else {
        var ok := AppendDouble(id, ino);
        if !ok {
          return NoSpace;
        }
      }
      return Done;
    }

    method AppendDirect(id: int, ino: int)
      requires Valid() && id in files && HasRole(roles, ino, Data(id, |data[id]|)) && files[id].nblks < NDIRECT
      modifies this
      ensures Valid() && data == old(data)[id := old(data)[id] + [ino]] && roles == old(roles)
      ensures nextIno == old(nextIno)
    {
      hide BlocksOk, Bucketed, Maps, Indexed, Cached;
      var f := files[id];
      ReadyAsIs(id, f, blocks, data[id], roles);
      WriteDirect(id, f, blocks, data[id], roles, ino);
      f := f.(direct := f.direct[f.nblks := ino], nblks := f.nblks + 1);
      files := files[id := f];
      data := data[id := data[id] + [ino]];
    }

    /** data[k] = v in the cached block x of the file id. */
    method PutEntry(ghost id: int, x: int, k: int, v: int)
      requires Base() && x in blocks && x in roles && Owner(roles[x]) == id && 0 <= k < |blocks[x]|
      requires OthersOk(id, files, blocks, data, roles)
      modifies this`blocks
      ensures Base() && blocks == old(blocks)[x := old(blocks)[x][k := v]] && OthersOk(id, files, blocks, data, roles)
    {
      hide OthersOk, RolesOk;
      OthersWrite(id, files, blocks, data, roles, x, blocks[x][k := v]);
      blocks := blocks[x := blocks[x][k := v]];
    }

    /** The end of __append_block: the file has one block more. */
    method Count(id: int, f: File, ghost ino: int)
      requires Base() && id in files && OthersOk(id, files, blocks, data, roles)
      requires FileOk(id, f.(nblks := f.nblks + 1), blocks, data[id] + [ino], roles)
      requires HasRole(roles, ino, Data(id, |data[id]|))
      modifies this`files, this`data
      ensures Valid() && data == old(data)[id := old(data)[id] + [ino]]
    {
      hide BlocksOk, Bucketed, FileOk;
      files := files[id := f.(nblks := f.nblks + 1)];
      data := data[id := data[id] + [ino]];
    }

    method AppendSingle(id: int, ino: int)
      returns (ok: bool)
      requires Valid() && id in files && HasRole(roles, ino, Data(id, |data[id]|)) && NDIRECT <= files[id].nblks < L1
      modifies this
      ensures ok <==> ninos - old(nextIno) >= NewIndexes(|old(data)[id]|)
      ensures ok ==> nextIno == old(nextIno) + NewIndexes(|old(data)[id]|)
      ensures ok ==> Valid() && data == old(data)[id := old(data)[id] + [ino]]
      ensures ok ==> forall x | x in old(roles) :: HasRole(roles, x, old(roles)[x])
    {
      hide BlocksOk, Bucketed, Maps, Indexed, Cached, OthersOk, FileOk, NewIndexes;
      Split(id, files, blocks, data, roles);
      var f := files[id];
      FileLength(id, f, blocks, data[id], roles);
      NewIndexesAre(|data[id]|);
      SingleEntry(id, f, blocks, data[id], roles);
      ghost var blocks0, roles0 := blocks, roles;
      var x;
      ok, x := UpdateCache(f.l1, f.indirect, Single(id));
      if !ok {
        return;
      }
      if f.indirect == 0 {
        NewSingle(id, f, blocks0, data[id], roles0, x);
        OthersNew(id, files, blocks0, data, roles0, x, Single(id));
      } else {
        ReadyAsIs(id, f, blocks, data[id], roles);
      }
      f := f.(l1 := x, indirect := x);
      ReadySingle(id, f, blocks, data[id], roles);
      WriteSingle(id, f, blocks, data[id], roles, ino);
      PutEntry(id, x, f.nblks - NDIRECT, ino);
      Count(id, f, ino);
    }

    method AppendDouble(id: int, ino: int)
      returns (ok: bool)
      requires Valid() && id in files && HasRole(roles, ino, Data(id, |data[id]|)) && L1 <= files[id].nblks < LN
      modifies this
      ensures ok <==> ninos - old(nextIno) >= NewIndexes(|old(data)[id]|)
      ensures ok ==> nextIno == old(nextIno) + NewIndexes(|old(data)[id]|)
      ensures ok ==> Valid() && data == old(data)[id := old(data)[id] + [ino]]
      ensures ok ==> forall x | x in old(roles) :: HasRole(roles, x, old(roles)[x])
    {
      hide BlocksOk, Bucketed, Maps, Indexed, Cached, OthersOk, FileOk, NewIndexes;
      Split(id, files, blocks, data, roles);
      FileLength(id, files[id], blocks, data[id], roles);
      var f;
      ok, f := PrepareLeaf(id);
      if !ok {
        return;
      }
      ReadyLeaf(id, f, blocks, data[id], roles);
      WriteLeaf(id, f, blocks, data[id], roles, ino);
      PutEntry(id, f.l1, (f.nblks - L1) % NENTRY, ino);
      Count(id, f, ino);
    }

    /** The two calls of update_cache for an entry behind the double-indirect block. */
    method PrepareLeaf(id: int)
      returns (ok: bool, f: File)
      requires Valid() && id in files && L1 <= files[id].nblks < LN && OthersOk(id, files, blocks, data, roles)
      modifies this`nextIno, this`unused, this`roles, this`blocks, this`buckets
      ensures ok <==> ninos - old(nextIno) >= NewIndexes(|data[id]|)
      ensures ok ==> nextIno == old(nextIno) + NewIndexes(|data[id]|)
      ensures ok ==>
        Base() && OthersOk(id, files, blocks, data, roles) && Ready(id, f, blocks, data[id], roles) &&
        forall x | x in old(roles) :: HasRole(roles, x, old(roles)[x])
    {
      hide BlocksOk, Bucketed, Maps, Indexed, Cached, OthersOk, FileOk, Ready, NewIndexes;
      f := files[id];
      ghost var d := data[id];
      FileLength(id, f, blocks, d, roles);
      NewIndexesAre(|d|);
      DoubleEntry(id, f, blocks, d, roles);
      var q := (f.nblks - L1) / NENTRY;
      ghost var f0, blocks0, roles0 := f, blocks, roles;
      var y;
      ok, y := UpdateCache(f.l2, f.dbl, Double(id));
      if !ok {
        return;
      }
      if f.dbl == 0 {
        OthersNew(id, files, blocks0, data, roles0, y, Double(id));
      }
      f := f.(l2 := y, dbl := y);
      ghost var blocks1, roles1 := blocks, roles;
      var slot := blocks[y][q];
      var z;
      ok, z := UpdateCache(f.l1, slot, Leaf(id, q));
      if !ok {
        return;
      }
      if slot == 0 {
        OthersNew(id, files, blocks1, data, roles1, z, Leaf(id, q));
        NewLeaf(id, f0, blocks0, d, roles0, y, z);
      } else {
        ReadyAsIs(id, f0, blocks0, d, roles0);
      }
      f := f.(l1 := z);
      PutEntry(id, y, q, z);
      assert slot != 0 ==> blocks1[y][q := slot] == blocks1[y] && blocks == blocks0 && f == f0;
      assert slot == 0 ==>
        blocks == blocks0[y := (if |d| == L1 then Zeros() else blocks0[y])[q := z]][z := Zeros()] &&
        roles == roles0[y := Double(id)][z := Leaf(id, q)];
    }
  }

  lemma {:induction false} DoubleEntry(id: int, f: File, blocks: Blocks, d: seq<int>, roles: map<int, Role>)
    requires FileOk(id, f, blocks, d, roles) && BlocksOk(blocks, roles) && L1 <= |d| < LN
    ensures f.dbl == 0 <==> |d| == L1
    ensures f.l2 == f.dbl
    ensures 0 <= (|d| - L1) / NENTRY < NENTRY
    ensures |d| > L1 ==>
      HasRole(roles, f.dbl, Double(id)) && f.dbl in blocks && |blocks[f.dbl]| == NENTRY &&
      (blocks[f.dbl][(|d| - L1) / NENTRY] == 0 <==> (|d| - L1) % NENTRY == 0) &&
      (blocks[f.dbl][(|d| - L1) / NENTRY] != 0 ==> f.l1 == blocks[f.dbl][(|d| - L1) / NENTRY])
  {
    hide Maps;
    if |d| > L1 {
      var q := (|d| - L1) / NENTRY;
      assert HasRole(roles, f.dbl, Double(id));
      assert Entry(blocks, f.dbl, q) == blocks[f.dbl][q];
      assert |d| > L1 + q * NENTRY <==> (|d| - L1) % NENTRY != 0;
      if (|d| - L1) % NENTRY != 0 {
        assert (|d| - 1 - L1) / NENTRY == q;
      }
    }
  }

  lemma {:induction false} ReadyLeaf(id: int, f: File, blocks: Blocks, d: seq<int>, roles: map<int, Role>)
    requires Ready(id, f, blocks, d, roles) && L1 <= |d|
    ensures f.nblks == |d| && HasRole(roles, f.l1, Leaf(id, (|d| - L1) / NENTRY))
  {
    var q := (|d| - L1) / NENTRY;
    assert 0 <= q < NENTRY && |d| + 1 > L1 + q * NENTRY;
    assert Entry(blocks, f.dbl, q) != 0;
  }

  function Fresh(): File {
    File(0, seq(NDIRECT, (i: int) => 0), 0, 0, 0, 0)
  }

  lemma {:induction false} FreshOk(id: int, blocks: Blocks, roles: map<int, Role>)
    ensures FileOk(id, Fresh(), blocks, [], roles)
  {
  }

  lemma {:induction false} SingleEntry(id: int, f: File, blocks: Blocks, d: seq<int>, roles: map<int, Role>)
    requires FileOk(id, f, blocks, d, roles) && NDIRECT <= |d| < L1
    ensures f.indirect == 0 <==> |d| == NDIRECT
    ensures f.indirect != 0 ==> f.l1 == f.indirect
  {
  }

  lemma {:induction false} ReadySingle(id: int, f: File, blocks: Blocks, d: seq<int>, roles: map<int, Role>)
    requires Ready(id, f, blocks, d, roles) && NDIRECT <= |d| < L1
    ensures HasRole(roles, f.indirect, Single(id)) && f.indirect == f.l1
  {
  }

  lemma {:induction false} Split(
    id: int, files: map<int, File>, blocks: Blocks, data: map<int, seq<int>>, roles: map<int, Role>)
    requires files.Keys == data.Keys
    requires forall g | g in files :: FileOk(g, files[g], blocks, data[g], roles)
    ensures OthersOk(id, files, blocks, data, roles)
  {
  }

  lemma {:induction false} FileLength(id: int, f: File, blocks: Blocks, d: seq<int>, roles: map<int, Role>)
    requires FileOk(id, f, blocks, d, roles)
    ensures |f.direct| == NDIRECT && f.nblks == |d| <= LN
  {
  }
}
