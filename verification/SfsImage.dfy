/** Closing the image: the free-block bitmap, the index blocks, and reading the files back. */
module SfsImage {
  import opened SfsMap
  import opened Sfs

  const BITS := 32
  const BLKBITS := 32768

  /** A bitmap block: 32-bit words as sequences of bits, lowest first. */
  type Words = seq<seq<bool>>

  ghost predicate Whole(w: Words) {
    |w| == BLKBITS / BITS && forall k | 0 <= k < |w| :: |w[k]| == BITS
  }

  /** Bit j of a block. */
  predicate Bit(w: Words, j: int)
    requires Whole(w) && 0 <= j < BLKBITS
  {
    w[j / BITS][j % BITS]
  }

  function Blank(): (w: Words)
    ensures Whole(w) && forall j | 0 <= j < BLKBITS :: !Bit(w, j)
  {
    seq(BLKBITS / BITS, (k: int) => seq(BITS, (i: int) => false))
  }

  lemma {:induction false} SetBit(w: Words, j: int)
    requires Whole(w) && 0 <= j < BLKBITS
    ensures
      var w' := w[j / BITS := w[j / BITS][j % BITS := true]];
      Whole(w') && forall i | 0 <= i < BLKBITS :: Bit(w', i) <==> i == j || Bit(w, i)
  {
    var w' := w[j / BITS := w[j / BITS][j % BITS := true]];
    forall i | 0 <= i < BLKBITS ensures Bit(w', i) <==> i == j || Bit(w, i) {
      if i / BITS == j / BITS && i % BITS == j % BITS {
        assert i == j;
      }
    }
  }

  /** The bitmap block for the blocks from i on, as close_sfs fills it. */
  method BitmapBlock(i: int, ninos: int, next: int)
    returns (w: Words)
    requires 0 <= i < ninos && 0 <= next <= ninos
    ensures Whole(w) && forall j | 0 <= j < BLKBITS :: Bit(w, j) <==> next <= i + j < ninos
  {
    hide Bit;
    w := Blank();
    if i + BLKBITS > next {
      var start, end := 0, BLKBITS;
      if i < next {
        start := next - i;
      }
      if i + BLKBITS > ninos {
        end := ninos - i;
      }
      for j := start to end
        invariant Whole(w) && forall k | 0 <= k < BLKBITS :: Bit(w, k) <==> start <= k < j
      {
        SetBit(w, j);
        w := w[j / BITS := w[j / BITS][j % BITS := true]];
      }
    }
  }

  /** The bit of block x in the whole bitmap. */
  predicate IsFree(maps: seq<Words>, x: int)
    requires 0 <= x < BLKBITS * |maps| && forall k | 0 <= k < |maps| :: Whole(maps[k])
  {
    Bit(maps[x / BLKBITS], x % BLKBITS)
  }

  /** The bitmap loop of close_sfs: exactly the numbers never handed out are marked free. */
  method Bitmap(ninos: int, next: int)
    returns (maps: seq<Words>)
    requires 0 < next <= ninos
    ensures |maps| == (ninos + BLKBITS - 1) / BLKBITS && forall k | 0 <= k < |maps| :: Whole(maps[k])
    ensures forall x | 0 <= x < ninos :: IsFree(maps, x) <==> x >= next
  {
    hide Bit;
    maps := [];
    var i := 0;
    while i < ninos
      invariant i == BLKBITS * |maps| && i < ninos + BLKBITS
      invariant forall k | 0 <= k < |maps| :: Whole(maps[k])
      invariant forall x | 0 <= x < i :: IsFree(maps, x) <==> next <= x < ninos
    {
      var w := BitmapBlock(i, ninos, next);
      ghost var before := maps;
      maps := maps + [w];
      forall x | 0 <= x < i + BLKBITS ensures IsFree(maps, x) <==> next <= x < ninos {
        if x < i {
          assert maps[x / BLKBITS] == before[x / BLKBITS];
          assert IsFree(before, x) <==> next <= x < ninos;
        } else {
          assert maps[x / BLKBITS] == w && x % BLKBITS == x - i;
        }
      }
      i := i + BLKBITS;
    }
  }

  /** The first number handed out is the one right behind the bitmap. */
  lemma {:induction false} FirstBehindMap(ninos: int)
    ensures BLKBITS * (FirstFree(ninos) - 3) < ninos <= BLKBITS * (FirstFree(ninos) - 2)
  {
  }

  /** Writing the bitmap from block 2 on overwrites nothing: no data block, no index block, no inode. */
  lemma {:induction false} MapClear(img: Image, maps: seq<Words>)
    requires img.Valid() && |maps| == (img.ninos + BLKBITS - 1) / BLKBITS
    ensures forall id, i | id in img.data && 0 <= i < |img.data[id]| :: img.data[id][i] >= 2 + |maps|
    ensures forall x | x in img.blocks :: x >= 2 + |maps|
    ensures forall id | id in img.files :: id == 1 || id >= 2 + |maps|
  {
    forall x | (x in img.roles && img.roles[x] != Inode) || (x in img.files && x != 1) ensures x >= 2 + |maps| {
      assert x in img.files ==> HasRole(img.roles, x, Inode);
    }
    forall id, i | id in img.data && 0 <= i < |img.data[id]| ensures img.data[id][i] >= 2 + |maps| {
      assert HasRole(img.roles, img.data[id][i], Data(id, i));
    }
  }

  /** The loops of close_sfs over the hash buckets: every index block reaches the disk. */
  method FlushBlocks(img: Image, disk: Blocks)
    returns (disk': Blocks)
    requires img.Valid()
    ensures forall x | x in img.blocks :: x in disk' && disk'[x] == img.blocks[x]
    ensures forall x | x !in img.blocks :: (x in disk' <==> x in disk) && (x in disk ==> disk'[x] == disk[x])
  {
    disk' := disk;
    for h := 0 to HASH_LIST_SIZE
      invariant forall x | x in disk' && x !in img.blocks :: x in disk && disk'[x] == disk[x]
      invariant forall x | x in disk && x !in img.blocks :: x in disk'
      invariant h > 0 ==> forall x | x in img.blocks :: x in disk' && disk'[x] == img.blocks[x]
    {
      var l := img.buckets[h];
      for k := 0 to |l|
        invariant forall x | x in disk' && x !in img.blocks :: x in disk && disk'[x] == disk[x]
        invariant forall x | x in disk && x !in img.blocks :: x in disk'
        invariant forall j | 0 <= j < k :: l[j] in disk' && l[j] in img.blocks && disk'[l[j]] == img.blocks[l[j]]
        invariant h > 0 ==> forall x | x in img.blocks :: x in disk' && disk'[x] == img.blocks[x]
      {
        InBucket(img, h, k);
        disk' := disk'[l[k] := img.blocks[l[k]]];
      }
    }
  }

  /** Reading a closed image: block i of a file is the i-th number appended to it, and nothing
      beyond. */
  lemma {:induction false} ReadBack(img: Image, disk: Blocks, id: int, i: int)
    requires img.Valid() && id in img.files && 0 <= i < L1 + NENTRY * NENTRY
    requires forall x | x in img.blocks :: x in disk && disk[x] == img.blocks[x]
    ensures |img.files[id].direct| == NDIRECT
    ensures BmapGet(img.files[id], disk, i) == if i < |img.data[id]| then img.data[id][i] else 0
  {
    Unaffected(id, img.files[id], img.blocks, img.data[id], img.roles, disk, img.roles);
  }

  /** No number is used twice: not for two data blocks, of the same or of different files, nor for
      data and an index block or an inode; and all are in use in the bitmap. */
  lemma {:induction false} NumbersDistinct(img: Image, id: int, i: int, id': int, i': int)
    requires img.Valid() && id in img.data && id' in img.data
    requires 0 <= i < |img.data[id]| && 0 <= i' < |img.data[id']|
    ensures img.data[id][i] == img.data[id'][i'] ==> id == id' && i == i'
    ensures img.data[id][i] !in img.blocks && img.data[id][i] !in img.files
    ensures 0 < img.data[id][i] < img.nextIno
  {
    assert HasRole(img.roles, img.data[id][i], Data(id, i)) && HasRole(img.roles, img.data[id'][i'], Data(id', i'));
  }

  /** Every index block belongs to one place of one file. */
  lemma {:induction false} IndexBlocksDistinct(img: Image, id: int, id': int, q: int, q': int)
    requires img.Valid() && id in img.files && id' in img.files && 0 <= q < NENTRY && 0 <= q' < NENTRY
    ensures
      var f, f' := img.files[id], img.files[id'];
      var z, z' := Entry(img.blocks, f.dbl, q), Entry(img.blocks, f'.dbl, q');
      (f.indirect != 0 ==> f.indirect != f'.dbl && f.indirect != z' && (f.indirect == f'.indirect ==> id == id')) &&
      (f.dbl != 0 ==> f.dbl != z' && (f.dbl == f'.dbl ==> id == id')) &&
      (z != 0 && z == z' ==> id == id' && q == q')
  {
    assert FileOk(id, img.files[id], img.blocks, img.data[id], img.roles);
    assert FileOk(id', img.files[id'], img.blocks, img.data[id'], img.roles);
  }

  lemma {:induction false} InBucket(img: Image, h: int, k: int)
    requires img.Valid() && 0 <= h < HASH_LIST_SIZE && 0 <= k < |img.buckets[h]|
    ensures img.buckets[h][k] in img.blocks
  {
    assert h == 0;
    var x := img.buckets[0][k];
    assert x in img.buckets[0];
  }

  /** A search of the hash table would find an index block exactly when its number hashes to the
      first bucket, so it is as well that there never is one. */
  lemma {:induction false} SearchFinds(img: Image, x: int)
    requires img.Valid() && x in img.blocks
    ensures 0 <= Hash32(x) < HASH_LIST_SIZE
    ensures x in img.buckets[Hash32(x)] <==> Hash32(x) == 0
  {
    HashRange(x);
  }

  lemma {:induction false} HashRange(x: int)
    ensures 0 <= Hash32(x) < HASH_LIST_SIZE && Hash32(0) == 0 && Hash32(3) != 0
  {
  }
}
