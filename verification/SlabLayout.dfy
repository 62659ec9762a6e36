/**
 How a slab is laid out: how many objects fit on 2^order pages beside (or without) the slab
 descriptor with its free-chain entries, and where the first object goes.
 */
module SlabLayout {
  import opened Common

  const PGSIZE := 4096
  /** sizeof(slab_t) and sizeof(kmem_bufctl_t) on a 64-bit machine. */
  const DESC := 48
  const CTL := 8
  const SLAB_LIMIT := 0xFFFF_FFFE
  const BUFCTL_END := 0xFFFF_FFFF
  const KMALLOC_MAX_ORDER := 10
  const MIN_SIZE_ORDER := 5
  const MAX_SIZE_ORDER := 17
  const ALIGN := 16

  function RoundUp(a: int, n: int): (r: int)
    requires n > 0
    ensures a <= r < a + n && r % n == 0
  {
    RoundUpBounds(a, n);
    (a + n - 1) - (a + n - 1) % n
  }

  lemma {:induction false} RoundUpBounds(a: int, n: int)
    requires n > 0
    ensures ((a + n - 1) - (a + n - 1) % n) % n == 0
  {
    var q, r := (a + n - 1) / n, (a + n - 1) % n;
    assert (a + n - 1) - r == n * q;
    MulMod(q, n);
  }

  lemma {:induction false} MulMod(q: int, n: int)
    requires n > 0
    ensures (n * q) % n == 0
  {
    var d, m := (n * q) / n, (n * q) % n;
    assert n * q == n * d + m;
    if q > d {
      MulLe(d + 1, q, n);
    } else {
      MulLe(q, d, n);
    }
  }

  /** slab_mgmt_size */
  function MgmtSize(num: int, align: int): int
    requires align > 0
  {
    RoundUp(DESC + num * CTL, align)
  }

  function SlabSize(order: nat): int {
    PGSIZE * Pow2(order)
  }

  /** What a slab with num objects needs. */
  function Needs(num: int, objsize: int, align: int, offSlab: bool): int
    requires align > 0
  {
    num * objsize + if offSlab then 0 else MgmtSize(num, align)
  }

  ghost predicate Fits(num: int, order: nat, objsize: int, align: int, offSlab: bool)
    requires align > 0
  {
    0 <= num <= SLAB_LIMIT && Needs(num, objsize, align, offSlab) <= SlabSize(order)
  }

  ghost predicate Largest(num: int, order: nat, objsize: int, align: int, offSlab: bool)
    requires align > 0
  {
    Fits(num, order, objsize, align, offSlab) && forall n | n > num :: !Fits(n, order, objsize, align, offSlab)
  }

  lemma {:induction false} RoundUpMonotone(a: int, b: int, n: int)
    requires n > 0 && a <= b
    ensures RoundUp(a, n) <= RoundUp(b, n)
  {
    var x, y := RoundUp(a, n) / n, RoundUp(b, n) / n;
    if x > y {
      MulLe(y + 1, x, n);
    } else {
      MulLe(x, y, n);
    }
  }

  lemma {:induction false} NeedsMonotone(m: int, n: int, objsize: int, align: int, offSlab: bool)
    requires align > 0 && objsize > 0 && m <= n
    ensures Needs(m, objsize, align, offSlab) <= Needs(n, objsize, align, offSlab)
  {
    RoundUpMonotone(DESC + m * CTL, DESC + n * CTL, align);
    assert m * objsize <= n * objsize;
  }

  /** cache_estimate: the largest number of objects that fits, and exactly what is left over. */
  method CacheEstimate(order: nat, objsize: int, align: int, offSlab: bool)
    returns (remainder: int, num: int)
    requires objsize > 0 && 0 < align <= PGSIZE - DESC
    ensures Largest(num, order, objsize, align, offSlab)
    ensures remainder == SlabSize(order) - Needs(num, objsize, align, offSlab)
  {
    hide RoundUp, Pow2, Needs, MgmtSize, SlabSize;
    var size := SlabSize(order);
    SizeBounds(order, align);
    num := FirstGuess(size, objsize, offSlab);
    forall n | n > num ensures Needs(n, objsize, align, offSlab) > size {
      GuessAbove(size, objsize, align, offSlab, n);
    }
    GuessBelow(size, objsize, align, offSlab);
    while !offSlab && Needs(num, objsize, align, offSlab) > size
      invariant num >= 0 && (offSlab ==> Needs(num, objsize, align, offSlab) <= size)
      invariant forall n | n > num :: Needs(n, objsize, align, offSlab) > size
      decreases num
    {
      NoObjects(objsize, align);
      num := num - 1;
    }
    if num > SLAB_LIMIT {
      NeedsMonotone(SLAB_LIMIT, num, objsize, align, offSlab);
      num := SLAB_LIMIT;
    }
    remainder := size - Needs(num, objsize, align, offSlab);
  }

  /** A bound that ignores the alignment of the management area. */
  function FirstGuess(size: int, objsize: int, offSlab: bool): int
    requires objsize > 0
  {
    if offSlab then size / objsize else (size - DESC) / (objsize + CTL)
  }

  lemma {:induction false} GuessAbove(size: int, objsize: int, align: int, offSlab: bool, n: int)
    requires objsize > 0 && align > 0 && n > FirstGuess(size, objsize, offSlab)
    ensures Needs(n, objsize, align, offSlab) > size
  {
    hide RoundUp;
    if offSlab {
      DivAbove(size, objsize, n);
    } else {
      DivAbove(size - DESC, objsize + CTL, n);
      Spread(n, objsize);
    }
  }

  lemma {:induction false} GuessBelow(size: int, objsize: int, align: int, offSlab: bool)
    requires objsize > 0 && align > 0 && size >= DESC
    ensures FirstGuess(size, objsize, offSlab) >= 0
    ensures offSlab ==> Needs(FirstGuess(size, objsize, offSlab), objsize, align, offSlab) <= size
  {
    if offSlab {
      DivBounds(size, objsize);
    } else {
      DivBounds(size - DESC, objsize + CTL);
    }
  }

  lemma {:induction false} NoObjects(objsize: int, align: int)
    requires 0 < align <= PGSIZE - DESC
    ensures Needs(0, objsize, align, false) <= PGSIZE
  {
  }

  lemma {:induction false} Spread(n: int, objsize: int)
    ensures n * (objsize + CTL) == n * objsize + n * CTL
  {
  }

  lemma {:induction false} SizeBounds(order: nat, align: int)
    requires 0 < align <= PGSIZE - DESC
    ensures SlabSize(order) >= PGSIZE
  {
  }

  lemma {:induction false} DivBounds(a: int, b: int)
    requires a >= 0 && b > 0
    ensures 0 <= a / b && a / b * b <= a
  {
  }

  lemma {:induction false} DivAbove(a: int, b: int, n: int)
    requires b > 0 && n > a / b
    ensures n * b > a
  {
    MulLe(a / b + 1, n, b);
  }

  /** A slab of this order holds something and wastes at most an eighth. */
  ghost predicate Accepted(num: int, order: nat, objsize: int, align: int, offSlab: bool)
    requires align > 0
  {
    num != 0 && (SlabSize(order) - Needs(num, objsize, align, offSlab)) * 8 <= SlabSize(order)
  }

  /** The descriptor of an off-slab slab would not fit into an object of the slab's own size. */
  predicate TooMany(num: int, objsize: int, offSlab: bool) {
    offSlab && num != 0 && num > (objsize - DESC) / CTL
  }

  ghost predicate PassedOver(order: nat, objsize: int, align: int, offSlab: bool)
    requires align > 0
  {
    forall num | Largest(num, order, objsize, align, offSlab) ::
      !Accepted(num, order, objsize, align, offSlab) && !TooMany(num, objsize, offSlab)
  }

  ghost predicate FirstOrder(order: nat, objsize: int, align: int, offSlab: bool)
    requires align > 0
  {
    forall o: nat | o < order :: PassedOver(o, objsize, align, offSlab)
  }

  /** No order is acceptable, or the descriptor grows too big before one is. */
  ghost predicate NoOrder(objsize: int, align: int, offSlab: bool)
    requires align > 0
  {
    FirstOrder(KMALLOC_MAX_ORDER + 1, objsize, align, offSlab) ||
    exists order: nat, num | order <= KMALLOC_MAX_ORDER && Largest(num, order, objsize, align, offSlab) ::
      TooMany(num, objsize, offSlab) && FirstOrder(order, objsize, align, offSlab)
  }

  datatype Sizing = Sizing(num: int, order: nat, leftOver: int)

  /** calculate_slab_order: the smallest acceptable order; None stands for a panic. */
  method CalculateOrder(objsize: int, align: int, offSlab: bool)
    returns (r: Option<Sizing>)
    requires objsize > 0 && 0 < align <= PGSIZE - DESC
    ensures r.Some? ==>
      var Sizing(num, order, leftOver) := r.value;
      order <= KMALLOC_MAX_ORDER && Largest(num, order, objsize, align, offSlab) &&
      Accepted(num, order, objsize, align, offSlab) && !TooMany(num, objsize, offSlab) &&
      leftOver == SlabSize(order) - Needs(num, objsize, align, offSlab) &&
      FirstOrder(order, objsize, align, offSlab)
    ensures r.None? ==> NoOrder(objsize, align, offSlab)
  {
    hide Needs, SlabSize;
    for order := 0 to KMALLOC_MAX_ORDER + 1
      invariant FirstOrder(order, objsize, align, offSlab)
    {
      var remainder, num := CacheEstimate(order, objsize, align, offSlab);
      if TooMany(num, objsize, offSlab) {
        return None;
      }
      if num != 0 && remainder * 8 <= SlabSize(order) {
        return Some(Sizing(num, order, remainder));
      }
      LargestUnique(num, order, objsize, align, offSlab);
    }
    return None;
  }

  lemma {:induction false} LargestUnique(num: int, order: nat, objsize: int, align: int, offSlab: bool)
    requires align > 0 && Largest(num, order, objsize, align, offSlab)
    ensures forall n | Largest(n, order, objsize, align, offSlab) :: n == num
  {
  }

  /** getorder: the smallest power of two from 2^5 to 2^17 that is not below n; None is a panic. */
  method GetOrder(n: int)
    returns (r: Option<int>)
    ensures r.Some? ==> MIN_SIZE_ORDER <= r.value <= MAX_SIZE_ORDER && n <= Pow2(r.value)
    ensures r.Some? && r.value > MIN_SIZE_ORDER ==> Pow2(r.value - 1) < n
    ensures r.None? <==> n > Pow2(MAX_SIZE_ORDER)
  {
    hide Pow2;
    var size := Pow2(MIN_SIZE_ORDER);
    for order := MIN_SIZE_ORDER to MAX_SIZE_ORDER + 1
      invariant size == Pow2(order) && (order > MIN_SIZE_ORDER ==> Pow2(order - 1) < n)
    {
      if n <= size {
        Pow2Grows(order, MAX_SIZE_ORDER);
        return Some(order);
      }
      Pow2Step(order);
      size := size * 2;
    }
    return None;
  }

  /** struct kmem_cache_s without its lists: home is the index of slab_cachep. */
  datatype Cache = Cache(objsize: int, num: int, offset: int, offSlab: bool, order: nat, home: int)

  /** The objects lie aligned inside the pages of the slab and clear of a descriptor there. */
  ghost predicate LaidOut(c: Cache, align: int)
    requires align > 0
  {
    0 < c.objsize && 0 < c.num <= SLAB_LIMIT && c.objsize % align == 0 && c.offset % align == 0 &&
    c.offset + c.num * c.objsize <= SlabSize(c.order) &&
    (!c.offSlab ==> DESC + c.num * CTL <= c.offset) &&
    (c.offSlab ==> c.offset == 0 && DESC + c.num * CTL <= c.objsize)
  }

  /** init_kmem_cache; None stands for a panic. */
  method InitCache(size: int, align: int)
    returns (r: Option<Cache>)
    requires size > 0 && 0 < align <= PGSIZE - DESC
    ensures r.Some? ==> LaidOut(r.value, align) && r.value.objsize == RoundUp(size, align)
    ensures r.Some? ==>
      var c := r.value;
      c.order <= KMALLOC_MAX_ORDER && Largest(c.num, c.order, c.objsize, align, c.objsize >= PGSIZE / 8) &&
      Accepted(c.num, c.order, c.objsize, align, c.objsize >= PGSIZE / 8) &&
      FirstOrder(c.order, c.objsize, align, c.objsize >= PGSIZE / 8) &&
      (c.offSlab ==>
        c.objsize >= PGSIZE / 8 &&
        0 <= c.home <= MAX_SIZE_ORDER - MIN_SIZE_ORDER && MgmtSize(c.num, align) <= Pow2(c.home + MIN_SIZE_ORDER) &&
        (c.home > 0 ==> Pow2(c.home + MIN_SIZE_ORDER - 1) < MgmtSize(c.num, align)))
    ensures r.None? ==>
      var objsize := RoundUp(size, align);
      NoOrder(objsize, align, objsize >= PGSIZE / 8) || objsize > Pow2(MAX_SIZE_ORDER)
  {
    hide Pow2, NoOrder, FirstOrder, RoundUp;
    var objsize := RoundUp(size, align);
    var offSlab := objsize >= PGSIZE / 8;
    var sizing := CalculateOrder(objsize, align, offSlab);
    if sizing.None? {
      return None;
    }
    var Sizing(num, order, leftOver) := sizing.value;
    var mgmt := MgmtSize(num, align);
    if offSlab {
      MgmtFits(num, objsize, align);
    }
    if offSlab && leftOver >= mgmt {
      offSlab := false;
    }
    if offSlab {
      var o := GetOrder(mgmt);
      if o.None? {
        return None;
      }
      return Some(Cache(objsize, num, 0, true, order, o.value - MIN_SIZE_ORDER));
    }
    return Some(Cache(objsize, num, mgmt, false, order, 0));
  }

  lemma {:induction false} MgmtFits(num: int, objsize: int, align: int)
    requires align > 0 && objsize % align == 0 && num != 0 && !TooMany(num, objsize, true)
    ensures MgmtSize(num, align) <= objsize
  {
    RoundUpMonotone(DESC + num * CTL, objsize, align);
    RoundUpExact(objsize, align);
  }

  lemma {:induction false} RoundUpExact(a: int, n: int)
    requires n > 0 && a % n == 0
    ensures RoundUp(a, n) == a
  {
    var x, y := RoundUp(a, n) / n, a / n;
    if x > y {
      MulLe(y + 1, x, n);
    } else {
      MulLe(x, y, n);
    }
  }

  // The caches of kmalloc

  lemma {:induction false} PageIsPow2()
    ensures Pow2(12) == PGSIZE && Pow2(9) == PGSIZE / 8 && Pow2(5) == 32 && Pow2(8) == 256 && Pow2(4) == 16
    ensures Pow2(3) == 8 && Pow2(7) == 128 && Pow2(6) == 64
  {
  }

  /** What the largest number is when the size is a multiple of the object size. */
  lemma {:induction false} ExactFill(num: int, order: nat, objsize: int, q: int)
    requires objsize > 0 && 0 <= q <= SLAB_LIMIT && SlabSize(order) == objsize * q
    requires Largest(num, order, objsize, ALIGN, true)
    ensures num == q && Needs(num, objsize, ALIGN, true) == SlabSize(order)
  {
    hide SlabSize;
    assert Needs(q, objsize, ALIGN, true) == SlabSize(order);
    assert Fits(q, order, objsize, ALIGN, true);
    if num > q {
      MulLe(q + 1, num, objsize);
    }
  }

  lemma {:induction false} NoFill(num: int, order: nat, objsize: int)
    requires objsize > SlabSize(order) && objsize > 0 && Largest(num, order, objsize, ALIGN, true)
    ensures num == 0
  {
    hide SlabSize;
    if num >= 1 {
      MulLe(1, num, objsize);
    }
  }

  lemma {:induction false} SlabIsPow2(order: nat)
    ensures SlabSize(order) == Pow2(12 + order)
  {
    PageIsPow2();
    Pow2Add(12, order);
  }

  /** Objects of 2^k bytes, k >= 9, fill every slab that is large enough without remainder. */
  lemma {:induction false} PowersFill(k: nat, order: nat, num: int)
    requires 9 <= k && order <= KMALLOC_MAX_ORDER && Largest(num, order, Pow2(k), ALIGN, true)
    ensures k > 12 + order ==> num == 0
    ensures k <= 12 + order ==> num == Pow2(12 + order - k) && Accepted(num, order, Pow2(k), ALIGN, true)
  {
    hide Pow2, SlabSize, Largest, Needs;
    SlabIsPow2(order);
    if k > 12 + order {
      Pow2Step(12 + order);
      Pow2Grows(12 + order + 1, k);
      NoFill(num, order, Pow2(k));
    } else {
      Pow2Add(k, 12 + order - k);
      Pow2Grows(12 + order - k, 13);
      Pow2Step(12);
      PageIsPow2();
      ExactFill(num, order, Pow2(k), Pow2(12 + order - k));
    }
  }

  /** Objects of at most 256 bytes fill one page up to less than an eighth. */
  lemma {:induction false} SmallFill(objsize: int, num: int)
    requires 32 <= objsize <= 256 && Largest(num, 0, objsize, ALIGN, false)
    ensures Accepted(num, 0, objsize, ALIGN, false)
  {
    assert SlabSize(0) == PGSIZE;
    assert num < SLAB_LIMIT by {
      MulLe(32, objsize, num);
    }
    assert !Fits(num + 1, 0, objsize, ALIGN, false);
    assert (num + 1) * objsize == num * objsize + objsize;
    assert Needs(1, objsize, ALIGN, false) <= PGSIZE;
    assert Fits(1, 0, objsize, ALIGN, false);
  }

  /** The order at which the search for objects of 2^k bytes ends. */
  function FinalOrder(k: nat): nat {
    if k <= 12 then 0 else k - 12
  }

  lemma {:induction false} FinalAccepted(k: nat, num: int)
    requires 5 <= k <= 17 && Largest(num, FinalOrder(k), Pow2(k), ALIGN, k >= 9)
    ensures Accepted(num, FinalOrder(k), Pow2(k), ALIGN, k >= 9) && !TooMany(num, Pow2(k), k >= 9)
    ensures k >= 9 ==> num <= 8
  {
    hide Pow2, SlabSize, Largest, Needs, Accepted;
    PageIsPow2();
    if k >= 9 {
      PowersFill(k, FinalOrder(k), num);
      Pow2Grows(12 + FinalOrder(k) - k, 3);
      Pow2Grows(9, k);
    } else {
      Pow2Grows(5, k);
      Pow2Grows(k, 8);
      SmallFill(Pow2(k), num);
    }
  }

  lemma {:induction false} BelowFinal(k: nat, order: nat)
    requires 5 <= k <= 17 && order < FinalOrder(k)
    ensures PassedOver(order, Pow2(k), ALIGN, k >= 9)
  {
    hide Pow2, SlabSize, Largest, Needs;
    var size, off := Pow2(k), k >= 9;
    forall num | Largest(num, order, size, ALIGN, off)
      ensures !Accepted(num, order, size, ALIGN, off) && !TooMany(num, size, off)
    {
      PowersFill(k, order, num);
    }
  }

  lemma {:induction false} LargestBelow(n: nat, order: nat, objsize: int, align: int, offSlab: bool)
    requires objsize > 0 && 0 < align <= PGSIZE - DESC
    requires forall m | m > n :: !Fits(m, order, objsize, align, offSlab)
    ensures exists num :: Largest(num, order, objsize, align, offSlab)
  {
    hide Needs, SlabSize;
    if Fits(n, order, objsize, align, offSlab) {
      assert Largest(n, order, objsize, align, offSlab);
    } else if n > 0 {
      LargestBelow(n - 1, order, objsize, align, offSlab);
    } else {
      SizeBounds(order, align);
      NoObjects(objsize, align);
      NeedsNothing(objsize, align);
    }
  }

  lemma {:induction false} NeedsNothing(objsize: int, align: int)
    requires align > 0
    ensures Needs(0, objsize, align, true) <= Needs(0, objsize, align, false)
  {
  }

  lemma {:induction false} NotPassed(k: nat)
    requires 5 <= k <= 17
    ensures !PassedOver(FinalOrder(k), Pow2(k), ALIGN, k >= 9)
  {
    hide Pow2, SlabSize, Largest, Needs, Accepted, TooMany;
    LargestBelow(SLAB_LIMIT, FinalOrder(k), Pow2(k), ALIGN, k >= 9);
    var num :| Largest(num, FinalOrder(k), Pow2(k), ALIGN, k >= 9);
    FinalAccepted(k, num);
  }

  /** The search ends at its final order, whatever that finds to be the largest number. */
  lemma {:induction false} SearchEnds(k: nat, order: nat, num: int)
    requires 5 <= k <= 17 && order <= KMALLOC_MAX_ORDER && Largest(num, order, Pow2(k), ALIGN, k >= 9)
    requires FirstOrder(order, Pow2(k), ALIGN, k >= 9)
    requires Accepted(num, order, Pow2(k), ALIGN, k >= 9) || TooMany(num, Pow2(k), k >= 9)
    ensures order == FinalOrder(k) && !TooMany(num, Pow2(k), k >= 9) && (k >= 9 ==> num <= 8)
  {
    hide Pow2, SlabSize, Largest, Needs, Accepted, TooMany;
    NotPassed(k);
    if order < FinalOrder(k) {
      BelowFinal(k, order);
    } else if order == FinalOrder(k) {
      FinalAccepted(k, num);
    }
  }

  lemma {:induction false} NoPanic(k: nat)
    requires 5 <= k <= 17
    ensures !NoOrder(Pow2(k), ALIGN, k >= 9)
  {
    hide Pow2, SlabSize, Largest, Needs, Accepted, TooMany;
    NotPassed(k);
    var size, off := Pow2(k), k >= 9;
    forall order: nat, num | order <= KMALLOC_MAX_ORDER && Largest(num, order, size, ALIGN, off)
      ensures !(TooMany(num, size, off) && FirstOrder(order, size, ALIGN, off))
    {
      if TooMany(num, size, off) && FirstOrder(order, size, ALIGN, off) {
        SearchEnds(k, order, num);
      }
    }
  }

  /** Where the descriptors of the kmalloc cache with this index live. */
  ghost predicate Homed(caches: seq<Cache>, i: int)
    requires 0 <= i < |caches|
  {
    var c := caches[i];
    LaidOut(c, ALIGN) && c.objsize == Pow2(i + MIN_SIZE_ORDER) &&
    (c.offSlab ==>
      0 <= c.home < i && !caches[c.home].offSlab && DESC + c.num * CTL <= caches[c.home].objsize)
  }

  /** slab_init: no panic, and every off-slab cache keeps its descriptors in a smaller cache
      that is not itself off-slab. */
  method SlabInit()
    returns (caches: seq<Cache>)
    ensures |caches| == MAX_SIZE_ORDER - MIN_SIZE_ORDER + 1
    ensures forall i | 0 <= i < |caches| :: Homed(caches, i)
  {
    hide Pow2, LaidOut, RoundUp, NoOrder, FirstOrder, Largest;
    caches := [];
    for i := 0 to MAX_SIZE_ORDER - MIN_SIZE_ORDER + 1
      invariant |caches| == i
      invariant forall j | 0 <= j < i :: Homed(caches, j)
      invariant forall j | 0 <= j < i :: caches[j].offSlab ==> j >= 4
    {
      var k := i + MIN_SIZE_ORDER;
      PowerAligned(k);
      NoPanic(k);
      var c := InitCache(Pow2(k), ALIGN);
      if c.None? {
        assert false;
      }
      if c.value.offSlab {
        HomeBound(k, c.value);
        assert Homed(caches, c.value.home);
      }
      forall j | 0 <= j < i ensures Homed(caches + [c.value], j) {
        assert Homed(caches, j);
      }
      assert Homed(caches + [c.value], i);
      caches := caches + [c.value];
    }
  }

  lemma {:induction false} PowerAligned(k: nat)
    requires 5 <= k <= 17
    ensures RoundUp(Pow2(k), ALIGN) == Pow2(k) && Pow2(k) <= Pow2(MAX_SIZE_ORDER) && (Pow2(k) >= PGSIZE / 8 <==> k >= 9)
  {
    hide Pow2;
    PageIsPow2();
    Pow2Add(4, k - 4);
    MulMod(Pow2(k - 4), 16);
    RoundUpExact(Pow2(k), ALIGN);
    Pow2Grows(k, MAX_SIZE_ORDER);
    if k >= 9 {
      Pow2Grows(9, k);
    } else {
      Pow2Grows(k, 8);
    }
  }

  lemma {:induction false} HomeBound(k: nat, c: Cache)
    requires 9 <= k <= 17 && c.objsize == Pow2(k) && c.home >= 0
    requires c.order <= KMALLOC_MAX_ORDER && FirstOrder(c.order, c.objsize, ALIGN, true)
    requires Largest(c.num, c.order, c.objsize, ALIGN, true) && Accepted(c.num, c.order, c.objsize, ALIGN, true)
    requires c.home > 0 ==> Pow2(c.home + MIN_SIZE_ORDER - 1) < MgmtSize(c.num, ALIGN)
    ensures c.home <= 2
  {
    hide Pow2, Largest, FirstOrder, Accepted;
    SearchEnds(k, c.order, c.num);
    PageIsPow2();
    if c.home > 2 {
      Pow2Grows(7, c.home + MIN_SIZE_ORDER - 1);
    }
  }
}
