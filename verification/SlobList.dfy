/**
 The free list of the SLOB allocator: one circular list in address order.  Addresses are
 counted in units (the size of a block header).
 */
module SlobList {

  /** The units [a, a + n). */
  function Cells(a: int, n: int): (r: set<int>)
    ensures forall x :: x in r <==> a <= x < a + n
    decreases n
  {
    if n <= 0 then {} else Cells(a, n - 1) + {a + n - 1}
  }

  lemma {:induction false} CellsCount(a: int, n: nat)
    ensures |Cells(a, n)| == n
  {
    if n > 0 {
      CellsCount(a, n - 1);
    }
  }

  /** Positions in a circle of n. */
  function After(i: int, n: int): int {
    if i + 1 < n then i + 1 else 0
  }

  function Before(i: int, n: int): int {
    if i > 0 then i - 1 else n - 1
  }

  /** t steps on from s, for t at most n. */
  function Step(s: int, t: int, n: int): int {
    if s + t < n then s + t else s + t - n
  }

  /** Block headers: their sizes and links. */
  type Field = map<int, int>

  ghost predicate Sized(units: Field, fl: seq<int>) {
    forall i | 0 <= i < |fl| :: fl[i] in units && units[fl[i]] > 0
  }

  ghost predicate Linked(next: Field, fl: seq<int>, i: int)
    requires 0 <= i < |fl|
  {
    fl[i] in next && next[fl[i]] == fl[After(i, |fl|)]
  }

  /** The links lead once around fl. */
  ghost predicate Circle(next: Field, fl: seq<int>) {
    |fl| > 0 && (forall i | 0 <= i < |fl| :: fl[i] in next) && (forall i | 0 <= i < |fl| :: Linked(next, fl, i))
  }

  /** The blocks are in address order, disjoint and never adjacent. */
  ghost predicate Spaced(units: Field, fl: seq<int>) {
    Sized(units, fl) && forall i, j | 0 <= i < j < |fl| :: fl[i] + units[fl[i]] < fl[j]
  }

  ghost predicate Listed(units: Field, next: Field, fl: seq<int>) {
    Circle(next, fl) && Spaced(units, fl)
  }

  lemma {:induction false} Ordered(units: Field, fl: seq<int>, i: int, j: int)
    requires Spaced(units, fl) && 0 <= i < |fl| && 0 <= j < |fl|
    ensures fl[i] < fl[j] <==> i < j
    ensures fl[i] == fl[j] <==> i == j
  {
  }

  lemma {:induction false} LinkOf(next: Field, fl: seq<int>, i: int)
    requires Circle(next, fl) && 0 <= i < |fl|
    ensures fl[i] in next && next[fl[i]] == fl[After(i, |fl|)]
  {
    assert Linked(next, fl, i);
  }

  ghost function FreeCells(units: Field, fl: seq<int>): set<int>
    requires Sized(units, fl)
  {
    set i, x | 0 <= i < |fl| && x in Cells(fl[i], units[fl[i]]) :: x
  }

  lemma {:induction false} InFree(units: Field, fl: seq<int>, i: int, x: int)
    requires Sized(units, fl) && 0 <= i < |fl| && fl[i] <= x < fl[i] + units[fl[i]]
    ensures x in FreeCells(units, fl)
  {
    assert x in Cells(fl[i], units[fl[i]]);
  }

  lemma {:induction false} FreeAt(units: Field, fl: seq<int>, x: int)
    returns (i: int)
    requires Sized(units, fl) && x in FreeCells(units, fl)
    ensures 0 <= i < |fl| && fl[i] <= x < fl[i] + units[fl[i]]
  {
    i :| 0 <= i < |fl| && x in Cells(fl[i], units[fl[i]]);
  }

  // Taking a block

  ghost function Without(fl: seq<int>, j: int): seq<int>
    requires 0 <= j < |fl|
  {
    fl[..j] + fl[j + 1..]
  }

  /** Unlinking the block at position j: its predecessor now points past it. */
  lemma {:induction false} UnlinkListed(units: Field, next: Field, fl: seq<int>, j: int)
    requires Listed(units, next, fl) && 0 <= j < |fl| && |fl| >= 2
    ensures fl[j] in next && Listed(units, next[fl[Before(j, |fl|)] := next[fl[j]]], Without(fl, j))
  {
    hide Circle, Linked, Spaced;
    var n := |fl|;
    LinkOf(next, fl, j);
    var next', fl' := next[fl[Before(j, n)] := next[fl[j]]], Without(fl, j);
    forall i | 0 <= i < n - 1 ensures fl'[i] in next' && next'[fl'[i]] == fl'[After(i, n - 1)] {
      var k := if i < j then i else i + 1;
      Ordered(units, fl, k, Before(j, n));
      LinkOf(next, fl, k);
    }
    CircleOf(next', fl');
    WithoutSpaced(units, fl, j);
  }

  lemma {:induction false} CircleOf(next: Field, fl: seq<int>)
    requires |fl| > 0 && forall i {:trigger fl[i]} | 0 <= i < |fl| :: fl[i] in next && next[fl[i]] == fl[After(i, |fl|)]
    ensures Circle(next, fl)
  {
  }

  lemma {:induction false} WithoutSpaced(units: Field, fl: seq<int>, j: int)
    requires Spaced(units, fl) && 0 <= j < |fl|
    ensures Spaced(units, Without(fl, j))
  {
  }

  lemma {:induction false} UnlinkCells(units: Field, fl: seq<int>, j: int)
    requires Spaced(units, fl) && 0 <= j < |fl|
    ensures Sized(units, Without(fl, j))
    ensures FreeCells(units, Without(fl, j)) == FreeCells(units, fl) - Cells(fl[j], units[fl[j]])
  {
    hide FreeCells, Spaced;
    var fl' := Without(fl, j);
    WithoutSpaced(units, fl, j);
    SpacedSized(units, fl);
    SpacedSized(units, fl');
    forall x ensures x in FreeCells(units, fl') <==> x in FreeCells(units, fl) && x !in Cells(fl[j], units[fl[j]]) {
      if x in FreeCells(units, fl') {
        var i := FreeAt(units, fl', x);
        var k := if i < j then i else i + 1;
        assert fl'[i] == fl[k];
        InFree(units, fl, k, x);
        Apart(units, fl, k, j, x);
      }
      if x in FreeCells(units, fl) && x !in Cells(fl[j], units[fl[j]]) {
        var k := FreeAt(units, fl, x);
        var i := if k < j then k else k - 1;
        assert fl'[i] == fl[k];
        InFree(units, fl', i, x);
      }
    }
  }

  lemma {:induction false} SpacedSized(units: Field, fl: seq<int>)
    requires Spaced(units, fl)
    ensures Sized(units, fl)
  {
  }

  /** No unit is in two free blocks. */
  lemma {:induction false} Apart(units: Field, fl: seq<int>, i: int, j: int, x: int)
    requires Spaced(units, fl) && 0 <= i < |fl| && 0 <= j < |fl| && i != j
    requires fl[i] <= x < fl[i] + units[fl[i]]
    ensures !(fl[j] <= x < fl[j] + units[fl[j]])
  {
    assert i < j || j < i;
  }

  /** Keeping only the tail of the block at position j, from its unit n on. */
  ghost function SplitUnits(units: Field, c: int, n: int): Field
    requires c in units
  {
    units[c + n := units[c] - n][c := n]
  }

  lemma {:induction false} SplitSpaced(units: Field, fl: seq<int>, j: int, n: int)
    requires Spaced(units, fl) && 0 <= j < |fl| && 0 < n < units[fl[j]]
    ensures Spaced(SplitUnits(units, fl[j], n), fl[j := fl[j] + n])
    ensures forall i {:trigger fl[i]} | 0 <= i < |fl| && i != j ::
      fl[i] != fl[j] && fl[i] != fl[j] + n && SplitUnits(units, fl[j], n)[fl[i]] == units[fl[i]]
  {
    forall i | 0 <= i < |fl| && i != j ensures fl[i] != fl[j] && fl[i] != fl[j] + n {
      Ordered(units, fl, i, j);
    }
  }

  lemma {:induction false} SplitCircle(next: Field, fl: seq<int>, j: int, m: int)
    requires Circle(next, fl) && 0 <= j < |fl| && |fl| >= 2 && Apart2(fl, j, m)
    ensures fl[j] in next && Circle(next[fl[Before(j, |fl|)] := m][m := next[fl[j]]], fl[j := m])
  {
    hide Circle, Linked;
    LinkOf(next, fl, j);
    var p := Before(j, |fl|);
    var next', fl' := next[fl[p] := m][m := next[fl[j]]], fl[j := m];
    forall i | 0 <= i < |fl| ensures fl'[i] in next' && next'[fl'[i]] == fl'[After(i, |fl|)] {
      LinkOf(next, fl, i);
      assert i != j && i != p ==> fl[i] != fl[p] && fl[i] != m;
    }
    CircleOf(next', fl');
  }

  /** No two blocks are the same, and none is at m. */
  ghost predicate Apart2(fl: seq<int>, j: int, m: int) {
    (forall i, k | 0 <= i < k < |fl| :: fl[i] != fl[k]) &&
    forall i {:trigger fl[i]} | 0 <= i < |fl| && i != j :: fl[i] != m
  }

  lemma {:induction false} SplitListed(units: Field, next: Field, fl: seq<int>, j: int, n: int)
    requires Listed(units, next, fl) && 0 <= j < |fl| && |fl| >= 2 && 0 < n < units[fl[j]]
    ensures
      var c, m := fl[j], fl[j] + n;
      c in next && Listed(SplitUnits(units, c, n), next[fl[Before(j, |fl|)] := m][m := next[c]], fl[j := m])
  {
    hide Circle, Spaced, SplitUnits;
    SplitSpaced(units, fl, j, n);
    forall i, k | 0 <= i < k < |fl| ensures fl[i] != fl[k] {
      Ordered(units, fl, i, k);
    }
    SplitCircle(next, fl, j, fl[j] + n);
  }

  lemma {:induction false} SplitCells(units: Field, fl: seq<int>, j: int, n: int)
    requires Spaced(units, fl) && 0 <= j < |fl| && 0 < n < units[fl[j]]
    ensures
      var units', fl' := SplitUnits(units, fl[j], n), fl[j := fl[j] + n];
      Sized(units', fl') && FreeCells(units', fl') == FreeCells(units, fl) - Cells(fl[j], n)
  {
    hide FreeCells, Spaced;
    SpacedSized(units, fl);
    var units', fl' := SplitUnits(units, fl[j], n), fl[j := fl[j] + n];
    SplitSpaced(units, fl, j, n);
    SpacedSized(units', fl');
    forall x ensures x in FreeCells(units', fl') <==> x in FreeCells(units, fl) && x !in Cells(fl[j], n) {
      if x in FreeCells(units', fl') {
        var i := FreeAt(units', fl', x);
        InFree(units, fl, i, x);
        if i != j {
          Apart(units, fl, i, j, x);
        }
      }
      if x in FreeCells(units, fl) && x !in Cells(fl[j], n) {
        var i := FreeAt(units, fl, x);
        InFree(units', fl', i, x);
      }
    }
  }

  // Giving a block back

  /** The block b belongs between positions k - 1 and k. */
  ghost predicate Slot(fl: seq<int>, b: int, k: int) {
    0 <= k <= |fl| && (forall i | 0 <= i < k :: fl[i] < b) && (forall i | k <= i < |fl| :: b < fl[i])
  }

  ghost function Inserted(fl: seq<int>, b: int, k: int): seq<int>
    requires 0 <= k <= |fl|
  {
    fl[..k] + [b] + fl[k..]
  }

  /** A block of u units at b touches neither neighbour. */
  ghost predicate Fits(units: Field, fl: seq<int>, b: int, u: int, k: int)
    requires Sized(units, fl)
  {
    Slot(fl, b, k) && u > 0 &&
    (k > 0 ==> fl[k - 1] + units[fl[k - 1]] < b) && (k < |fl| ==> b + u < fl[k])
  }

  /** A block that fits is clear of all others. */
  lemma {:induction false} FitsClear(units: Field, fl: seq<int>, b: int, u: int, k: int)
    requires Spaced(units, fl) && Fits(units, fl, b, u, k)
    ensures forall i {:trigger fl[i]} | 0 <= i < k :: fl[i] + units[fl[i]] < b
    ensures forall i {:trigger fl[i]} | k <= i < |fl| :: b + u < fl[i]
  {
    forall i | 0 <= i < k ensures fl[i] + units[fl[i]] < b {
      if i < k - 1 {
        assert fl[i] + units[fl[i]] < fl[k - 1];
      }
    }
    forall i | k <= i < |fl| ensures b + u < fl[i] {
      if i > k {
        assert fl[k] + units[fl[k]] < fl[i];
      }
    }
  }

  lemma {:induction false} InsertedAt(fl: seq<int>, b: int, k: int, i: int)
    requires 0 <= k <= |fl| && 0 <= i <= |fl|
    ensures |Inserted(fl, b, k)| == |fl| + 1
    ensures Inserted(fl, b, k)[i] == if i < k then fl[i] else if i == k then b else fl[i - 1]
  {
  }

  /** The blocks at positions i and j after the insertion. */
  lemma {:induction false} InsertPair(units: Field, fl: seq<int>, b: int, u: int, k: int, i: int, j: int)
    requires Spaced(units, fl) && Fits(units, fl, b, u, k) && 0 <= i < j <= |fl|
    ensures
      var units', fl' := units[b := u], Inserted(fl, b, k);
      fl'[i] in units' && units'[fl'[i]] > 0 && fl'[j] in units' && units'[fl'[j]] > 0 &&
      fl'[i] + units'[fl'[i]] < fl'[j]
  {
    FitsClear(units, fl, b, u, k);
    InsertedAt(fl, b, k, i);
    InsertedAt(fl, b, k, j);
    hide Inserted;
    var i0, j0 := if i < k then i else i - 1, if j < k then j else j - 1;
    assert i != k && j != k ==> fl[i0] + units[fl[i0]] < fl[j0];
  }

  lemma {:induction false} InsertSpaced(units: Field, fl: seq<int>, b: int, u: int, k: int)
    requires Spaced(units, fl) && Fits(units, fl, b, u, k)
    ensures Spaced(units[b := u], Inserted(fl, b, k))
  {
    InsertedAt(fl, b, k, k);
    hide Fits, Inserted;
    var units', fl' := units[b := u], Inserted(fl, b, k);
    forall i | 0 <= i < |fl'| ensures fl'[i] in units' && units'[fl'[i]] > 0 {
      if i < |fl| {
        InsertPair(units, fl, b, u, k, i, |fl|);
      } else if |fl| > 0 {
        InsertPair(units, fl, b, u, k, 0, i);
      }
    }
    forall i, j | 0 <= i < j < |fl'| ensures fl'[i] + units'[fl'[i]] < fl'[j] {
      InsertPair(units, fl, b, u, k, i, j);
    }
  }

  lemma {:induction false} InsertListed(units: Field, next: Field, fl: seq<int>, b: int, u: int, k: int)
    requires Listed(units, next, fl) && Fits(units, fl, b, u, k)
    ensures
      var p := fl[Before(k, |fl|)];
      p in next && Listed(units[b := u], next[b := next[p]][p := b], Inserted(fl, b, k))
  {
    hide Circle, Linked, Spaced;
    var n := |fl|;
    SpacedLen(next, fl);
    var p := fl[Before(k, n)];
    LinkOf(next, fl, Before(k, n));
    InsertSpaced(units, fl, b, u, k);
    var next', fl' := next[b := next[p]][p := b], Inserted(fl, b, k);
    forall i | 0 <= i < n + 1 ensures fl'[i] in next' && next'[fl'[i]] == fl'[After(i, n + 1)] {
      if i != k {
        var j := if i < k then i else i - 1;
        LinkOf(next, fl, j);
        Ordered(units, fl, j, Before(k, n));
      }
    }
    CircleOf(next', fl');
  }

  lemma {:induction false} SpacedLen(next: Field, fl: seq<int>)
    requires Circle(next, fl)
    ensures |fl| > 0
  {
  }

  lemma {:induction false} InsertCells(units: Field, fl: seq<int>, b: int, u: int, k: int)
    requires Spaced(units, fl) && Fits(units, fl, b, u, k)
    ensures
      var units', fl' := units[b := u], Inserted(fl, b, k);
      Sized(units', fl') && FreeCells(units', fl') == FreeCells(units, fl) + Cells(b, u)
  {
    hide FreeCells, Spaced;
    SpacedSized(units, fl);
    InsertSpaced(units, fl, b, u, k);
    var units', fl' := units[b := u], Inserted(fl, b, k);
    SpacedSized(units', fl');
    forall x ensures x in FreeCells(units', fl') <==> x in FreeCells(units, fl) || x in Cells(b, u) {
      if x in FreeCells(units', fl') {
        var i := FreeAt(units', fl', x);
        if i != k {
          InFree(units, fl, if i < k then i else i - 1, x);
        }
      }
      if x in FreeCells(units, fl) {
        var i := FreeAt(units, fl, x);
        InFree(units', fl', if i < k then i else i + 1, x);
      }
      if x in Cells(b, u) {
        InFree(units', fl', k, x);
      }
    }
  }

  /** Extending the block at position i. */
  lemma {:induction false} GrowListed(units: Field, next: Field, fl: seq<int>, i: int, extra: int)
    requires Listed(units, next, fl) && 0 <= i < |fl| && extra > 0
    requires i + 1 < |fl| ==> fl[i] + units[fl[i]] + extra < fl[i + 1]
    ensures
      var units' := units[fl[i] := units[fl[i]] + extra];
      Listed(units', next, fl) && FreeCells(units', fl) == FreeCells(units, fl) + Cells(fl[i] + units[fl[i]], extra)
  {
    hide FreeCells, Circle;
    var units' := units[fl[i] := units[fl[i]] + extra];
    forall j | 0 <= j < |fl| && j != i ensures units'[fl[j]] == units[fl[j]] {
      Ordered(units, fl, i, j);
    }
    forall j | i < j < |fl| ensures fl[i] + units'[fl[i]] < fl[j] {
      if j > i + 1 {
        assert fl[i + 1] + units[fl[i + 1]] < fl[j];
      }
    }
    assert Spaced(units', fl);
    forall x
      ensures x in FreeCells(units', fl) <==> x in FreeCells(units, fl) || x in Cells(fl[i] + units[fl[i]], extra)
    {
      if x in FreeCells(units', fl) {
        var j := FreeAt(units', fl, x);
        if fl[j] <= x < fl[j] + units[fl[j]] {
          InFree(units, fl, j, x);
        }
      }
      if x in FreeCells(units, fl) {
        var j := FreeAt(units, fl, x);
        InFree(units', fl, j, x);
      }
      if x in Cells(fl[i] + units[fl[i]], extra) {
        InFree(units', fl, i, x);
      }
    }
  }

  /** Headers of blocks that are not on the list do not matter. */
  lemma {:induction false} OffList(units: Field, next: Field, fl: seq<int>, units': Field, next': Field)
    requires Listed(units, next, fl)
    requires forall i {:trigger fl[i]} | 0 <= i < |fl| ::
      fl[i] in units' && fl[i] in next' && units'[fl[i]] == units[fl[i]] && next'[fl[i]] == next[fl[i]]
    ensures Listed(units', next', fl) && FreeCells(units', fl) == FreeCells(units, fl)
  {
    forall i | 0 <= i < |fl| ensures Linked(next', fl, i) {
      LinkOf(next, fl, i);
    }
  }

  // The two halves of slob_free

  /** The place of b has no free unit, and what lies before it is not the arena's neighbour. */
  ghost predicate Gap(units: Field, fl: seq<int>, b: int, u: int, k: int)
    requires Sized(units, fl)
  {
    Slot(fl, b, k) && u > 0 && (k > 0 ==> fl[k - 1] + units[fl[k - 1]] <= b) && (k < |fl| ==> b + u <= fl[k])
  }

  /** The circle without the block after b, if that is adjacent. */
  ghost function Rest(fl: seq<int>, b: int, u: int, k: int): seq<int>
    requires 0 <= k <= |fl|
  {
    if k < |fl| && b + u == fl[k] then Without(fl, k) else fl
  }

  /** How large b becomes with the block after it, if that is adjacent. */
  ghost function Joined(units: Field, fl: seq<int>, b: int, u: int, k: int): int
    requires 0 <= k <= |fl| && Sized(units, fl)
  {
    if k < |fl| && b + u == fl[k] then u + units[fl[k]] else u
  }

  /** What b points to then. */
  ghost function Onward(next: Field, fl: seq<int>, b: int, u: int, k: int): int
    requires 0 <= k <= |fl| && Circle(next, fl)
  {
    if k < |fl| && b + u == fl[k] then next[fl[k]] else next[fl[Before(k, |fl|)]]
  }

  lemma {:induction false} JoinNext(units: Field, next: Field, fl: seq<int>, b: int, u: int, k: int)
    requires Listed(units, next, fl) && Gap(units, fl, b, u, k) && (|fl| == 1 && k == 0 ==> b + u != fl[0])
    ensures
      var p, fl' := fl[Before(k, |fl|)], Rest(fl, b, u, k);
      Listed(units, next[p := Onward(next, fl, b, u, k)], fl') &&
      Gap(units, fl', b, Joined(units, fl, b, u, k), k) && |fl'| > 0 && p == fl'[Before(k, |fl'|)] &&
      (k < |fl'| ==> b + Joined(units, fl, b, u, k) < fl'[k]) &&
      FreeCells(units, fl') + Cells(b, Joined(units, fl, b, u, k)) == FreeCells(units, fl) + Cells(b, u)
  {
    hide FreeCells, Circle, Spaced, Cells;
    SpacedSized(units, fl);
    SpacedLen(next, fl);
    var p := fl[Before(k, |fl|)];
    if k < |fl| && b + u == fl[k] {
      UnlinkListed(units, next, fl, k);
      JoinCells(units, fl, b, u, k);
      JoinGap(units, fl, b, u, k);
    } else {
      LinkOf(next, fl, Before(k, |fl|));
      assert next[p := next[p]] == next;
    }
  }

  lemma {:induction false} JoinCells(units: Field, fl: seq<int>, b: int, u: int, k: int)
    requires Spaced(units, fl) && 0 <= k < |fl| && u > 0 && b + u == fl[k]
    ensures Sized(units, Without(fl, k))
    ensures FreeCells(units, Without(fl, k)) + Cells(b, u + units[fl[k]]) == FreeCells(units, fl) + Cells(b, u)
  {
    hide FreeCells;
    UnlinkCells(units, fl, k);
    var more := Cells(fl[k], units[fl[k]]);
    forall x | x in more ensures x in FreeCells(units, fl) {
      InFree(units, fl, k, x);
    }
    assert Cells(b, u + units[fl[k]]) == Cells(b, u) + more;
  }

  lemma {:induction false} JoinGap(units: Field, fl: seq<int>, b: int, u: int, k: int)
    requires Spaced(units, fl) && Gap(units, fl, b, u, k) && k < |fl| && b + u == fl[k]
    ensures
      var fl', u' := Without(fl, k), u + units[fl[k]];
      Sized(units, fl') && Gap(units, fl', b, u', k) && (k < |fl'| ==> b + u' < fl'[k])
  {
    WithoutSpaced(units, fl, k);
    if k + 1 < |fl| {
      assert fl[k] + units[fl[k]] < fl[k + 1];
    }
  }

  lemma {:induction false} JoinPrev(units: Field, next: Field, fl: seq<int>, b: int, u: int, k: int)
    requires Listed(units, next, fl) && Gap(units, fl, b, u, k) && (k < |fl| ==> b + u < fl[k])
    ensures
      var p := fl[Before(k, |fl|)];
      if p + units[p] == b then
        var units' := units[p := units[p] + u];
        Listed(units', next, fl) && FreeCells(units', fl) == FreeCells(units, fl) + Cells(b, u)
      else
        p in next && Listed(units[b := u], next[b := next[p]][p := b], Inserted(fl, b, k)) &&
        FreeCells(units[b := u], Inserted(fl, b, k)) == FreeCells(units, fl) + Cells(b, u)
  {
    hide FreeCells, Circle, Spaced;
    SpacedSized(units, fl);
    SpacedLen(next, fl);
    var p := fl[Before(k, |fl|)];
    if p + units[p] == b {
      GrowListed(units, next, fl, k - 1, u);
    } else {
      InsertListed(units, next, fl, b, u, k);
      InsertCells(units, fl, b, u, k);
    }
  }

  /** The free list and the headers after b was given back between the blocks around k. */
  ghost function FreedList(units: Field, fl: seq<int>, b: int, u: int, k: int): seq<int>
    requires 0 <= k <= |fl| && |fl| > 0 && Sized(units, fl) && k <= |Rest(fl, b, u, k)|
  {
    var p := fl[Before(k, |fl|)];
    if p + units[p] == b then Rest(fl, b, u, k) else Inserted(Rest(fl, b, u, k), b, k)
  }

  ghost function FreedUnits(units: Field, fl: seq<int>, b: int, u: int, k: int): Field
    requires 0 <= k <= |fl| && |fl| > 0 && Sized(units, fl)
  {
    var p, u' := fl[Before(k, |fl|)], Joined(units, fl, b, u, k);
    if p + units[p] == b then units[b := u'][p := units[p] + u'] else units[b := u']
  }

  ghost function FreedNext(units: Field, next: Field, fl: seq<int>, b: int, u: int, k: int): Field
    requires 0 <= k <= |fl| && Circle(next, fl) && Sized(units, fl)
  {
    var p, on := fl[Before(k, |fl|)], Onward(next, fl, b, u, k);
    if p + units[p] == b then next[b := on][p := on] else next[b := on][p := b]
  }

  lemma {:induction false} FreedListed(units: Field, next: Field, fl: seq<int>, b: int, u: int, k: int)
    requires Listed(units, next, fl) && Gap(units, fl, b, u, k) && (|fl| == 1 && k == 0 ==> b + u != fl[0])
    ensures k <= |Rest(fl, b, u, k)|
    ensures
      var units', fl' := FreedUnits(units, fl, b, u, k), FreedList(units, fl, b, u, k);
      Listed(units', FreedNext(units, next, fl, b, u, k), fl') &&
      FreeCells(units', fl') == FreeCells(units, fl) + Cells(b, u)
  {
    hide FreeCells, Circle, Spaced, Cells, Inserted;
    SpacedSized(units, fl);
    SpacedLen(next, fl);
    JoinNext(units, next, fl, b, u, k);
    var p, u', on, rest := fl[Before(k, |fl|)], Joined(units, fl, b, u, k), Onward(next, fl, b, u, k),
      Rest(fl, b, u, k);
    JoinPrev(units, next[p := on], rest, b, u', k);
    if p + units[p] == b {
      SlotAbsent(rest, b, k);
      ListedDomain(units[p := units[p] + u'], next[p := on], rest);
      OffList(
        units[p := units[p] + u'], next[p := on], rest,
        units[b := u'][p := units[p] + u'], next[b := on][p := on]);
    } else {
      assert next[p := on][b := on][p := b] == next[b := on][p := b];
    }
  }

  lemma {:induction false} ListedDomain(units: Field, next: Field, fl: seq<int>)
    requires Listed(units, next, fl)
    ensures forall i {:trigger fl[i]} | 0 <= i < |fl| :: fl[i] in units && fl[i] in next
  {
  }

  lemma {:induction false} SlotAbsent(fl: seq<int>, b: int, k: int)
    requires Slot(fl, b, k)
    ensures forall i {:trigger fl[i]} | 0 <= i < |fl| :: fl[i] != b
  {
  }

  // Finding the place of a block

  ghost function Position(fl: seq<int>, b: int): (k: int)
    ensures 0 <= k <= |fl|
  {
    if fl == [] || b < fl[0] then 0 else 1 + Position(fl[1..], b)
  }

  lemma {:induction false} PositionSlot(units: Field, fl: seq<int>, b: int)
    requires Spaced(units, fl) && b !in fl
    ensures Slot(fl, b, Position(fl, b))
  {
    if fl != [] && b >= fl[0] {
      var rest := fl[1..];
      forall i, j | 0 <= i < j < |rest| ensures rest[i] + units[rest[i]] < rest[j] {
        assert fl[i + 1] + units[fl[i + 1]] < fl[j + 1];
      }
      assert b != fl[0] && forall i | 0 <= i < |rest| :: rest[i] == fl[i + 1];
      PositionSlot(units, rest, b);
    } else if fl != [] {
      forall i | 0 <= i < |fl| ensures b < fl[i] {
        Ordered(units, fl, 0, i);
      }
    }
  }

  /** When the search of slob_free stops at a block whose successor is nx. */
  predicate Stops(cur: int, nx: int, b: int) {
    (b > cur && b < nx) || (cur >= nx && (b > cur || b < nx))
  }

  lemma {:induction false} StopsIff(units: Field, fl: seq<int>, b: int, k: int, i: int)
    requires Spaced(units, fl) && Slot(fl, b, k) && 0 <= i < |fl|
    ensures Stops(fl[i], fl[After(i, |fl|)], b) <==> i == Before(k, |fl|)
  {
    Ordered(units, fl, i, After(i, |fl|));
  }
}
