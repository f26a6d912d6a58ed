/** From logical block numbers to slots and back: the four-level decomposition of
    ext2_bmap and ext2_getblk. */
module BlockMap {
  import opened Geometry
  import opened Slots

  /** Blocks addressed through a tree of the given depth. */
  function Span(a: nat, depth: nat): nat {
    if depth == 0 then 1 else a * Span(a, depth - 1)
  }

  /** First logical block below one of the inode's own addresses. */
  function TreeStart(a: nat, nr: nat): nat {
    if nr <= IND_BLOCK then nr
    else if nr == DIND_BLOCK then NDIR_BLOCKS + a
    else NDIR_BLOCKS + a + a * a
  }

  /** The number of logical blocks a file can have. */
  function Limit(a: nat): nat {
    NDIR_BLOCKS + a + a * a + a * a * a
  }

  /** Position of a slot among the slots of its depth. */
  function Index(a: nat, s: Slot): nat {
    if |s| <= 1 then 0 else Index(a, Parent(s)) * a + Last(s)
  }

  /** First logical block at or below a slot with `depth` levels under it. */
  function Start(a: nat, s: Slot, depth: nat): nat
    requires |s| >= 1
  {
    TreeStart(a, s[0]) + Index(a, s) * Span(a, depth)
  }

  function Logical(a: nat, s: Slot): nat
    requires |s| >= 1
  {
    Start(a, s, 0)
  }

  /** `x / addr_per_block` */
  function Quotient(g: Geo, x: nat): nat {
    x / g.addrs
  }

  /** `x / (addr_per_block * addr_per_block)` */
  function Quotient2(g: Geo, x: nat): nat {
    MulAtLeast(g.addrs, g.addrs);
    x / (g.addrs * g.addrs)
  }

  /** `x & (addr_per_block - 1)` */
  function Mask(g: Geo, x: nat): nat {
    BitAnd(x, g.addrs - 1)
  }

  /** Because a block holds a power of two of addresses, these are base-`a` digits. */
  lemma Digits(g: Geo, x: nat)
    requires g.AddrsOk()
    ensures Quotient2(g, x) == Quotient(g, x) / g.addrs
    ensures Mask(g, x) == x % g.addrs < g.addrs
    ensures x == g.addrs * Quotient(g, x) + Mask(g, x)
  {
    hide Pow2, BitAnd;
    MaskIsMod(x, g.addrBits);
    var a: nat := g.addrs;
    DivDiv(x, a);
    assert x == a * (x / a) + x % a;
  }

  /** The indices the original computes with / and with & (addr_per_block - 1). */
  function Offsets(g: Geo, block: nat): Slot {
    var a := g.addrs;
    if block < NDIR_BLOCKS then [block] else
    var b1 := block - NDIR_BLOCKS;
    if b1 < a then [IND_BLOCK, b1] else
    var b2 := b1 - a;
    if b2 < a * a then [DIND_BLOCK, Quotient(g, b2), Mask(g, b2)] else
    var b3 := b2 - a * a;
    [TIND_BLOCK, Quotient2(g, b3), Mask(g, Quotient(g, b3)), Mask(g, b3)]
  }

  lemma OffsetsShape(g: Geo, block: nat)
    ensures var s := Offsets(g, block);
            s == [block] || s == [IND_BLOCK, block - NDIR_BLOCKS] ||
            (|s| == 3 && s == [DIND_BLOCK, s[1], s[2]]) || (|s| == 4 && s == [TIND_BLOCK, s[1], s[2], s[3]])
    ensures |Offsets(g, block)| == 1 <==> block < NDIR_BLOCKS
  {
    hide Quotient, Quotient2, Mask;
  }

  lemma DivDiv(x: nat, a: nat)
    requires a > 0
    ensures a * a > 0 && x / (a * a) == x / a / a
  {
    var q := x / a;
    DivDivBy(x, a, q, x % a, q / a, q % a);
  }

  lemma DivDivBy(x: nat, a: nat, q: nat, r: nat, p: nat, t: nat)
    requires a > 0 && x == a * q + r && r < a && q == a * p + t && t < a
    ensures a * a > 0 && x / (a * a) == p
  {
    MulAtLeast(a, a);
    TwoDigits(x, a, p, t, r);
    DivModUnique(x, a * a, p, a * t + r);
  }

  lemma TwoDigits(x: nat, a: nat, p: nat, t: nat, r: nat)
    requires a > 0 && t < a && r < a && x == a * (a * p + t) + r
    ensures x == (a * a) * p + (a * t + r) && a * t + r < a * a
  {
    assert a * (a * p + t) == a * (a * p) + a * t;
    assert a * (a * p) == (a * a) * p;
    assert a * (a - t) == a * a - a * t;
    MulAtLeast(a, a - t);
  }

  lemma QuotientBound(x: nat, a: nat, n: nat)
    requires a > 0 && x < a * n
    ensures x / a < n
  {
    assert x == a * (x / a) + x % a;
    assert a * (x / a - n) == a * (x / a) - a * n;
    MulAtLeast(a, x / a - n);
  }

  /** Index of the four shapes a leaf slot can have. */
  lemma LogicalShapes(a: nat, i: nat, j: nat, k: nat)
    ensures Logical(a, [IND_BLOCK, i]) == NDIR_BLOCKS + i
    ensures Logical(a, [DIND_BLOCK, i, j]) == NDIR_BLOCKS + a + i * a + j
    ensures Logical(a, [TIND_BLOCK, i, j, k]) == NDIR_BLOCKS + a + a * a + (i * a + j) * a + k
  {
    assert Parent([IND_BLOCK, i]) == [IND_BLOCK];
    assert Index(a, [IND_BLOCK]) == 0 && Index(a, [IND_BLOCK, i]) == i;
    assert Parent([DIND_BLOCK, i, j]) == [DIND_BLOCK, i] && Parent([DIND_BLOCK, i]) == [DIND_BLOCK];
    assert Parent([TIND_BLOCK, i, j, k]) == [TIND_BLOCK, i, j];
    assert Parent([TIND_BLOCK, i, j]) == [TIND_BLOCK, i] && Parent([TIND_BLOCK, i]) == [TIND_BLOCK];
    assert Index(a, [DIND_BLOCK, i]) == i;
    assert Index(a, [TIND_BLOCK, i]) == i;
    assert Index(a, [TIND_BLOCK, i, j]) == i * a + j;
  }

  lemma DigitsBelow(a: nat, q: nat, r: nat, n: nat)
    requires r < a && q < n
    ensures q * a + r < a * n
  {
    assert a * (n - q) == a * n - a * q;
    MulAtLeast(a, n - q);
  }

  lemma SplitTwo(g: Geo, x: nat, n: nat)
    requires g.AddrsOk()
    requires x < g.addrs * n
    ensures Quotient(g, x) < n && Mask(g, x) < g.addrs
    ensures Quotient(g, x) * g.addrs + Mask(g, x) == x
  {
    Digits(g, x);
    QuotientBound(x, g.addrs, n);
  }

  lemma SplitThree(g: Geo, x: nat)
    requires g.AddrsOk()
    requires x < g.addrs * g.addrs * g.addrs
    ensures Quotient2(g, x) < g.addrs && Mask(g, Quotient(g, x)) < g.addrs && Mask(g, x) < g.addrs
    ensures (Quotient2(g, x) * g.addrs + Mask(g, Quotient(g, x))) * g.addrs + Mask(g, x) == x
  {
    var a := g.addrs;
    assert a * (a * a) == a * a * a;
    SplitTwo(g, x, a * a);
    SplitTwo(g, Quotient(g, x), a);
    Digits(g, x);
  }

  lemma JoinTwo(g: Geo, i: nat, j: nat)
    requires g.AddrsOk()
    requires j < g.addrs
    ensures Quotient(g, i * g.addrs + j) == i && Mask(g, i * g.addrs + j) == j
  {
    var a := g.addrs;
    var x := i * a + j;
    assert x == a * i + j;
    DivModUnique(x, a, i, j);
    MaskIsMod(x, g.addrBits);
  }

  lemma JoinThree(g: Geo, i: nat, j: nat, k: nat)
    requires g.AddrsOk()
    requires j < g.addrs && k < g.addrs
    ensures var x := (i * g.addrs + j) * g.addrs + k;
            Quotient2(g, x) == i && Mask(g, Quotient(g, x)) == j && Mask(g, x) == k
  {
    var m := i * g.addrs + j;
    JoinTwo(g, m, k);
    JoinTwo(g, i, j);
    Digits(g, m * g.addrs + k);
  }

  /** Decomposing a logical block gives a leaf slot that numbers back to it. */
  lemma OffsetsIsLeaf(g: Geo, block: nat)
    requires g.AddrsOk()
    requires block < Limit(g.addrs)
    ensures IsLeaf(g, Offsets(g, block)) && Logical(g.addrs, Offsets(g, block)) == block
  {
    var a := g.addrs;
    var s := Offsets(g, block);
    if s[0] == TIND_BLOCK && |s| == 4 {
      SplitThree(g, block - NDIR_BLOCKS - a - a * a);
      LogicalShapes(a, s[1], s[2], s[3]);
    } else if s[0] == DIND_BLOCK && |s| == 3 {
      SplitTwo(g, block - NDIR_BLOCKS - a, a);
      LogicalShapes(a, s[1], s[2], 0);
    } else if s[0] == IND_BLOCK {
      LogicalShapes(a, s[1], 0, 0);
    }
  }

  lemma OffsetsOfTriple(g: Geo, i: nat, j: nat, k: nat)
    requires g.AddrsOk()
    requires i < g.addrs && j < g.addrs && k < g.addrs
    ensures Logical(g.addrs, [TIND_BLOCK, i, j, k]) < Limit(g.addrs)
    ensures Offsets(g, Logical(g.addrs, [TIND_BLOCK, i, j, k])) == [TIND_BLOCK, i, j, k]
  {
    var a := g.addrs;
    LogicalShapes(a, i, j, k);
    DigitsBelow(a, i, j, a);
    DigitsBelow(a, i * a + j, k, a * a);
    assert a * (a * a) == a * a * a;
    JoinThree(g, i, j, k);
  }

  lemma OffsetsOfDouble(g: Geo, i: nat, j: nat)
    requires g.AddrsOk()
    requires i < g.addrs && j < g.addrs
    ensures Logical(g.addrs, [DIND_BLOCK, i, j]) < Limit(g.addrs)
    ensures Offsets(g, Logical(g.addrs, [DIND_BLOCK, i, j])) == [DIND_BLOCK, i, j]
  {
    var a := g.addrs;
    LogicalShapes(a, i, j, 0);
    DigitsBelow(a, i, j, a);
    JoinTwo(g, i, j);
  }

  lemma OffsetsOfSingle(g: Geo, i: nat)
    requires g.AddrsOk()
    requires i < g.addrs
    ensures Logical(g.addrs, [IND_BLOCK, i]) < Limit(g.addrs)
    ensures Offsets(g, Logical(g.addrs, [IND_BLOCK, i])) == [IND_BLOCK, i]
  {
    LogicalShapes(g.addrs, i, 0, 0);
  }

  lemma LimitAtLeast(a: nat)
    ensures Limit(a) >= NDIR_BLOCKS
  {
    assert a * a >= 0;
    assert (a * a) * a >= 0;
  }

  lemma OffsetsOfDirect(g: Geo, n: nat)
    requires g.AddrsOk()
    requires n < NDIR_BLOCKS
    ensures Logical(g.addrs, [n]) < Limit(g.addrs)
    ensures Offsets(g, Logical(g.addrs, [n])) == [n]
  {
    assert Index(g.addrs, [n]) == 0;
    hide Span;
    assert Logical(g.addrs, [n]) == n;
    LimitAtLeast(g.addrs);
  }

  /** Distinct leaf slots have distinct logical numbers, all below the limit. */
  lemma OffsetsOfLogical(g: Geo, s: Slot)
    requires g.AddrsOk()
    requires IsLeaf(g, s)
    ensures Logical(g.addrs, s) < Limit(g.addrs)
    ensures Offsets(g, Logical(g.addrs, s)) == s
  {
    if s[0] == TIND_BLOCK {
      assert s == [TIND_BLOCK, s[1], s[2], s[3]];
      OffsetsOfTriple(g, s[1], s[2], s[3]);
    } else if s[0] == DIND_BLOCK {
      assert s == [DIND_BLOCK, s[1], s[2]];
      OffsetsOfDouble(g, s[1], s[2]);
    } else if s[0] == IND_BLOCK {
      assert s == [IND_BLOCK, s[1]];
      OffsetsOfSingle(g, s[1]);
    } else {
      assert s == [s[0]];
      OffsetsOfDirect(g, s[0]);
    }
  }

  /** One block past the limit, which ext2_getblk lets through, indexes past the end of the
      triple indirect block. */
  lemma LimitIsOutOfRange(g: Geo)
    requires g.AddrsOk()
    ensures !IsSlot(g, Offsets(g, Limit(g.addrs)))
  {
    var a := g.addrs;
    MulAtLeast(a, a);
    var x := a * a * a;
    assert x == a * (a * a) && Limit(a) - NDIR_BLOCKS - a - a * a == x;
    DivModUnique(x, a, a * a, 0);
    DivModUnique(a * a, a, a, 0);
    Digits(g, x);
    assert Offsets(g, Limit(a))[1] == Quotient2(g, x);
  }

  // ----- ext2_bmap

  /** Entry nr of an indirect block that has been read. */
  function BlockEntry(disk: Disk, b: nat, nr: nat): nat {
    if b >= |disk| || nr >= |disk[b]| then 0 else disk[b][nr]
  }

  function Bmap(g: Geo, disk: Disk, data: seq<nat>, block: int): nat
    requires |data| == N_BLOCKS
  {
    var a := g.addrs;
    if block < 0 then 0
    else if block >= Limit(a) then 0
    else if block < NDIR_BLOCKS then data[block]
    else
      var b1 := block - NDIR_BLOCKS;
      if b1 < a then
        var i := data[IND_BLOCK];
        if i == 0 then 0 else BlockEntry(disk, i, b1)
      else
        var b2 := b1 - a;
        if b2 < a * a then
          var i := data[DIND_BLOCK];
          if i == 0 then 0 else
          var i1 := BlockEntry(disk, i, Quotient(g, b2));
          if i1 == 0 then 0 else BlockEntry(disk, i1, Mask(g, b2))
        else
          var b3 := b2 - a * a;
          var i := data[TIND_BLOCK];
          if i == 0 then 0 else
          var i1 := BlockEntry(disk, i, Quotient2(g, b3));
          if i1 == 0 then 0 else
          var i2 := BlockEntry(disk, i1, Mask(g, Quotient(g, b3)));
          if i2 == 0 then 0 else BlockEntry(disk, i2, Mask(g, b3))
  }

  lemma PtrShapes(disk: Disk, data: seq<nat>, n: nat, i: nat, j: nat, k: nat)
    requires |data| == N_BLOCKS && n < N_BLOCKS
    ensures Ptr(disk, data, [n, i]) == if data[n] == 0 then 0 else BlockEntry(disk, data[n], i)
    ensures Ptr(disk, data, [n, i, j]) ==
            var p := Ptr(disk, data, [n, i]); if p == 0 then 0 else BlockEntry(disk, p, j)
    ensures Ptr(disk, data, [n, i, j, k]) ==
            var p := Ptr(disk, data, [n, i, j]); if p == 0 then 0 else BlockEntry(disk, p, k)
  {
    assert Parent([n, i]) == [n];
    assert Parent([n, i, j]) == [n, i];
    assert Parent([n, i, j, k]) == [n, i, j];
  }

  /** The nested lookups of ext2_bmap read the slot of the logical block. */
  lemma BmapIsPtr(g: Geo, disk: Disk, data: seq<nat>, block: nat)
    requires g.AddrsOk()
    requires |data| == N_BLOCKS && block < Limit(g.addrs)
    ensures Bmap(g, disk, data, block) == Ptr(disk, data, Offsets(g, block))
  {
    var s := Offsets(g, block);
    if |s| == 2 {
      PtrShapes(disk, data, s[0], s[1], 0, 0);
    } else if |s| == 3 {
      PtrShapes(disk, data, s[0], s[1], s[2], 0);
    } else if |s| == 4 {
      PtrShapes(disk, data, s[0], s[1], s[2], s[3]);
    }
  }

  /** If only one slot changed, only its logical block maps elsewhere; a change in an
      indirect slot with nothing below it is not visible at all. */
  lemma BmapOnlyAt(g: Geo, disk: Disk, data: seq<nat>, disk': Disk, data': seq<nat>, slot: Slot, block: nat)
    requires g.AddrsOk()
    requires |data| == |data'| == N_BLOCKS && IsSlot(g, slot)
    requires OnlyAt(g, disk, data, disk', data', slot)
    requires block < Limit(g.addrs)
    ensures slot != Offsets(g, block) ==> Bmap(g, disk', data', block) == Bmap(g, disk, data, block)
    ensures slot == Offsets(g, block) ==> Bmap(g, disk', data', block) == Ptr(disk', data', slot)
  {
    OffsetsIsLeaf(g, block);
    BmapIsPtr(g, disk, data, block);
    BmapIsPtr(g, disk', data', block);
  }
}
