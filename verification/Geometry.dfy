/** The shape of a volume: block groups, block numbering, and what the bitmaps say is used. */
module Geometry {
  import opened Bitops

  function Pow2(k: nat): (r: nat)
    ensures r >= 1
  {
    if k == 0 then 1 else 2 * Pow2(k - 1)
  }

  lemma {:induction false} Pow2Grows(k: nat, m: nat)
    requires k <= m
    ensures Pow2(k) <= Pow2(m)
    decreases m
  {
    if k < m {
      Pow2Grows(k, m - 1);
    }
  }

  /** Bitwise and of two unsigned numbers. */
  function BitAnd(x: nat, y: nat): nat {
    if x == 0 || y == 0 then 0 else 2 * BitAnd(x / 2, y / 2) + (x % 2) * (y % 2)
  }

  /** Bitwise or of two unsigned numbers. */
  function BitOr(x: nat, y: nat): nat
    decreases x + y
  {
    if x == 0 then y else if y == 0 then x
    else 2 * BitOr(x / 2, y / 2) + (if x % 2 == 1 || y % 2 == 1 then 1 else 0)
  }

  /** Bitwise exclusive or of two unsigned numbers. */
  function BitXor(x: nat, y: nat): nat
    decreases x + y
  {
    if x == 0 then y else if y == 0 then x
    else 2 * BitXor(x / 2, y / 2) + (if x % 2 == y % 2 then 0 else 1)
  }

  lemma MulAtLeast(b: int, k: int)
    requires b >= 0
    ensures k >= 1 ==> b * k >= b
    ensures k <= -1 ==> b * k <= -b
    ensures k >= 0 ==> b * k >= 0
  {
    if k >= 1 {
      assert b * k == b * (k - 1) + b;
    } else if k <= -1 {
      assert b * k == b * (k + 1) - b;
    }
  }

  lemma DivModUnique(a: nat, b: nat, q: nat, r: nat)
    requires a == b * q + r && r < b
    ensures a / b == q && a % b == r
  {
    var d := a / b;
    assert a == b * d + a % b;
    assert b * (d - q) == b * d - b * q;
    MulAtLeast(b, d - q);
  }

  lemma DoubledRemainder(x: nat, p: nat)
    requires p >= 1
    ensures x % (2 * p) == 2 * (x / 2 % p) + x % 2
  {
    var h := x / 2;
    var q, r := h / p, h % p;
    assert h == p * q + r;
    assert (2 * p) * q == 2 * (p * q);
    DivModUnique(x, 2 * p, q, 2 * r + x % 2);
  }

  lemma BitAndOdd(x: nat, y: nat)
    ensures BitAnd(x, 2 * y + 1) == 2 * BitAnd(x / 2, y) + x % 2
  {
    var m := 2 * y + 1;
    assert m / 2 == y && m % 2 == 1;
    if x > 0 {
      assert BitAnd(x, m) == 2 * BitAnd(x / 2, m / 2) + (x % 2) * (m % 2);
    }
  }

  lemma MaskStep(x: nat, p: nat, half: nat)
    requires p >= 1 && half == BitAnd(x / 2, p - 1) == x / 2 % p
    ensures BitAnd(x, 2 * p - 1) == x % (2 * p)
  {
    hide BitAnd;
    BitAndOdd(x, p - 1);
    DoubledRemainder(x, p);
  }

  /** Masking with a power of two minus one is the remainder. */
  lemma {:induction false} MaskIsMod(x: nat, k: nat)
    ensures BitAnd(x, Pow2(k) - 1) == x % Pow2(k)
  {
    if k > 0 {
      var p := Pow2(k - 1);
      MaskIsMod(x / 2, k - 1);
      MaskStep(x, p, BitAnd(x / 2, p - 1));
    }
  }

  type Pos = n: nat | n > 0 witness 1

  /** Constants of one mounted volume. `addrs` is the number of block addresses one block
      holds, a power of two. The system set holds the super block, descriptor,
      bitmap and inode table blocks of every group. */
  datatype Geo = Geo(
    groups: nat,
    perGroup: nat,
    first: nat,
    blocks: nat,
    reserved: nat,
    addrs: Pos,
    addrBits: nat,
    blockSize: Pos,
    system: set<nat>)
  {
    predicate AddrsOk() {
      addrs == Pow2(addrBits)
    }

    /** Sectors of 512 bytes in one block, the unit of i_blocks. */
    ghost function Sectors(): nat {
      blockSize / 512
    }

    /** What the mount code has checked, plus the layout rule that every group starts with
        a system block. */
    ghost predicate Valid() {
      && groups > 0
      && AddrsOk()
      && perGroup > 0 && perGroup % WORD == 0
      && first + (groups - 1) * perGroup < blocks <= first + groups * perGroup
      && blockSize >= 512
      && (forall b | b in system :: first <= b < blocks)
      && (forall i: nat | i < groups :: BlockNo(i, 0) in system)
    }

    function BlockNo(i: nat, j: nat): nat {
      j + i * perGroup + first
    }

    function GroupOf(b: nat): nat
      requires first <= b && perGroup > 0
    {
      (b - first) / perGroup
    }

    function BitOf(b: nat): (j: nat)
      requires first <= b && perGroup > 0
      ensures j < perGroup
    {
      (b - first) % perGroup
    }
  }

  lemma BlockNoInverse(g: Geo, i: nat, j: nat)
    requires g.Valid() && j < g.perGroup
    ensures g.GroupOf(g.BlockNo(i, j)) == i && g.BitOf(g.BlockNo(i, j)) == j
    ensures g.BlockNo(i, j) < g.blocks ==> i < g.groups
  {
    DivModUnique(i * g.perGroup + j, g.perGroup, i, j);
    assert g.perGroup * (i - g.groups) == i * g.perGroup - g.groups * g.perGroup;
    MulAtLeast(g.perGroup, i - g.groups);
  }

  lemma BlockNoOf(g: Geo, b: nat)
    requires g.Valid() && g.first <= b < g.blocks
    ensures g.GroupOf(b) < g.groups
    ensures g.BlockNo(g.GroupOf(b), g.BitOf(b)) == b
  {
    var q := (b - g.first) / g.perGroup;
    assert b - g.first == g.perGroup * q + (b - g.first) % g.perGroup;
    assert g.perGroup * (q - g.groups) == q * g.perGroup - g.groups * g.perGroup;
    MulAtLeast(g.perGroup, q - g.groups);
  }

  /** Neighbouring bits of a group are neighbouring blocks. */
  lemma BitRun(g: Geo, b: nat, k: nat)
    requires g.Valid() && g.first <= b && g.BitOf(b) + k < g.perGroup
    ensures g.GroupOf(b + k) == g.GroupOf(b) && g.BitOf(b + k) == g.BitOf(b) + k
  {
    var i, j := g.GroupOf(b), g.BitOf(b);
    assert b - g.first == g.perGroup * i + j;
    DivModUnique(b + k - g.first, g.perGroup, i, j + k);
  }

  // ----- the bitmaps of all groups

  type Bitmaps = seq<Bits>

  ghost predicate Shaped(g: Geo, bm: Bitmaps) {
    |bm| == g.groups && forall i | 0 <= i < |bm| :: |bm[i]| == g.perGroup
  }

  predicate IsUsed(g: Geo, bm: Bitmaps, b: nat)
    requires g.Valid() && Shaped(g, bm) && g.first <= b < g.blocks
  {
    BlockNoOf(g, b);
    bm[g.GroupOf(b)][g.BitOf(b)]
  }

  /** The blocks whose bit is set. */
  ghost function Used(g: Geo, bm: Bitmaps): set<nat>
    requires g.Valid() && Shaped(g, bm)
  {
    set b: nat | g.first <= b < g.blocks && IsUsed(g, bm, b)
  }

  /** Bits past the end of the volume are set. */
  ghost predicate Padded(g: Geo, bm: Bitmaps)
    requires Shaped(g, bm)
  {
    forall i: nat, j: nat | i < g.groups && j < g.perGroup && g.BlockNo(i, j) >= g.blocks :: bm[i][j]
  }

  /** The counters of the descriptors and of the super block are the numbers of clear bits. */
  ghost predicate Counted(g: Geo, bm: Bitmaps, groupFree: seq<nat>, free: nat) {
    && |groupFree| == |bm|
    && (forall i | 0 <= i < |bm| :: groupFree[i] == CountFree(bm[i]))
    && free == Sum(groupFree)
  }

  function WithBit(bm: Bitmaps, i: nat, j: nat, v: bool): Bitmaps
    requires i < |bm| && j < |bm[i]|
  {
    bm[i := bm[i][j := v]]
  }

  lemma WithBitUsed(g: Geo, bm: Bitmaps, i: nat, j: nat, v: bool)
    requires g.Valid() && Shaped(g, bm) && Padded(g, bm)
    requires i < g.groups && j < g.perGroup
    requires g.BlockNo(i, j) < g.blocks
    ensures Shaped(g, WithBit(bm, i, j, v)) && Padded(g, WithBit(bm, i, j, v))
    ensures Used(g, WithBit(bm, i, j, v)) ==
            if v then Used(g, bm) + {g.BlockNo(i, j)} else Used(g, bm) - {g.BlockNo(i, j)}
  {
    var bm' := WithBit(bm, i, j, v);
    BlockNoInverse(g, i, j);
    forall b: nat | g.first <= b < g.blocks
      ensures IsUsed(g, bm', b) == if b == g.BlockNo(i, j) then v else IsUsed(g, bm, b)
    {
      BlockNoOf(g, b);
    }
  }

  lemma WithBitCounted(g: Geo, bm: Bitmaps, groupFree: seq<nat>, free: nat, i: nat, j: nat, v: bool)
    requires Counted(g, bm, groupFree, free)
    requires i < |bm| && j < |bm[i]| && bm[i][j] != v
    ensures v ==> groupFree[i] > 0 && free > 0
    ensures var d: int := if v then -1 else 1;
            groupFree[i] + d >= 0 && free + d >= 0 &&
            Counted(g, WithBit(bm, i, j, v), groupFree[i := groupFree[i] + d], free + d)
  {
    CountFreeUpdate(bm[i], j, v);
    if v {
      CountFreePositive(bm[i]);
    }
    SumUpdate(groupFree, i, CountFree(bm[i][j := v]));
  }

  /** A positive free count in the super block means some descriptor has one too. */
  lemma SomeGroupFree(g: Geo, bm: Bitmaps, groupFree: seq<nat>, free: nat)
    requires Counted(g, bm, groupFree, free) && free > 0
    ensures exists i :: 0 <= i < |groupFree| && groupFree[i] > 0
  {
    if forall i | 0 <= i < |groupFree| :: groupFree[i] == 0 {
      SumZero(groupFree);
    }
  }

  /** The bitmaps fit the volume, their padding is set, the counters agree, and exactly the
      given blocks are used. */
  ghost predicate Allocation(g: Geo, bm: Bitmaps, groupFree: seq<nat>, free: nat, used: set<nat>) {
    g.Valid() && Shaped(g, bm) && Padded(g, bm) && Counted(g, bm, groupFree, free) && Used(g, bm) == used
  }

  lemma AllocationIs(g: Geo, bm: Bitmaps, groupFree: seq<nat>, free: nat, used: set<nat>)
    requires Allocation(g, bm, groupFree, free, used)
    ensures g.Valid() && Shaped(g, bm) && Used(g, bm) == used
  {
  }

  /** Clearing the bit of a block, with the counters, frees exactly that block. */
  lemma ClearedBit(g: Geo, bm: Bitmaps, groupFree: seq<nat>, free: nat, used: set<nat>, b: nat)
    requires Allocation(g, bm, groupFree, free, used)
    requires g.first <= b < g.blocks
    ensures g.GroupOf(b) < g.groups == |bm| == |groupFree| && g.BitOf(b) < |bm[g.GroupOf(b)]|
    ensures !bm[g.GroupOf(b)][g.BitOf(b)] ==> b !in used
    ensures bm[g.GroupOf(b)][g.BitOf(b)] ==>
              var i := g.GroupOf(b);
              Allocation(g, WithBit(bm, i, g.BitOf(b), false), groupFree[i := groupFree[i] + 1], free + 1, used - {b})
  {
    BlockNoOf(g, b);
    var i, j := g.GroupOf(b), g.BitOf(b);
    if bm[i][j] {
      WithBitUsed(g, bm, i, j, false);
      WithBitCounted(g, bm, groupFree, free, i, j, false);
    }
  }

  /** Setting a clear bit, with the counters, uses exactly its block. */
  lemma SettingBit(g: Geo, bm: Bitmaps, groupFree: seq<nat>, free: nat, used: set<nat>, i: nat, j: nat)
    requires Allocation(g, bm, groupFree, free, used)
    requires i < g.groups && j < g.perGroup
    ensures i < |bm| == |groupFree| && j < |bm[i]|
    ensures bm[i][j] && g.BlockNo(i, j) < g.blocks ==> g.BlockNo(i, j) in used
    ensures !bm[i][j] ==>
              && g.first <= g.BlockNo(i, j) < g.blocks && g.BlockNo(i, j) !in used
              && groupFree[i] > 0 && free > 0
              && Allocation(g, WithBit(bm, i, j, true), groupFree[i := groupFree[i] - 1], free - 1,
                            used + {g.BlockNo(i, j)})
  {
    BlockNoInverse(g, i, j);
    if !bm[i][j] {
      WithBitUsed(g, bm, i, j, true);
      WithBitCounted(g, bm, groupFree, free, i, j, true);
    }
  }

  /** A run of blocks without system blocks lies in one group, because every group starts
      with a system block. */
  lemma RunInGroup(g: Geo, block: nat, count: nat)
    requires g.Valid() && count > 0 && g.first <= block && block + count <= g.blocks
    requires forall b | block <= b < block + count :: b !in g.system
    ensures g.BitOf(block) + count <= g.perGroup
  {
    var i := g.GroupOf(block);
    var start := g.BlockNo(i + 1, 0);
    BlockNoOf(g, block);
    assert start == block + g.perGroup - g.BitOf(block);
    BlockNoInverse(g, i + 1, 0);
    assert start < g.blocks ==> start in g.system;
  }
}
