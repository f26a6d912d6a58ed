/** One mounted volume: block allocation (balloc.c), the block map of inodes (inode.c) and
    truncation (truncate.c), working in place on bitmaps, counters, block contents and
    in-core inodes. */
module Volume {
  import opened Bitops
  import opened Geometry
  import opened BlockSearch
  import opened Placement
  import opened Slots
  import opened BlockMap
  import opened Accounting
  import opened TreeSteps
  import opened Goals

  datatype Op =
    | Create(k: nat, group: nat, regular: bool, truncatable: bool)
    | Get(k: nat, block: int, create: bool)
    | Write(k: nat, block: int, content: seq<nat>)
    | Discard(k: nat)
    | Resize(k: nat, size: nat, busyPasses: nat)
    | Links(k: nat, nlink: nat)
    | Put(k: nat, busyPasses: nat)

  const ACL_IDX_INO: nat := 3
  const ACL_DATA_INO: nat := 4

  datatype Errno = EIO | EFBIG | ENOSPC

  // ----- what one operation of a run does

  /** A new in-core inode, as ext2_new_inode leaves it. */
  ghost function FreshInode(group: nat, regular: bool, truncatable: bool): Inode {
    Inode(seq(N_BLOCKS, _ => 0), 0, 0, 1, regular, group, truncatable, 0, 0, 0, 0)
  }

  /** First logical block past the end of a file of that size. */
  function EndBlock(g: Geo, size: nat): (r: nat)
    ensures size <= r * g.blockSize && (r > 0 ==> (r - 1) * g.blockSize < size)
  {
    var b: nat := g.blockSize;
    var r := (size + b - 1) / b;
    assert b * r + (size + b - 1) % b == size + b - 1 && (r - 1) * b == r * b - b;
    r
  }

  /** The end block in bytes: exactly the blocks that start before the end of the file come before it. */
  lemma BeforeEnd(g: Geo, size: nat, lb: nat)
    ensures lb < EndBlock(g, size) <==> lb * g.blockSize < size
  {
    hide EndBlock;
    var b: nat, r := g.blockSize, EndBlock(g, size);
    if lb < r {
      assert b * (r - 1 - lb) == (r - 1) * b - lb * b;
      MulAtLeast(b, r - 1 - lb);
    } else {
      assert b * (lb - r) == lb * b - r * b;
      MulAtLeast(b, lb - r);
    }
  }

  /** getblk: no file reads differently, no other logical block is mapped elsewhere, and every block
      that comes in on the way is put where the levels of the walk say. */
  ghost predicate Gets(g: Geo, maxBlocks: nat, s: Scene, k: nat, block: int, create: bool, r: nat, u: Scene) {
    var v, w := s.view, u.view;
    && OthersKept(g, v, w, k) && k in v.inodes && k in w.inodes && SameAttributes(v.inodes[k], w.inodes[k])
    && (forall lb: nat | lb < Limit(g.addrs) && lb != block :: w.Bmap(g, k, lb) == v.Bmap(g, k, lb))
    && (forall lb: nat | lb < Limit(g.addrs) :: w.Content(g, k, lb) == v.Content(g, k, lb))
    && (!create ==> w.disk == v.disk && u.used == s.used)
    && if 0 <= block < Limit(g.addrs) then
         && r == w.Bmap(g, k, block) && (v.Bmap(g, k, block) != 0 ==> r == v.Bmap(g, k, block))
         && (create && r == 0 ==> block >= maxBlocks || u.free <= g.reserved)
         && Grew(g, v, w, k, Offsets(g, block))
         && Walks(g, maxBlocks, Sequential(s, k, block), k, Offsets(g, block), block, create, u)
       else r == 0 && u == s
  }

  /** A block written: getblk with create, then the contents; exactly that block of that file reads
      differently. */
  ghost predicate Writes(g: Geo, maxBlocks: nat, s: Scene, k: nat, block: int, content: seq<nat>, ok: bool, u: Scene) {
    var v, w := s.view, u.view;
    && OthersKept(g, v, w, k) && OtherFilesSame(g, v, w, k)
    && k in v.inodes && k in w.inodes && SameAttributes(v.inodes[k], w.inodes[k])
    && (ok ==> 0 <= block < Limit(g.addrs) && w.Content(g, k, block) == content)
    && (!ok ==> block < 0 || block > Limit(g.addrs) || block >= maxBlocks || u.free <= g.reserved)
    && (exists r, m :: WrittenInto(g, maxBlocks, s, k, block, content, ok, r, m, u))
    && forall lb: nat | lb < Limit(g.addrs) && (!ok || lb != block) :: w.Content(g, k, lb) == v.Content(g, k, lb)
  }

  ghost predicate WrittenInto(g: Geo, maxBlocks: nat, s: Scene, k: nat, block: int, content: seq<nat>, ok: bool, r: nat, m: Scene,
                              u: Scene) {
    && Gets(g, maxBlocks, s, k, block, true, r, m) && (ok <==> r != 0)
    && if r == 0 then u == m else r < |m.view.disk| && u == m.(view := View(m.view.disk[r := content], m.view.inodes))
  }

  /** A new size and a truncation: blocks before the end read as before, the rest are unmapped, and
      exactly what the inode no longer holds is free. */
  ghost predicate Resizes(g: Geo, s: Scene, k: nat, size: nat, u: Scene) {
    var v, w := s.view, u.view;
    && k in v.inodes && k in w.inodes && OthersKept(g, v, w, k) && SameAttributes(v.inodes[k].(size := size), w.inodes[k])
    && u.used == s.used - Holds(g, v.disk, v.inodes[k]) + Holds(g, w.disk, w.inodes[k])
    && if v.inodes[k].truncatable then
         var cut := EndBlock(g, size);
         && Window(w.inodes[k]) == {}
         && (forall p :: EmptyBlock(g, w, k, p) <==> EmptyBlock(g, v, k, p) && PassedOver(g, p, cut))
         && (forall lb: nat | lb < Limit(g.addrs) ::
               && w.Bmap(g, k, lb) == (if lb * g.blockSize < size then v.Bmap(g, k, lb) else 0)
               && w.Content(g, k, lb) == (if lb * g.blockSize < size then v.Content(g, k, lb) else Zeros(g)))
       else w == View(v.disk, v.inodes[k := v.inodes[k].(size := size)])
  }

  /** The last reference dropped: the window goes back in any case. An inode with links stays; without
      links it goes with all its blocks, or, when it cannot be truncated, leaves its tree behind under
      a number that is no inode number. */
  ghost predicate Drops(g: Geo, bound: nat, s: Scene, k: nat, u: Scene)
    requires k in s.view.inodes
  {
    var v, w, n := s.view, u.view, s.view.inodes[k];
    if Keeps(k, n) then w == View(v.disk, v.inodes[k := n.(preallocCount := 0)]) && u.used == s.used - Window(n)
    else if n.truncatable then
      w.inodes == v.inodes - {k} && OtherFilesSame(g, v, w, k) && u.used == s.used - Holds(g, v.disk, n)
    else
      && u.used == s.used - Window(n)
      && exists o :: StandsFor(v, k, bound, o, w)
  }

  /** The tree of inode k has gone over to o, which is no inode number. */
  predicate StandsFor(v: View, k: nat, bound: nat, o: nat, w: View)
    requires k in v.inodes
  {
    o >= bound && o !in v.inodes && w == View(v.disk, (v.inodes - {k})[o := v.inodes[k].(preallocCount := 0)])
  }

  /** Whether ext2_put_inode keeps the inode. */
  ghost predicate Keeps(k: nat, n: Inode) {
    n.nlink != 0 || k == ACL_IDX_INO || k == ACL_DATA_INO
  }

  /** The operation leads from s to u and answers r. Operations on inodes that are not in core do
      nothing; the block just past the limit is not asked for. */
  ghost predicate Leads(g: Geo, maxBlocks: nat, bound: nat, s: Scene, op: Op, r: nat, u: Scene) {
    var v, k := s.view, op.k;
    if k !in v.inodes then
      u == if op.Create? then s.(view := View(v.disk, v.inodes[k := FreshInode(op.group, op.regular, op.truncatable)])) else s
    else
      match op
      case Create(_, _, _, _) => u == s
      case Get(_, block, create) => if block == Limit(g.addrs) then u == s else Gets(g, maxBlocks, s, k, block, create, r, u)
      case Write(_, block, content) =>
        if block == Limit(g.addrs) || |content| != g.addrs then u == s
        else Writes(g, maxBlocks, s, k, block, content, r != 0, u)
      case Discard(_) =>
        && u.view == View(v.disk, v.inodes[k := v.inodes[k].(preallocCount := 0)])
        && u.used == s.used - Window(v.inodes[k])
      case Resize(_, size, busyPasses) => Resizes(g, s, k, size, u)
      case Links(_, nlink) => u == s.(view := View(v.disk, v.inodes[k := v.inodes[k].(nlink := nlink)]))
      case Put(_, busyPasses) => Drops(g, bound, s, k, u)
  }

  /** Each operation leads from one state to the next. */
  ghost predicate IsRun(g: Geo, maxBlocks: nat, bound: nat, ops: seq<Op>, replies: seq<nat>, scenes: seq<Scene>) {
    && |replies| == |ops| && |scenes| == |ops| + 1
    && forall n {:trigger ops[n]} | 0 <= n < |ops| :: Leads(g, maxBlocks, bound, scenes[n], ops[n], replies[n], scenes[n + 1])
  }

  /** The used blocks are exactly the disjoint union of what the system zones and the inodes hold, and
      the counters count them. */
  ghost predicate InOrder(g: Geo, s: Scene) {
    && Books(g, s.used, s.view.disk, s.view.inodes, {}) && DiskShaped(g, s.view.disk) && g.system <= s.used
    && exists bm, groupFree :: CountedBy(g, s, bm, groupFree)
  }

  ghost predicate CountedBy(g: Geo, s: Scene, bm: Bitmaps, groupFree: seq<nat>) {
    g.Valid() && Shaped(g, bm) && Used(g, bm) == s.used && Allocation(g, bm, groupFree, s.free, s.used)
  }

  class Volume {
    const g: Geo
    /** The process limit on file size, in blocks. */
    const maxBlocks: nat
    var bitmap: Bitmaps
    var groupFree: seq<nat>
    var free: nat
    var disk: Disk
    var inodes: Inodes

    // ----- balloc.c

    /** The bitmaps fit the volume, padding and system bits are set, and every counter is the
        number of clear bits. */
    ghost predicate BitmapsOk()
      reads this
    {
      && g.Valid() && Shaped(g, bitmap)
      && Allocation(g, bitmap, groupFree, free, Used(g, bitmap))
      && g.system <= Used(g, bitmap)
      && DiskShaped(g, disk)
    }

    /** The volume is sound while an operation holds the blocks of `extra`. */
    ghost predicate Sound(extra: set<nat>)
      reads this
    {
      BitmapsOk() && Books(g, Used(g, bitmap), disk, inodes, extra)
    }

    ghost function Now(): View
      reads this
    {
      View(disk, inodes)
    }

    ghost function Here(): Scene
      requires BitmapsOk()
      reads this
    {
      Scene(Now(), Used(g, bitmap), free)
    }

    /** ext2_free_blocks. A run outside the data zone is refused; a bit that is already clear
        is skipped and not counted. A run across a group boundary is a panic. */
    method FreeBlocks(block: nat, count: nat)
      requires BitmapsOk()
      requires block >= g.first && block + count <= g.blocks ==> g.BitOf(block) + count <= g.perGroup
      requires Run(block, count) !! g.system
      modifies `bitmap, `groupFree, `free
      ensures BitmapsOk()
      ensures block < g.first || block + count > g.blocks ==>
                bitmap == old(bitmap) && groupFree == old(groupFree) && free == old(free)
      ensures block >= g.first && block + count <= g.blocks ==>
                Used(g, bitmap) == old(Used(g, bitmap)) - Run(block, count)
    {
      if block < g.first || block + count > g.blocks {
        return;
      }
      ghost var used := Used(g, bitmap);
      if count > 0 {
        BlockNoOf(g, block);
      }
      ClearRun(block, count, used);
      AllocationIs(g, bitmap, groupFree, free, used - Run(block, count));
    }

    /** The loop of ext2_free_blocks over the bits of one run. */
    method ClearRun(block: nat, count: nat, ghost used: set<nat>)
      requires Allocation(g, bitmap, groupFree, free, used) && g.perGroup > 0
      requires g.first <= block && block + count <= g.blocks && g.BitOf(block) + count <= g.perGroup
      modifies `bitmap, `groupFree, `free
      ensures Allocation(g, bitmap, groupFree, free, used - Run(block, count))
    {
      hide Allocation, WithBit, Geo.GroupOf, Geo.BitOf, Geo.Valid, Shaped, Used;
      var group, bit := g.GroupOf(block), g.BitOf(block);
      assert used - Run(block, 0) == used;
      var i := 0;
      while i < count
        invariant i <= count
        invariant Allocation(g, bitmap, groupFree, free, used - Run(block, i))
      {
        AllocationIs(g, bitmap, groupFree, free, used - Run(block, i));
        BitRun(g, block, i);
        ClearedBit(g, bitmap, groupFree, free, used - Run(block, i), block + i);
        assert used - Run(block, i + 1) == used - Run(block, i) - {block + i};
        if bitmap[group][bit + i] {
          bitmap := WithBit(bitmap, group, bit + i, false);
          groupFree := groupFree[group := groupFree[group] + 1];
          free := free + 1;
        } else {
          assert used - Run(block, i + 1) == used - Run(block, i);
        }
        i := i + 1;
      }
    }

    /** Groups after i, cyclically, until one has free blocks by its counter. */
    method NextGroup(i: nat) returns (r: nat)
      requires BitmapsOk() && i < g.groups && free > 0
      ensures r < g.groups && FirstFreeAfter(bitmap, i, r)
    {
      hide Padded, Used, Geo.Valid, HasFree;
      ghost var some := GroupWithRoom();
      var k := 0;
      r := i;
      while k < g.groups
        invariant k <= g.groups && r == Advance(i, k, g.groups) && r < g.groups
        invariant NoneUpTo(bitmap, i, k)
      {
        RoomIsCounted(Next(r, g.groups));
        if groupFree[Next(r, g.groups)] > 0 {
          StopsAt(bitmap, i, k);
          return Next(r, g.groups);
        }
        r := Next(r, g.groups);
        k := k + 1;
      }
      VisitsAll(bitmap, i, some);
      assert false;
    }

    lemma RoomIsCounted(i: nat)
      requires BitmapsOk() && i < g.groups
      ensures |groupFree| == |bitmap| == g.groups && (groupFree[i] > 0 <==> HasFree(bitmap[i]))
    {
      CountFreePositive(bitmap[i]);
    }

    lemma GroupWithRoom() returns (some: nat)
      requires BitmapsOk() && free > 0
      ensures some < g.groups && HasFree(bitmap[some])
    {
      SomeGroupFree(g, bitmap, groupFree, free);
      some :| some < |groupFree| && groupFree[some] > 0;
      RoomIsCounted(some);
    }

    /** The search of ext2_new_block: the bit of the goal, the next 32 bits, the rest of the
        goal's group, then the other groups. */
    method FindBit(goal: nat) returns (i: nat, j: nat)
      requires BitmapsOk() && free > 0
      ensures Placed(bitmap, g.GroupOf(Goal(g, goal)), g.BitOf(Goal(g, goal)), i, j)
    {
      FirstInVolume(g);
      var goal' := if goal < g.first || goal >= g.blocks then g.first else goal;
      i := g.GroupOf(goal');
      BlockNoOf(g, goal');
      CountFreePositive(bitmap[i]);
      if groupFree[i] > 0 {
        var found;
        found, j := SearchGroup(bitmap[i], g.BitOf(goal'));
        if found {
          return;
        }
      }
      i := NextGroup(i);
      var found;
      found, j := SearchWhole(bitmap[i]);
    }

    /** ext2_new_block. It fails exactly when only reserved blocks are left. Otherwise the
        block was free, is placed by the search rule, and is zeroed; with preallocation up to
        seven free blocks right after it are taken too, as many as there are in the group.
        The panics for a bit already set and for a block past the end cannot happen. */
    method NewBlock(goal: nat, prealloc: bool) returns (block: nat, preallocBlock: nat, preallocCount: nat)
      requires BitmapsOk()
      modifies `bitmap, `groupFree, `free, `disk
      ensures BitmapsOk()
      ensures block == 0 <==> old(free) <= g.reserved
      ensures Gives(g, old(bitmap), old(free), goal, block) && Chosen(g, old(Used(g, bitmap)), goal, block)
      ensures block == 0 ==> bitmap == old(bitmap) && groupFree == old(groupFree) &&
                             free == old(free) && disk == old(disk)
      ensures block != 0 ==>
                && g.first <= block && block + preallocCount < g.blocks
                && Run(block, 1 + preallocCount) !! old(Used(g, bitmap))
                && Used(g, bitmap) == old(Used(g, bitmap)) + Run(block, 1 + preallocCount)
                && disk == old(disk)[block := Zeros(g)]
      ensures block != 0 && !prealloc ==> preallocCount == 0
      ensures block != 0 && prealloc ==>
                preallocBlock == block + 1 && WindowEnds(g, g.BitOf(block), block, preallocCount, old(Used(g, bitmap)))
    {
      if free <= g.reserved {
        return 0, 0, 0;
      }
      assert g.BlockNo(0, 0) in g.system;
      var i, j := FindBit(goal);
      BlockNoInverse(g, i, j);
      preallocCount := TakeBits(i, j, prealloc);
      block := g.BlockNo(i, j);
      preallocBlock := if prealloc then block + 1 else 0;
      assert block < g.blocks;
      DiskKeepsShape(g, disk, block);
      disk := disk[block := Zeros(g)];
    }

    /** The tail of ext2_new_block: the chosen bit, the preallocated bits after it, and the
        counters. */
    method TakeBits(i: nat, j: nat, prealloc: bool) returns (n: nat)
      requires BitmapsOk() && i < g.groups && j < g.perGroup && !bitmap[i][j]
      modifies `bitmap, `groupFree, `free
      ensures BitmapsOk()
      ensures var b := g.BlockNo(i, j);
              && g.first <= b && b + n < g.blocks && Run(b, 1 + n) !! old(Used(g, bitmap))
              && Used(g, bitmap) == old(Used(g, bitmap)) + Run(b, 1 + n)
              && (!prealloc ==> n == 0)
              && (prealloc ==> WindowEnds(g, j, b, n, old(Used(g, bitmap))))
    {
      ghost var used := Used(g, bitmap);
      n := SetBits(i, j, prealloc, used);
      AllocationIs(g, bitmap, groupFree, free, used + Run(g.BlockNo(i, j), 1 + n));
    }

    method SetBits(i: nat, j: nat, prealloc: bool, ghost used: set<nat>) returns (n: nat)
      requires Allocation(g, bitmap, groupFree, free, used) && g.Valid()
      requires i < g.groups == |bitmap| && j < g.perGroup == |bitmap[i]| && !bitmap[i][j]
      modifies `bitmap, `groupFree, `free
      ensures g.first <= g.BlockNo(i, j) && g.BlockNo(i, j) + n < g.blocks
      ensures Run(g.BlockNo(i, j), 1 + n) !! used
      ensures Allocation(g, bitmap, groupFree, free, used + Run(g.BlockNo(i, j), 1 + n))
      ensures !prealloc ==> n == 0
      ensures prealloc ==> WindowEnds(g, j, g.BlockNo(i, j), n, used)
    {
      hide Allocation, WithBit, Geo.Valid, Geo.BlockNo;
      SettingBit(g, bitmap, groupFree, free, used, i, j);
      bitmap := WithBit(bitmap, i, j, true);
      assert Run(g.BlockNo(i, j), 1) == {g.BlockNo(i, j)};
      n := 0;
      if prealloc {
        n := SetWindow(i, j, used);
      }
      groupFree := groupFree[i := groupFree[i] - (1 + n)];
      free := free - (1 + n);
    }

    /** The preallocation loop: sets clear bits after bit j until one is set, the group ends,
        or seven are taken. The counters follow later. */
    method SetWindow(i: nat, j: nat, ghost used: set<nat>) returns (n: nat)
      requires g.Valid() && i < g.groups == |groupFree| && j < g.perGroup
      requires groupFree[i] >= 1 && free >= 1 && g.BlockNo(i, j) < g.blocks && g.BlockNo(i, j) !in used
      requires Allocation(g, bitmap, groupFree[i := groupFree[i] - 1], free - 1, used + Run(g.BlockNo(i, j), 1))
      modifies `bitmap
      ensures groupFree[i] >= 1 + n && free >= 1 + n
      ensures g.BlockNo(i, j) + n < g.blocks && Run(g.BlockNo(i, j), 1 + n) !! used
      ensures Allocation(g, bitmap, groupFree[i := groupFree[i] - (1 + n)], free - (1 + n),
                         used + Run(g.BlockNo(i, j), 1 + n))
      ensures WindowEnds(g, j, g.BlockNo(i, j), n, used)
    {
      hide Allocation, WithBit;
      ghost var b := g.BlockNo(i, j);
      n := 0;
      while n + 1 < 8 && j + n + 1 < g.perGroup
        invariant n <= 7 && groupFree[i] >= 1 + n && free >= 1 + n && j + n + 1 <= g.perGroup
        invariant b + n < g.blocks && Run(b, 1 + n) !! used
        invariant Allocation(g, bitmap, groupFree[i := groupFree[i] - (1 + n)], free - (1 + n), used + Run(b, 1 + n))
      {
        assert g.BlockNo(i, j + n + 1) == b + n + 1;
        ghost var now := used + Run(b, 1 + n);
        SettingBit(g, bitmap, groupFree[i := groupFree[i] - (1 + n)], free - (1 + n), now, i, j + n + 1);
        if bitmap[i][j + n + 1] {
          break;
        }
        bitmap := WithBit(bitmap, i, j + n + 1, true);
        assert now + {b + n + 1} == used + Run(b, 2 + n);
        assert groupFree[i := groupFree[i] - (1 + n)][i := groupFree[i] - (2 + n)] == groupFree[i := groupFree[i] - (2 + n)];
        n := n + 1;
      }
    }

    // ----- inode.c

    /** ext2_discard_prealloc: the window goes back to the bitmaps. */
    method DiscardPrealloc(k: nat)
      requires Sound({}) && k in inodes
      modifies `bitmap, `groupFree, `free, `inodes
      ensures Sound({})
      ensures inodes == old(inodes)[k := old(inodes[k]).(preallocCount := 0)]
      ensures Used(g, bitmap) == old(Used(g, bitmap)) - old(Window(inodes[k]))
    {
      hide InodeOk, Partition, Owned, Allocation;
      var i := inodes[k].preallocCount;
      if i == 0 {
        assert inodes[k := inodes[k].(preallocCount := 0)] == inodes;
        assert Window(inodes[k]) == {};
        return;
      }
      ghost var used, window := Used(g, bitmap), Window(inodes[k]);
      HoldsApart(g, used, disk, inodes, {}, k);
      var n := inodes[k].(preallocCount := 0);
      Rewindowed(g, used, disk, inodes, {}, k, n, window);
      inodes := inodes[k := n];
      Released(g, used, disk, inodes, window, window);
      WindowInVolume(g, bitmap, n.preallocBlock, i);
      RunInGroup(g, n.preallocBlock, i);
      FreeBlocks(n.preallocBlock, i);
      assert window - window == {};
    }

    /** ext2_alloc_block: the first block of the window when the goal is at it, else the
        window is discarded and a block searched for from the goal; regular files get a new
        window. The block is zeroed and held by the caller; no tree changes. */
    method AllocBlock(k: nat, goal: nat) returns (result: nat)
      requires Sound({}) && k in inodes
      modifies this
      ensures result == 0 ==> Sound({}) && free <= g.reserved
      ensures result != 0 ==> Sound({result}) && result < |disk| && disk[result] == Zeros(g)
      ensures result != 0 ==> result !in old(Used(g, bitmap)) || result in old(Window(inodes[k]))
      ensures BitmapsOk() && Allocates(g, old(Here()), k, goal, result, Here())
      ensures Grew(g, old(Now()), Now(), k, [])
      ensures k in inodes && inodes[k] == old(inodes[k]).(
                preallocBlock := inodes[k].preallocBlock, preallocCount := inodes[k].preallocCount)
    {
      hide OthersKept, FileKept, Allocation, Chosen, Searched, Window, Books;
      if inodes[k].preallocCount != 0 && (goal == inodes[k].preallocBlock || goal + 1 == inodes[k].preallocBlock) {
        result := AllocFromWindow(k);
      } else {
        DiscardPrealloc(k);
        ghost var mid := Now();
        TreesKept(g, old(Now()), mid, k, []);
        result := AllocSearched(k, goal);
        GrewTrans(g, old(Now()), mid, Now(), k, []);
      }
    }

    /** The hit path: the first block of the window. */
    method AllocFromWindow(k: nat) returns (result: nat)
      requires Sound({}) && k in inodes && inodes[k].preallocCount != 0
      modifies this
      ensures result == old(inodes[k]).preallocBlock && result != 0
      ensures Sound({result}) && result < |disk| == |old(disk)| && disk == old(disk)[result := Zeros(g)]
      ensures bitmap == old(bitmap) && result in old(Window(inodes[k]))
      ensures Grew(g, old(Now()), Now(), k, [])
      ensures inodes == old(inodes)[k := old(inodes[k]).(preallocBlock := result + 1, preallocCount := old(inodes[k]).preallocCount - 1)]
    {
      hide Books, Allocation, Grew;
      var n := inodes[k];
      result := n.preallocBlock;
      WindowUsed(g, Used(g, bitmap), Now(), k);
      assert g.BlockNo(0, 0) in g.system;
      n := n.(preallocBlock := n.preallocBlock + 1, preallocCount := n.preallocCount - 1);
      inodes := inodes[k := n];
      DiskKeepsShape(g, disk, result);
      disk := disk[result := Zeros(g)];
      WindowStep(g, Used(g, bitmap), old(Now()), Now(), k, n);
    }

    /** The miss path: a searched block, and a new window for a regular file. */
    method AllocSearched(k: nat, goal: nat) returns (result: nat)
      requires Sound({}) && k in inodes && inodes[k].preallocCount == 0
      modifies this
      ensures BitmapsOk() && Chosen(g, old(Used(g, bitmap)), goal, result)
      ensures result == 0 ==> Sound({}) && Here() == old(Here()) && free <= g.reserved
      ensures result != 0 ==> Sound({result}) && result < |disk| == |old(disk)| && disk[result] == Zeros(g)
      ensures result != 0 ==> result !in old(Used(g, bitmap)) &&
                              Searched(g, old(Now()), old(Used(g, bitmap)), k, result, Here())
      ensures Grew(g, old(Now()), Now(), k, [])
      ensures k in inodes && inodes[k] == old(inodes[k]).(
                preallocBlock := inodes[k].preallocBlock, preallocCount := inodes[k].preallocCount)
    {
      hide Books, Allocation, Placed, Grew, Chosen, WindowEnds;
      var n := inodes[k];
      var pb, pc;
      result, pb, pc := NewBlock(goal, n.regular);
      if result == 0 {
        TreesKept(g, old(Now()), Now(), k, []);
        return;
      }
      if n.regular {
        n := n.(preallocBlock := pb, preallocCount := pc);
      }
      assert Window(n) == Run(result + 1, pc);
      inodes := inodes[k := n];
      assert !n.regular ==> inodes == old(inodes);
      SearchedStep(g, old(Used(g, bitmap)), old(Now()), Now(), k, n, result, pc);
    }

    /** The last address before position nr of a list of addresses; 0 if there is none. */
    method LastBefore(addrs: seq<nat>, nr: nat) returns (goal: nat)
      requires nr <= |addrs|
      ensures LastAddress(addrs, nr, goal)
    {
      var tmp := nr;
      goal := 0;
      while tmp > 0
        invariant 0 <= tmp <= nr <= |addrs| && forall j | tmp <= j < nr :: addrs[j] == 0
      {
        tmp := tmp - 1;
        if addrs[tmp] != 0 {
          return addrs[tmp];
        }
      }
    }

    /** The end of inode_getblk: the new block t becomes address nr of the inode. */
    method HookOwn(k: nat, nr: nat, t: nat, newBlock: nat, ghost target: Slot)
      requires Sound({t}) && k in inodes && nr < N_BLOCKS && [nr] <= target && Now().Ptr(k, [nr]) == 0
      requires 0 < t < |disk| && disk[t] == Zeros(g) && |inodes[k].data| == N_BLOCKS
      modifies this`inodes
      ensures Sound({}) && Grew(g, old(Now()), Now(), k, target)
      ensures HooksIn(g, old(Here()), k, [nr], newBlock, t, Here())
      ensures k in inodes && Now().Ptr(k, [nr]) == t
    {
      hide Books, Allocation, Grew;
      var n := inodes[k];
      var data: seq<nat> := n.data[nr := t];
      n := n.(data := data, nextAllocBlock := newBlock, nextAllocGoal := t, blocks := n.blocks + g.blockSize / 512);
      inodes := inodes[k := n];
      HookStep(g, Used(g, bitmap), old(Now()), Now(), {t}, k, n, [nr], t, target);
      assert {t} - {t} == {};
    }

    /** inode_getblk: the address in slot [nr], allocated and hooked in on demand. */
    method InodeGetblk(k: nat, nr: nat, create: bool, newBlock: nat, err: Errno, ghost target: Slot)
      returns (r: nat, err': Errno)
      requires Sound({}) && k in inodes && nr < N_BLOCKS && [nr] <= target
      modifies this
      ensures Sound({}) && Grew(g, old(Now()), Now(), k, target)
      ensures Level(g, maxBlocks, old(Here()), k, [nr], newBlock, create, Here())
      ensures k in inodes && r == Now().Ptr(k, [nr])
      ensures !create || old(Now().Ptr(k, [nr])) != 0 ==>
                bitmap == old(bitmap) && free == old(free) && disk == old(disk) && inodes == old(inodes)
      ensures create && r == 0 ==> newBlock >= maxBlocks || free <= g.reserved
      ensures err' == if r == 0 && (!create || newBlock >= maxBlocks) then EFBIG else err
    {
      hide Books, Allocation, OthersKept, FileKept, Chosen, Allocates;
      InodeShape(g, Used(g, bitmap), Now(), k);
      TreesKept(g, Now(), Now(), k, target);
      var tmp := inodes[k].data[nr];
      if tmp != 0 {
        return tmp, err;
      }
      if !create || newBlock >= maxBlocks {
        return 0, EFBIG;
      }
      var goal := if inodes[k].nextAllocBlock == newBlock then inodes[k].nextAllocGoal else 0;
      if goal == 0 {
        goal := LastBefore(inodes[k].data, nr);
        if goal == 0 {
          goal := inodes[k].group * g.perGroup + g.first;
        }
      }
      assert IsGoal(g, Now(), k, [nr], newBlock, goal);
      tmp := AllocBlock(k, goal);
      ghost var s := Here();
      GrewWider(g, old(Now()), Now(), k, [], target);
      assert Now().Ptr(k, [nr]) == 0;
      if tmp == 0 {
        assert FilledIn(g, old(Here()), k, [nr], newBlock, goal, tmp, s, Here());
        return 0, err;
      }
      ghost var mid := Now();
      HookOwn(k, nr, tmp, newBlock, target);
      GrewTrans(g, old(Now()), mid, Now(), k, target);
      assert FilledIn(g, old(Here()), k, [nr], newBlock, goal, tmp, s, Here());
      return tmp, err;
    }

    /** The end of block_getblk: the new block t goes into entry nr of the indirect block bh. */
    method HookBelow(k: nat, ghost parent: Slot, bh: nat, nr: nat, t: nat, newBlock: nat, ghost target: Slot)
      requires Sound({t}) && k in inodes && IsSlot(g, parent + [nr]) && parent + [nr] <= target && 1 <= |parent|
      requires bh == Now().Ptr(k, parent) && 0 < bh < |disk| && nr < |disk[bh]| && Now().Ptr(k, parent + [nr]) == 0
      requires 0 < t < |disk| && disk[t] == Zeros(g) && |inodes[k].data| == N_BLOCKS
      modifies this`disk, this`inodes
      ensures Sound({}) && Grew(g, old(Now()), Now(), k, target)
      ensures HooksIn(g, old(Here()), k, parent + [nr], newBlock, t, Here())
      ensures k in inodes && Now().Ptr(k, parent + [nr]) == t
    {
      hide Books, Allocation, Grew, Slots.Ptr;
      ghost var was := Now();
      var n := inodes[k].(nextAllocBlock := newBlock, nextAllocGoal := t, blocks := inodes[k].blocks + g.blockSize / 512);
      BelowStep(g, Used(g, bitmap), was, k, n, parent, nr, t, target);
      disk := Stored(disk, bh, nr, t);
      inodes := inodes[k := n];
    }

    /** block_getblk: the same for entry nr of the indirect block bh that the parent slot
        points to; nothing if there is no such block. */
    method BlockGetblk(k: nat, ghost parent: Slot, bh: nat, nr: nat, create: bool, newBlock: nat, err: Errno,
                       ghost target: Slot) returns (r: nat, err': Errno)
      requires Sound({}) && k in inodes && IsSlot(g, parent + [nr]) && parent + [nr] <= target
      requires 1 <= |parent| && Now().Ptr(k, parent) == bh
      modifies this
      ensures Sound({}) && Grew(g, old(Now()), Now(), k, target)
      ensures Level(g, maxBlocks, old(Here()), k, parent + [nr], newBlock, create, Here())
      ensures k in inodes && r == Now().Ptr(k, parent + [nr])
      ensures !create || bh == 0 || old(Now().Ptr(k, parent + [nr])) != 0 ==>
                bitmap == old(bitmap) && free == old(free) && disk == old(disk) && inodes == old(inodes)
      ensures create && bh != 0 && r == 0 ==> newBlock >= maxBlocks || free <= g.reserved
      ensures bh != 0 ==> err' == if r == 0 && (!create || newBlock >= maxBlocks) then EFBIG else err
      ensures bh == 0 ==> err' == err && r == 0
    {
      hide Books, Allocation, OthersKept, FileKept, Chosen, Allocates;
      ghost var slot := parent + [nr];
      assert Parent(slot) == parent && Last(slot) == nr;
      TreesKept(g, Now(), Now(), k, target);
      if bh == 0 {
        DeadPrefix(disk, inodes[k].data, parent, slot);
        return 0, err;
      }
      InodeShape(g, Used(g, bitmap), Now(), k);
      PrefixIsSlot(g, slot, |parent|);
      var tmp := disk[bh][nr];
      if tmp != 0 {
        return tmp, err;
      }
      if !create || newBlock >= maxBlocks {
        return 0, EFBIG;
      }
      var goal := if inodes[k].nextAllocBlock == newBlock then inodes[k].nextAllocGoal else 0;
      if goal == 0 {
        goal := LastBefore(disk[bh], nr);
        if goal == 0 {
          goal := bh;
        }
      }
      assert IsGoal(g, Now(), k, slot, newBlock, goal);
      tmp := AllocBlock(k, goal);
      ghost var s := Here();
      GrewWider(g, old(Now()), Now(), k, [], target);
      assert Now().Ptr(k, slot) == 0 && Now().Ptr(k, parent) == bh;
      if tmp == 0 {
        assert FilledIn(g, old(Here()), k, slot, newBlock, goal, tmp, s, Here());
        return 0, err;
      }
      ghost var mid := Now();
      HookBelow(k, parent, bh, nr, tmp, newBlock, target);
      GrewTrans(g, old(Now()), mid, Now(), k, target);
      assert FilledIn(g, old(Here()), k, slot, newBlock, goal, tmp, s, Here());
      return tmp, err;
    }

    /** Why a walk ends without a block: the size limit or a missing `create`, else a full volume. */
    ghost function Failure(create: bool, block: nat): Errno {
      if !create || block >= maxBlocks then EFBIG else ENOSPC
    }

    /** One more level of the walk: entry nr of the block found so far. */
    method Descend(k: nat, ghost s: Scene, ghost parent: Slot, bh: nat, nr: nat, create: bool, newBlock: nat,
                   err: Errno, ghost target: Slot) returns (r: nat, err': Errno)
      requires Sound({}) && k in inodes && IsSlot(g, parent + [nr]) && parent + [nr] <= target
      requires 1 <= |parent| && Now().Ptr(k, parent) == bh
      requires Grew(g, s.view, Now(), k, target) && Walks(g, maxBlocks, s, k, parent, newBlock, create, Here())
      requires create && bh == 0 ==> newBlock >= maxBlocks || free <= g.reserved
      requires err == if bh == 0 then Failure(create, newBlock) else ENOSPC
      modifies this
      ensures Sound({}) && k in inodes && r == Now().Ptr(k, parent + [nr])
      ensures Grew(g, s.view, Now(), k, target) && Walks(g, maxBlocks, s, k, parent + [nr], newBlock, create, Here())
      ensures !create || bh == 0 || s.view.Ptr(k, parent + [nr]) != 0 ==>
                bitmap == old(bitmap) && free == old(free) && disk == old(disk) && inodes == old(inodes)
      ensures create && r == 0 ==> newBlock >= maxBlocks || free <= g.reserved
      ensures err' == if r == 0 then Failure(create, newBlock) else ENOSPC
    {
      hide OthersKept, FileKept, Books, Allocation, Walks, Level;
      ghost var mid := Now();
      assert s.view.Ptr(k, parent + [nr]) != 0 ==> mid.Ptr(k, parent + [nr]) != 0;
      r, err' := BlockGetblk(k, parent, bh, nr, create, newBlock, err, target);
      GrewTrans(g, s.view, mid, Now(), k, target);
      WalksOn(g, maxBlocks, s, k, parent, nr, newBlock, create, old(Here()), Here());
    }

    /** The walk below the single indirect block. */
    method WalkSingle(k: nat, i: nat, create: bool, block: nat, err: Errno) returns (r: nat, err': Errno)
      requires Sound({}) && k in inodes && IsLeaf(g, [IND_BLOCK, i]) && err == ENOSPC
      modifies this
      ensures Sound({}) && k in inodes && Grew(g, old(Now()), Now(), k, [IND_BLOCK, i])
      ensures Walks(g, maxBlocks, old(Here()), k, [IND_BLOCK, i], block, create, Here())
      ensures err' == if r == 0 then Failure(create, block) else ENOSPC
      ensures r == Now().Ptr(k, [IND_BLOCK, i])
      ensures !create || old(Now().Ptr(k, [IND_BLOCK, i])) != 0 ==>
                bitmap == old(bitmap) && free == old(free) && disk == old(disk) && inodes == old(inodes)
      ensures create && r == 0 ==> block >= maxBlocks || free <= g.reserved
    {
      hide BitmapsOk, Books, Grew, Walks, Level;
      ghost var v0, s := Here(), [IND_BLOCK, i];
      PrefixesLive(g, v0.view, k, s);
      assert s[..1] == [IND_BLOCK] && [IND_BLOCK] + [i] == s;
      r, err' := InodeGetblk(k, IND_BLOCK, create, block, err, s);
      WalksFirst(g, maxBlocks, v0, k, IND_BLOCK, block, create, Here());
      r, err' := Descend(k, v0, [IND_BLOCK], r, i, create, block, err', s);
    }

    /** The walk below the double indirect block. */
    method WalkDouble(k: nat, i: nat, j: nat, create: bool, block: nat, err: Errno) returns (r: nat, err': Errno)
      requires Sound({}) && k in inodes && IsLeaf(g, [DIND_BLOCK, i, j]) && err == ENOSPC
      modifies this
      ensures Sound({}) && k in inodes && Grew(g, old(Now()), Now(), k, [DIND_BLOCK, i, j])
      ensures Walks(g, maxBlocks, old(Here()), k, [DIND_BLOCK, i, j], block, create, Here())
      ensures err' == if r == 0 then Failure(create, block) else ENOSPC
      ensures r == Now().Ptr(k, [DIND_BLOCK, i, j])
      ensures !create || old(Now().Ptr(k, [DIND_BLOCK, i, j])) != 0 ==>
                bitmap == old(bitmap) && free == old(free) && disk == old(disk) && inodes == old(inodes)
      ensures create && r == 0 ==> block >= maxBlocks || free <= g.reserved
    {
      hide BitmapsOk, Books, Grew, Walks, Level;
      ghost var v0, s := Here(), [DIND_BLOCK, i, j];
      PrefixesLive(g, v0.view, k, s);
      assert s[..1] == [DIND_BLOCK] && [DIND_BLOCK] + [i] == s[..2] && s[..2] + [j] == s;
      r, err' := InodeGetblk(k, DIND_BLOCK, create, block, err, s);
      WalksFirst(g, maxBlocks, v0, k, DIND_BLOCK, block, create, Here());
      r, err' := Descend(k, v0, s[..1], r, i, create, block, err', s);
      r, err' := Descend(k, v0, s[..2], r, j, create, block, err', s);
    }

    /** The walk below the triple indirect block. */
    method WalkTriple(k: nat, i: nat, j: nat, l: nat, create: bool, block: nat, err: Errno) returns (r: nat, err': Errno)
      requires Sound({}) && k in inodes && IsLeaf(g, [TIND_BLOCK, i, j, l]) && err == ENOSPC
      modifies this
      ensures Sound({}) && k in inodes && Grew(g, old(Now()), Now(), k, [TIND_BLOCK, i, j, l])
      ensures Walks(g, maxBlocks, old(Here()), k, [TIND_BLOCK, i, j, l], block, create, Here())
      ensures err' == if r == 0 then Failure(create, block) else ENOSPC
      ensures r == Now().Ptr(k, [TIND_BLOCK, i, j, l])
      ensures !create || old(Now().Ptr(k, [TIND_BLOCK, i, j, l])) != 0 ==>
                bitmap == old(bitmap) && free == old(free) && disk == old(disk) && inodes == old(inodes)
      ensures create && r == 0 ==> block >= maxBlocks || free <= g.reserved
    {
      hide BitmapsOk, Books, Grew, Walks, Level;
      ghost var v0, s := Here(), [TIND_BLOCK, i, j, l];
      PrefixesLive(g, v0.view, k, s);
      assert s[..1] == [TIND_BLOCK] && [TIND_BLOCK] + [i] == s[..2] && s[..2] + [j] == s[..3] && s[..3] + [l] == s;
      r, err' := InodeGetblk(k, TIND_BLOCK, create, block, err, s);
      WalksFirst(g, maxBlocks, v0, k, TIND_BLOCK, block, create, Here());
      r, err' := Descend(k, v0, s[..1], r, i, create, block, err', s);
      r, err' := Descend(k, v0, s[..2], r, j, create, block, err', s);
      r, err' := Descend(k, v0, s[..3], r, l, create, block, err', s);
    }

    /** The dispatch of ext2_getblk on the range of the logical block, which fixes the number
        of indices. */
    method Walk(k: nat, block: nat, create: bool, err: Errno) returns (r: nat, err': Errno)
      requires Sound({}) && k in inodes && block < Limit(g.addrs) && err == ENOSPC
      modifies this
      ensures Sound({}) && k in inodes && Grew(g, old(Now()), Now(), k, Offsets(g, block))
      ensures Walks(g, maxBlocks, old(Here()), k, Offsets(g, block), block, create, Here())
      ensures err' == if r == 0 then Failure(create, block) else ENOSPC
      ensures r == Now().Ptr(k, Offsets(g, block))
      ensures !create || old(Now().Ptr(k, Offsets(g, block))) != 0 ==>
                bitmap == old(bitmap) && free == old(free) && disk == old(disk) && inodes == old(inodes)
      ensures create && r == 0 ==> block >= maxBlocks || free <= g.reserved
    {
      assert g.AddrsOk();
      OffsetsIsLeaf(g, block);
      OffsetsShape(g, block);
      hide BitmapsOk, Books, Limit, Grew, IsLeaf, Logical, Offsets, Walks, Level;
      var s := Offsets(g, block);
      if |s| == 1 {
        ghost var v0 := Here();
        r, err' := InodeGetblk(k, block, create, block, err, s);
        WalksFirst(g, maxBlocks, v0, k, block, block, create, Here());
      } else if |s| == 2 {
        r, err' := WalkSingle(k, s[1], create, block, err);
      } else if |s| == 3 {
        r, err' := WalkDouble(k, s[1], s[2], create, block, err);
      } else {
        r, err' := WalkTriple(k, s[1], s[2], s[3], create, block, err);
      }
    }

    /** ext2_getblk: the block a logical block maps to, created on demand. Afterwards
        ext2_bmap gives that block, and gives what it gave before for every other logical
        block; no file reads differently, since new blocks are zeroed like the holes they
        replace. With create it fails only at the size limit or when only reserved blocks are
        left. The first block past the limit is excluded: the original lets it through and
        reads past the triple indirect block (BlockMap.LimitIsOutOfRange). */
    method Getblk(k: nat, block: int, create: bool) returns (r: nat, err: Errno)
      requires Sound({}) && k in inodes && block != Limit(g.addrs)
      modifies this
      ensures Sound({}) && k in inodes && OthersKept(g, old(Now()), Now(), k)
      ensures block < 0 || block > Limit(g.addrs) ==>
                r == 0 && err == EIO && bitmap == old(bitmap) && free == old(free) && disk == old(disk) && inodes == old(inodes)
      ensures 0 <= block < Limit(g.addrs) ==>
                && r == Now().Bmap(g, k, block)
                && (old(Now().Bmap(g, k, block)) != 0 ==> r == old(Now().Bmap(g, k, block)))
                && (create && r == 0 ==> block >= maxBlocks || free <= g.reserved)
                && Grew(g, old(Now()), Now(), k, Offsets(g, block))
                && Walks(g, maxBlocks, Sequential(old(Here()), k, block), k, Offsets(g, block), block, create, Here())
                && err == (if r == 0 then Failure(create, block) else ENOSPC)
      ensures forall lb: nat | lb < Limit(g.addrs) && lb != block ::
                Now().Bmap(g, k, lb) == old(Now().Bmap(g, k, lb))
      ensures forall lb: nat | lb < Limit(g.addrs) :: Now().Content(g, k, lb) == old(Now().Content(g, k, lb))
      ensures SameAttributes(old(inodes[k]), inodes[k])
      ensures !create ==> bitmap == old(bitmap) && free == old(free) && disk == old(disk)
      ensures Gets(g, maxBlocks, old(Here()), k, block, create, r, Here())
    {
      hide Books, Allocation, FileKept, Limit, BlockMap.Bmap, Offsets, Slots.Ptr, Walks;
      ghost var v0 := Now();
      TreesKept(g, v0, v0, k, []);
      if block < 0 {
        return 0, EIO;
      }
      if block > Limit(g.addrs) {
        return 0, EIO;
      }
      InodeShape(g, Used(g, bitmap), v0, k);
      if block == inodes[k].nextAllocBlock + 1 {
        var n := inodes[k].(nextAllocBlock := inodes[k].nextAllocBlock + 1,
                            nextAllocGoal := inodes[k].nextAllocGoal + 1);
        FieldsStep(g, Used(g, bitmap), v0, k, n, {});
        inodes := inodes[k := n];
      }
      ghost var v1 := Now();
      assert Here() == Sequential(old(Here()), k, block);
      TreesKept(g, v0, v1, k, Offsets(g, block));
      r, err := Walk(k, block, create, ENOSPC);
      GrewTrans(g, v0, v1, Now(), k, Offsets(g, block));
      InodeShape(g, Used(g, bitmap), Now(), k);
      GrewBmap(g, v0, Now(), k, block);
    }

    // ----- truncate.c

    /** Frees a run the operation in progress holds; it never crosses a group boundary. */
    method FreeHeld(block: nat, count: nat, ghost extra: set<nat>)
      requires Sound(extra) && count > 0 && Run(block, count) <= extra
      modifies `bitmap, `groupFree, `free
      ensures Sound(extra - Run(block, count))
      ensures Used(g, bitmap) == old(Used(g, bitmap)) - Run(block, count)
    {
      hide InodeOk, Allocation;
      Released(g, Used(g, bitmap), disk, inodes, extra, Run(block, count));
      WindowInVolume(g, bitmap, block, count);
      RunInGroup(g, block, count);
      FreeBlocks(block, count);
    }

    /** Adds a cleared block to the pending run, or frees the run and starts another. */
    method AddToRun(block: nat, count: nat, tmp: nat) returns (block': nat, count': nat)
      requires tmp !in Run(block, count) && Sound(Run(block, count) + {tmp})
      modifies `bitmap, `groupFree, `free
      ensures Sound(Run(block', count'))
      ensures if count > 0 && block + count == tmp then block' == block && count' == count + 1 && bitmap == old(bitmap)
              else block' == tmp && count' == 1 && Used(g, bitmap) == old(Used(g, bitmap)) - Run(block, count)
    {
      hide Books, BitmapsOk;
      ghost var pending := Run(block, count);
      if count == 0 {
        assert pending + {tmp} == Run(tmp, 1);
        return tmp, 1;
      }
      if block + count == tmp {
        assert pending + {tmp} == Run(block, count + 1);
        return block, count + 1;
      }
      FreeHeld(block, count, pending + {tmp});
      assert pending + {tmp} - pending == Run(tmp, 1);
      return tmp, 1;
    }

    method FlushRun(block: nat, count: nat)
      requires Sound(Run(block, count))
      modifies `bitmap, `groupFree, `free
      ensures Sound({}) && Used(g, bitmap) == old(Used(g, bitmap)) - Run(block, count)
    {
      hide Books, BitmapsOk;
      assert Run(block, count) - Run(block, count) == {};
      if count > 0 {
        FreeHeld(block, count, Run(block, count));
      } else {
        assert Run(block, count) == {};
      }
    }

    /** The step `*p = 0` with its i_blocks update, for a slot with nothing below it. */
    method ClearSlot(k: nat, p: Slot, ghost extra: set<nat>, ghost cut: nat) returns (tmp: nat)
      requires Sound(extra) && k in inodes && IsSlot(g, p) && Now().Ptr(k, p) != 0
      requires forall s | IsSlot(g, s) && p < s :: Now().Ptr(k, s) == 0
      requires (IsLeaf(g, p) ==> Logical(g.addrs, p) >= cut) && !PassedOver(g, p, cut)
      modifies `disk, `inodes
      ensures tmp == old(Now().Ptr(k, p)) && tmp !in extra && Sound(extra + {tmp})
      ensures Trimmed(g, old(Now()), Now(), k, cut, p) && Now().Ptr(k, p) == 0
    {
      hide Books, Allocation, Trimmed, IsLeaf, Logical;
      ghost var v := Now();
      LiveCounts(g, Used(g, bitmap), v, extra, k, p);
      var n := inodes[k];
      tmp := Slots.Ptr(disk, n.data, p);
      n := n.(blocks := n.blocks - g.blockSize / 512);
      if |p| == 1 {
        var data: seq<nat> := n.data[p[0] := 0];
        n := n.(data := data);
      } else {
        PrefixIsSlot(g, p, |p| - 1);
        LiveCounts(g, Used(g, bitmap), v, extra, k, Parent(p));
        disk := Stored(disk, Slots.Ptr(disk, n.data, Parent(p)), Last(p), 0);
      }
      inodes := inodes[k := n];
      ClearStep(g, Used(g, bitmap), v, Now(), extra, k, n, p, cut);
    }

    /** The loop body trunc_direct and trunc_indirect share: a mapped block whose buffer is
        not busy is unmapped and added to the pending run; a busy one is left. */
    method TrimLeaf(k: nat, q: Slot, mayBusy: bool, block: nat, count: nat, ghost cut: nat)
      returns (busy: bool, block': nat, count': nat)
      requires Sound(Run(block, count)) && k in inodes && IsLeaf(g, q) && Logical(g.addrs, q) >= cut
      modifies this
      ensures Sound(Run(block', count')) && Trimmed(g, old(Now()), Now(), k, cut, q)
      ensures !busy ==> Finished(g, Now(), k, cut, q)
      ensures !mayBusy ==> !busy
    {
      hide Books, Allocation, Trimmed, Finished, Logical;
      TrimmedRefl(g, Now(), k, cut, q);
      busy, block', count' := false, block, count;
      if Slots.Ptr(disk, inodes[k].data, q) == 0 {
        LeafFinished(g, Now(), k, cut, q);
        return;
      }
      if mayBusy {
        busy := *;
        if busy {
          return;
        }
      }
      NothingBelowLeaf(g, q);
      var tmp := ClearSlot(k, q, Run(block, count), cut);
      ghost var v := Now();
      block', count' := AddToRun(block, count, tmp);
      LeafFinished(g, Now(), k, cut, q);
    }

    /** trunc_direct: unmaps the inode's own data addresses past the cut. */
    method TruncDirect(k: nat, mayBusy: bool, ghost cut: nat) returns (retry: bool)
      requires Sound({}) && k in inodes && cut == EndBlock(g, inodes[k].size)
      modifies this
      ensures Sound({}) && Trimmed(g, old(Now()), Now(), k, cut, [])
      ensures !retry ==> DirectBefore(g, Now(), k, cut, NDIR_BLOCKS)
      ensures !mayBusy ==> !retry
    {
      hide Sound, Trimmed, Finished, DirectBefore, EndBlock;
      var i := EndBlock(g, inodes[k].size);
      ghost var v0 := Now();
      var block: nat, count: nat := 0, 0;
      retry := false;
      TrimmedRefl(g, v0, k, cut, []);
      assert Run(block, count) == {};
      DirectSkipped(g, v0, k, cut);
      while i < NDIR_BLOCKS
        invariant cut <= i && k in inodes
        invariant Sound(Run(block, count)) && Trimmed(g, v0, Now(), k, cut, [])
        invariant !retry ==> DirectBefore(g, Now(), k, cut, i)
        invariant !mayBusy ==> !retry
      {
        ghost var v := Now();
        var busy;
        busy, block, count := TrimLeaf(k, [i], mayBusy, block, count, cut);
        DirectStep(g, v0, v, Now(), k, cut, i, !retry && !busy);
        if busy {
          retry := true;
        }
        i := i + 1;
      }
      FlushRun(block, count);
      DirectDone(g, Now(), k, cut, i, !retry);
    }

    /** The end of trunc_indirect, trunc_dindirect and trunc_tindirect: an indirect block left
        without addresses is freed unless its buffer is busy. */
    method FreeIfEmpty(k: nat, p: Slot, mayBusy: bool, ghost cut: nat) returns (retry: bool)
      requires Sound({}) && k in inodes && IsSlot(g, p) && !IsLeaf(g, p) && Now().Ptr(k, p) != 0
      requires !PassedOver(g, p, cut)
      modifies this
      ensures Sound({}) && Trimmed(g, old(Now()), Now(), k, cut, p)
      ensures !mayBusy ==> !retry
      ensures HasChild(g, old(Now()), k, p) || retry ==> Now() == old(Now())
      ensures !HasChild(g, old(Now()), k, p) && !retry ==> Now().Ptr(k, p) == 0
    {
      hide Books, Allocation, Trimmed;
      ghost var v := Now();
      TrimmedRefl(g, v, k, cut, p);
      LiveCounts(g, Used(g, bitmap), v, {}, k, p);
      retry := false;
      var tmp := Slots.Ptr(disk, inodes[k].data, p);
      var i := 0;
      while i < g.addrs && disk[tmp][i] == 0
        invariant i <= g.addrs && Now() == v
        invariant forall j | 0 <= j < i :: disk[tmp][j] == 0
      {
        i := i + 1;
      }
      ChildrenOfBlock(g, v, k, p);
      if i >= g.addrs {
        if mayBusy {
          retry := *;
        }
        if !retry {
          NoChildNothingBelow(g, v, k, p);
          tmp := ClearSlot(k, p, {}, cut);
          assert {} + {tmp} == {tmp} == Run(tmp, 1) && {tmp} - Run(tmp, 1) == {};
          FreeHeld(tmp, 1, {tmp});
        }
      }
    }

    /** trunc_indirect: the data addresses past the cut in the indirect block slot p points
        to, whose first entry maps logical block `offset`. */
    method TruncIndirect(k: nat, offset: nat, p: Slot, mayBusy: bool) returns (retry: bool)
      requires Sound({}) && k in inodes && IsSlot(g, p) && Levels(p) == 1
      requires offset == Start(g.addrs, p, 1) && !PassedOver(g, p, EndBlock(g, inodes[k].size))
      modifies this
      ensures Sound({}) && Trimmed(g, old(Now()), Now(), k, old(EndBlock(g, inodes[k].size)), p)
      ensures !retry ==> Finished(g, Now(), k, old(EndBlock(g, inodes[k].size)), p)
      ensures !mayBusy ==> !retry
    {
      hide Sound, Trimmed, Finished, FinishedBefore, Start, EndBlock, PassedOver;
      var cut := EndBlock(g, inodes[k].size);
      ghost var v0 := Now();
      TrimmedRefl(g, v0, k, cut, p);
      retry := false;
      var tmp := Slots.Ptr(disk, inodes[k].data, p);
      if tmp == 0 {
        DeadIsFinished(g, v0, k, cut, p);
        return;
      }
      var indirectBlock: int := cut - offset;
      var i := if indirectBlock < 0 then 0 else indirectBlock;
      SkippedFinished(g, v0, k, cut, p, if i < g.addrs then i else g.addrs);
      var block: nat, count: nat := 0, 0;
      assert Run(block, count) == {};
      while i < g.addrs
        invariant 0 <= i && cut <= offset + i && k in inodes
        invariant Sound(Run(block, count)) && Trimmed(g, v0, Now(), k, cut, p)
        invariant Now().Ptr(k, p) == tmp
        invariant !retry ==> FinishedBefore(g, Now(), k, cut, p, if i < g.addrs then i else g.addrs)
        invariant !mayBusy ==> !retry
      {
        ghost var v := Now();
        var busy;
        ChildStart(g.addrs, p, i, 0);
        busy, block, count := TrimLeaf(k, p + [i], mayBusy, block, count, cut);
        ChildStep(g, v0, v, Now(), k, cut, p, i, !retry && !busy);
        if busy {
          retry := true;
        }
        i := i + 1;
      }
      FlushRun(block, count);
      retry := FinishBlock(k, p, mayBusy, retry, v0, cut);
    }

    /** The indirect block itself, once its entries are done. */
    method FinishBlock(k: nat, p: Slot, mayBusy: bool, retry: bool, ghost v0: View, ghost cut: nat)
      returns (retry': bool)
      requires Sound({}) && k in inodes && IsSlot(g, p) && Levels(p) >= 1 && Now().Ptr(k, p) != 0
      requires Trimmed(g, v0, Now(), k, cut, p)
      requires !PassedOver(g, p, cut) && (!retry ==> FinishedBefore(g, Now(), k, cut, p, g.addrs))
      modifies this
      ensures Sound({}) && Trimmed(g, v0, Now(), k, cut, p)
      ensures !retry' ==> !retry && Finished(g, Now(), k, cut, p)
      ensures !mayBusy && !retry ==> !retry'
    {
      hide Books, BitmapsOk, Trimmed, Finished, FinishedBefore;
      ghost var v := Now();
      var more := FreeIfEmpty(k, p, mayBusy, cut);
      TrimmedTrans(g, v0, v, Now(), k, cut, p, p);
      TrimmedKeys(g, v, Now(), k, cut, p);
      retry' := retry || more;
      if !retry' {
        if HasChild(g, v, k, p) {
          AllFinished(g, v, k, cut, p);
        } else {
          DeadIsFinished(g, Now(), k, cut, p);
        }
      }
    }

    /** trunc_dindirect: every indirect block from the one the cut falls in. */
    method TruncDindirect(k: nat, offset: nat, p: Slot, mayBusy: bool) returns (retry: bool)
      requires Sound({}) && k in inodes && IsSlot(g, p) && Levels(p) == 2
      requires offset == Start(g.addrs, p, 2) && !PassedOver(g, p, EndBlock(g, inodes[k].size))
      modifies this
      ensures Sound({}) && Trimmed(g, old(Now()), Now(), k, old(EndBlock(g, inodes[k].size)), p)
      ensures !retry ==> Finished(g, Now(), k, old(EndBlock(g, inodes[k].size)), p)
      ensures !mayBusy ==> !retry
    {
      hide Sound, Trimmed, Finished, FinishedBefore, Start, EndBlock, PassedOver;
      var cut := EndBlock(g, inodes[k].size);
      ghost var v0 := Now();
      TrimmedRefl(g, v0, k, cut, p);
      retry := false;
      var tmp := Slots.Ptr(disk, inodes[k].data, p);
      if tmp == 0 {
        DeadIsFinished(g, v0, k, cut, p);
        return;
      }
      var i := FirstChild(cut - offset, g.addrs);
      SpanIs(g.addrs);
      SkippedBy(g, v0, k, cut, p, offset, i, 1);
      ghost var first := i;
      while i < g.addrs
        invariant first <= i && k in inodes && Sound({}) && Trimmed(g, v0, Now(), k, cut, p)
        invariant Now().Ptr(k, p) == tmp && EndBlock(g, inodes[k].size) == cut
        invariant !retry ==> FinishedBefore(g, Now(), k, cut, p, if i < g.addrs then i else g.addrs)
        invariant !mayBusy ==> !retry
      {
        ghost var v := Now();
        ChildStart(g.addrs, p, i, 1);
        ChildIsSlot(g, p, i);
        VisitedReaches(g, cut, p, offset, first, i, 1);
        var more := false;
        if Slots.Ptr(disk, inodes[k].data, p + [i]) != 0 {
          more := TruncIndirect(k, offset + i * g.addrs, p + [i], mayBusy);
        } else {
          TrimmedRefl(g, v, k, cut, p + [i]);
          DeadIsFinished(g, v, k, cut, p + [i]);
        }
        ChildStep(g, v0, v, Now(), k, cut, p, i, !retry && !more);
        retry := retry || more;
        i := i + 1;
      }
      retry := FinishBlock(k, p, mayBusy, retry, v0, cut);
    }

    /** trunc_tindirect: every double indirect block from the one the cut falls in. */
    method TruncTindirect(k: nat, mayBusy: bool) returns (retry: bool)
      requires Sound({}) && k in inodes
      modifies this
      ensures Sound({}) && Trimmed(g, old(Now()), Now(), k, old(EndBlock(g, inodes[k].size)), [TIND_BLOCK])
      ensures !retry ==> Finished(g, Now(), k, old(EndBlock(g, inodes[k].size)), [TIND_BLOCK])
      ensures !mayBusy ==> !retry
    {
      hide Sound, Trimmed, Finished, FinishedBefore, EndBlock, PassedOver;
      var cut := EndBlock(g, inodes[k].size);
      ghost var v0 := Now();
      var p := [TIND_BLOCK];
      TrimmedRefl(g, v0, k, cut, p);
      retry := false;
      var tmp := Slots.Ptr(disk, inodes[k].data, p);
      if tmp == 0 {
        DeadIsFinished(g, v0, k, cut, p);
        return;
      }
      var a: nat := g.addrs;
      MulAtLeast(a, a);
      var i := FirstChild(cut - (a * a + a + NDIR_BLOCKS), a * a);
      TripleStart(a);
      SkippedBy(g, v0, k, cut, p, a * a + a + NDIR_BLOCKS, i, 2);
      ghost var first := i;
      TopVisited(g, TIND_BLOCK, cut);
      while i < g.addrs
        invariant first <= i && k in inodes && Sound({}) && Trimmed(g, v0, Now(), k, cut, p)
        invariant Now().Ptr(k, p) == tmp && EndBlock(g, inodes[k].size) == cut
        invariant !retry ==> FinishedBefore(g, Now(), k, cut, p, if i < g.addrs then i else g.addrs)
        invariant !mayBusy ==> !retry
      {
        ghost var v := Now();
        TripleChildStart(a, i);
        ChildIsSlot(g, p, i);
        VisitedReaches(g, cut, p, a * a + a + NDIR_BLOCKS, first, i, 2);
        var more := TruncDindirect(k, NDIR_BLOCKS + a + (i + 1) * a * a, p + [i], mayBusy);
        ChildStep(g, v0, v, Now(), k, cut, p, i, !retry && !more);
        retry := retry || more;
        i := i + 1;
      }
      retry := FinishBlock(k, p, mayBusy, retry, v0, cut);
    }

    /** The first entry to visit: the quotient rounded towards zero, never below entry 0. */
    function FirstChild(blocks: int, span: nat): (i: nat)
      requires span > 0
    {
      if blocks < 0 then 0 else blocks / span
    }

    /** One pass of ext2_truncate over the four levels. */
    method TruncatePass(k: nat, mayBusy: bool) returns (retry: bool)
      requires Sound({}) && k in inodes
      modifies this
      ensures Sound({}) && Trimmed(g, old(Now()), Now(), k, old(EndBlock(g, inodes[k].size)), [])
      ensures !retry ==> AllTreesFinished(g, Now(), k, old(EndBlock(g, inodes[k].size)))
      ensures !mayBusy ==> !retry
    {
      hide Sound, Trimmed, Finished, DirectBefore, TreesBefore, AllTreesFinished, EndBlock;
      ghost var cut := EndBlock(g, inodes[k].size);
      ghost var v0 := Now();
      TrimmedStarts(g);
      retry := TruncDirect(k, mayBusy, cut);
      ghost var v1 := Now();
      TrimmedKeys(g, v0, v1, k, cut, []);
      if !retry {
        DirectTrees(g, v1, k, cut);
      }
      var more := TruncIndirect(k, IND_BLOCK, [IND_BLOCK], mayBusy);
      ghost var v2 := Now();
      TreeStep(g, v0, v1, v2, k, cut, IND_BLOCK, !retry && !more);
      retry := retry || more;
      more := TruncDindirect(k, IND_BLOCK + g.addrs, [DIND_BLOCK], mayBusy);
      ghost var v3 := Now();
      TreeStep(g, v0, v2, v3, k, cut, DIND_BLOCK, !retry && !more);
      retry := retry || more;
      more := TruncTindirect(k, mayBusy);
      TreeStep(g, v0, v3, Now(), k, cut, TIND_BLOCK, !retry && !more);
      retry := retry || more;
      if !retry {
        AllTrees(g, Now(), k, cut);
      }
    }

    /** ext2_truncate: passes until one asks for no retry. Buffers may be busy, in any
        pattern, during the first `busyPasses` passes. Logical blocks before the end of the file
        keep their mapping and contents; all others end up unmapped; the only all-zero indirect
        blocks left are those that were all-zero before and that no pass looks at; exactly the
        blocks the inode no longer holds are freed. */
    method Truncate(k: nat, busyPasses: nat)
      requires Sound({}) && k in inodes
      modifies this
      ensures Sound({}) && OthersKept(g, old(Now()), Now(), k)
      ensures SameAttributes(old(inodes[k]), inodes[k])
      ensures !old(inodes[k]).truncatable ==> Now() == old(Now()) && bitmap == old(bitmap)
      ensures old(inodes[k]).truncatable ==>
                var size, cut := old(inodes[k].size), EndBlock(g, old(inodes[k].size));
                && AllTreesFinished(g, Now(), k, cut) && Window(inodes[k]) == {}
                && (forall s :: EmptyBlock(g, Now(), k, s) <==> EmptyBlock(g, old(Now()), k, s) && PassedOver(g, s, cut))
                && (forall lb: nat | lb < Limit(g.addrs) ::
                      && Now().Bmap(g, k, lb) == (if lb * g.blockSize < size then old(Now().Bmap(g, k, lb)) else 0)
                      && Now().Content(g, k, lb) == (if lb * g.blockSize < size then old(Now().Content(g, k, lb)) else Zeros(g)))
      ensures Used(g, bitmap) == old(Used(g, bitmap)) - old(Holds(g, disk, inodes[k])) + Holds(g, disk, inodes[k])
    {
      hide Books, Allocation, Trimmed, AllTreesFinished, EndBlock, DataKept, Limit, Holds, BlockMap.Bmap, EmptyBlock, PassedOver;
      ghost var v0 := Now();
      TreesKept(g, v0, v0, k, []);
      if !inodes[k].truncatable {
        UsedDelta(g, Used(g, bitmap), Used(g, bitmap), v0, v0, k);
        return;
      }
      DiscardPrealloc(k);
      ghost var v1 := Now();
      TreesKept(g, v0, v1, k, []);
      PassesUntilDone(k, busyPasses);
      EmptyBlocksOfAll(g, v0, v1, Now(), k, old(EndBlock(g, inodes[k].size)));
      TruncateResult(g, old(Used(g, bitmap)), Used(g, bitmap), v0, v1, Now(), k, old(inodes[k].size));
    }

    method PassesUntilDone(k: nat, busyPasses: nat)
      requires Sound({}) && k in inodes
      modifies this
      ensures Sound({}) && Trimmed(g, old(Now()), Now(), k, old(EndBlock(g, inodes[k].size)), [])
      ensures AllTreesFinished(g, Now(), k, old(EndBlock(g, inodes[k].size))) && k in inodes
    {
      hide Sound, Trimmed, AllTreesFinished, EndBlock;
      ghost var cut := EndBlock(g, inodes[k].size);
      ghost var v0 := Now();
      TrimmedRefl(g, v0, k, cut, []);
      var cnt := 0;
      while true
        invariant Sound({}) && k in inodes && Trimmed(g, v0, Now(), k, cut, []) && cnt <= busyPasses
        invariant inodes[k].size == v0.inodes[k].size
        decreases busyPasses - cnt
      {
        ghost var v := Now();
        var retry := TruncatePass(k, cnt < busyPasses);
        TrimmedTrans(g, v0, v, Now(), k, cut, [], []);
        TrimmedKeys(g, v, Now(), k, cut, []);
        if !retry {
          return;
        }
        cnt := cnt + 1;
      }
    }

    /** The step of ext2_file_write for one block: getblk with create, then the copy into the
        buffer. Exactly that logical block of that file reads differently afterwards. */
    method WriteBlock(k: nat, block: int, content: seq<nat>) returns (ok: bool)
      requires Sound({}) && k in inodes && block != Limit(g.addrs) && |content| == g.addrs
      modifies this
      ensures Sound({}) && k in inodes && OtherFilesSame(g, old(Now()), Now(), k)
      ensures OthersKept(g, old(Now()), Now(), k) && SameAttributes(old(inodes[k]), inodes[k])
      ensures ok ==> 0 <= block < Limit(g.addrs) && Now().Content(g, k, block) == content
      ensures !ok && 0 <= block < Limit(g.addrs) ==> block >= maxBlocks || free <= g.reserved
      ensures forall lb: nat | lb < Limit(g.addrs) && (!ok || lb != block) ::
                Now().Content(g, k, lb) == old(Now().Content(g, k, lb))
      ensures exists r, m :: WrittenInto(g, maxBlocks, old(Here()), k, block, content, ok, r, m, Here())
    {
      hide Books, Allocation, OthersKept, OtherFilesSame, Limit, View.Bmap, View.Content, Gets, Walks;
      ghost var v0 := Now();
      var r, err := Getblk(k, block, true);
      ghost var v1, s1 := Now(), Here();
      OthersReadSame(g, old(Used(g, bitmap)), v0, v1, {}, k);
      ok := r != 0;
      if ok {
        BmapInDisk(g, Used(g, bitmap), v1, k, block);
        disk := disk[r := content];
        WriteStep(g, Used(g, bitmap), v1, Now(), k, block, content);
        OthersKeptTrans(g, v0, v1, Now(), k);
        OthersReadSame(g, old(Used(g, bitmap)), v0, Now(), {}, k);
      }
      assert WrittenInto(g, maxBlocks, old(Here()), k, block, content, ok, r, s1, Here());
    }

    /** Setting i_size, as a write past the end or a resize does. */
    method SetSize(k: nat, size: nat)
      requires Sound({}) && k in inodes
      modifies `inodes
      ensures Sound({}) && inodes == old(inodes)[k := old(inodes[k]).(size := size)]
    {
      hide Books, Allocation;
      FieldsStep(g, Used(g, bitmap), Now(), k, inodes[k].(size := size), {});
      inodes := inodes[k := inodes[k].(size := size)];
    }

    /** A new in-core inode, as ext2_new_inode leaves it: no blocks, no window. */
    method NewInode(k: nat, group: nat, regular: bool, truncatable: bool)
      requires Sound({}) && k !in inodes
      modifies `inodes
      ensures Sound({}) && inodes == old(inodes)[k := FreshInode(group, regular, truncatable)]
      ensures OtherFilesSame(g, old(Now()), Now(), k)
      ensures Owned(g, disk, inodes[k].data) == {}
    {
      hide Books, Allocation, BlockMap.Bmap;
      var n := Inode(seq(N_BLOCKS, _ => 0), 0, 0, 1, regular, group, truncatable, 0, 0, 0, 0);
      EmptyTree(g, disk, n.data);
      Added(g, Used(g, bitmap), disk, inodes, {}, k, n);
      inodes := inodes[k := n];
    }

    /** i_nlink, as link, unlink and rename change it. */
    method SetLinks(k: nat, nlink: nat)
      requires Sound({}) && k in inodes
      modifies `inodes
      ensures Sound({}) && inodes == old(inodes)[k := old(inodes[k]).(nlink := nlink)]
    {
      hide Books, Allocation;
      FieldsStep(g, Used(g, bitmap), Now(), k, inodes[k].(nlink := nlink), {});
      inodes := inodes[k := inodes[k].(nlink := nlink)];
    }

    /** The tail of ext2_put_inode for an inode without links: emptied, then dropped. */
    method EmptyAndDrop(k: nat, busyPasses: nat)
      requires Sound({}) && k in inodes && inodes[k].size == 0 && inodes[k].preallocCount == 0
      modifies this
      ensures inodes.Keys == old(inodes).Keys - {k} && OtherFilesSame(g, old(Now()), Now(), k)
      ensures old(inodes[k]).truncatable ==>
                Sound({}) && Used(g, bitmap) == old(Used(g, bitmap)) - old(Holds(g, disk, inodes[k]))
      ensures !old(inodes[k]).truncatable ==>
                Sound(old(Holds(g, disk, inodes[k]))) && Used(g, bitmap) == old(Used(g, bitmap)) && disk == old(disk)
      ensures inodes == old(inodes) - {k}
    {
      hide Books, Allocation, AllTreesFinished, View.Bmap, View.Content, Owned, Limit, OtherFilesSame;
      ghost var v0 := Now();
      NoWindow(inodes[k]);
      if inodes[k].blocks != 0 {
        CutOf(g, 0);
        Truncate(k, busyPasses);
        if inodes[k].truncatable {
          FinishedHoldsNothing(g, Now(), k);
        }
      } else {
        EmptyByCount(g, Used(g, bitmap), v0, k);
        TreesKept(g, v0, v0, k, []);
      }
      ghost var v1 := Now();
      assert inodes[k].truncatable ==> Holds(g, disk, inodes[k]) == {};
      OthersReadSame(g, old(Used(g, bitmap)), v0, v1, {}, k);
      Dropped(g, Used(g, bitmap), disk, inodes, k);
      inodes := inodes - {k};
      DropReads(g, v0, v1, Now(), k);
    }

    /** ext2_put_inode: the last reference is dropped. The window goes back in any case; an
        inode without links is emptied and dropped. An inode that ext2_truncate refuses to
        touch (append-only or immutable) is dropped with its blocks still marked used: exactly
        those are lost. */
    method PutInode(k: nat, busyPasses: nat)
      requires Sound({}) && k in inodes
      modifies this
      ensures old(Keeps(k, inodes[k])) ==>
                && Sound({}) && inodes == old(inodes)[k := old(inodes[k]).(preallocCount := 0)]
                && disk == old(disk) && Used(g, bitmap) == old(Used(g, bitmap)) - old(Window(inodes[k]))
      ensures old(inodes[k]).nlink > 0 ==> k in inodes && disk == old(disk) && inodes[k].data == old(inodes[k]).data
      ensures !old(Keeps(k, inodes[k])) ==>
                && inodes == old(inodes) - {k} && OtherFilesSame(g, old(Now()), Now(), k)
      ensures !old(Keeps(k, inodes[k])) && old(inodes[k]).truncatable ==>
                && Sound({}) && Used(g, bitmap) == old(Used(g, bitmap)) - old(Holds(g, disk, inodes[k]))
      ensures !old(Keeps(k, inodes[k])) && !old(inodes[k]).truncatable ==>
                && Sound(old(Owned(g, disk, inodes[k].data))) && disk == old(disk)
                && Used(g, bitmap) == old(Used(g, bitmap)) - old(Window(inodes[k]))
    {
      hide Books, Allocation, View.Bmap, View.Content, Owned, OtherFilesSame;
      ghost var v0 := Now();
      DiscardPrealloc(k);
      if inodes[k].nlink != 0 || k == ACL_IDX_INO || k == ACL_DATA_INO {
        return;
      }
      SetSize(k, 0);
      ghost var v1 := Now();
      DataSame(g, v0, v1, k);
      NoWindow(inodes[k]);
      assert Holds(g, disk, inodes[k]) == old(Owned(g, disk, inodes[k].data));
      EmptyAndDrop(k, busyPasses);
      OtherFilesTrans(g, v0, v1, Now(), k);
      SplitDifference(old(Used(g, bitmap)), old(Window(inodes[k])), old(Owned(g, disk, inodes[k].data)));
    }

    // ----- runs

    /** A volume as formatting leaves it: only the system zones are used. */
    constructor (geo: Geo, maxBlocks: nat)
      requires geo.Valid()
      ensures g == geo && this.maxBlocks == maxBlocks
      ensures Sound({}) && inodes == map[] && Used(g, bitmap) == g.system
    {
      g := geo;
      this.maxBlocks := maxBlocks;
      bitmap := FreshBitmaps(geo);
      groupFree := FreshCounts(geo);
      free := Sum(FreshCounts(geo));
      disk := seq(geo.blocks, _ => Zeros(geo));
      inodes := map[];
      new;
      FreshUsed(g);
      assert SharesOf(g, disk, inodes) == map[];
    }

    /** A number from bound on that is not taken. */
    method FreshNumber(bound: nat) returns (o: nat)
      ensures o >= bound && o !in inodes
    {
      o := bound;
      while o in inodes
        invariant o >= bound
        decreases |set x | x in inodes && x >= o|
      {
        var above, fewer := set x | x in inodes && x >= o, set x | x in inodes && x >= o + 1;
        assert above == fewer + {o};
        o := o + 1;
      }
    }

    /** The tree of an inode that is dropped without being emptied keeps its blocks; it stays in the
        books under a number that is no inode number, so that its blocks have a name. */
    method PutLost(k: nat, busyPasses: nat, bound: nat)
      requires Sound({}) && k in inodes && k < bound && !Keeps(k, inodes[k]) && !inodes[k].truncatable
      modifies this
      ensures Sound({}) && Drops(g, bound, old(Here()), k, Here())
    {
      hide Books, Allocation, OtherFilesSame, Owned;
      ghost var used, was := Used(g, bitmap), inodes;
      var n := inodes[k].(preallocCount := 0);
      var o := FreshNumber(bound);
      PutInode(k, busyPasses);
      LeftBehind(g, used, Used(g, bitmap), disk, was, k, n, o);
      inodes := inodes[o := n];
      assert StandsFor(old(Now()), k, bound, o, Now());
    }

    /** One operation of a run. Numbers from bound on are no inode numbers. */
    method Step(op: Op, bound: nat) returns (r: nat)
      requires Sound({}) && op.k < bound
      modifies this
      ensures Sound({}) && Leads(g, maxBlocks, bound, old(Here()), op, r, Here())
    {
      hide Sound, Limit, OthersKept, OtherFilesSame, SameAttributes, AllTreesFinished, EmptyBlock, PassedOver, Window, Holds, Used,
           EndBlock, View.Bmap, View.Content, Zeros, FreshInode, Grew, Offsets, Walks, Gets;
      var k := op.k;
      r := 0;
      if k !in inodes {
        if op.Create? {
          NewInode(k, op.group, op.regular, op.truncatable);
        }
        return;
      }
      match op {
        case Create(_, _, _, _) =>
        case Get(_, block, create) =>
          if block != Limit(g.addrs) {
            var err;
            r, err := Getblk(k, block, create);
          }
        case Write(_, block, content) =>
          if block != Limit(g.addrs) && |content| == g.addrs {
            var ok := WriteBlock(k, block, content);
            r := if ok then 1 else 0;
          }
        case Discard(_) =>
          DiscardPrealloc(k);
        case Resize(_, size, busyPasses) =>
          Resize(k, size, busyPasses);
        case Links(_, nlink) =>
          SetLinks(k, nlink);
        case Put(_, busyPasses) =>
          if inodes[k].nlink != 0 || k == ACL_IDX_INO || k == ACL_DATA_INO || inodes[k].truncatable {
            PutInode(k, busyPasses);
          } else {
            PutLost(k, busyPasses, bound);
          }
      }
    }

    /** A new size, then ext2_truncate. */
    method Resize(k: nat, size: nat, busyPasses: nat)
      requires Sound({}) && k in inodes
      modifies this
      ensures Sound({}) && Resizes(g, old(Here()), k, size, Here())
    {
      hide Books, Allocation, AllTreesFinished, EmptyBlock, PassedOver, Window, Owned, Used, Limit, EndBlock, OthersKept, Holds, Zeros,
           View.Bmap, View.Content;
      ghost var v0 := Now();
      SetSize(k, size);
      ghost var v1 := Now();
      Sized(g, Used(g, bitmap), v0, v1, k);
      Truncate(k, busyPasses);
      OthersKeptTrans(g, v0, v1, Now(), k);
      KeysKept(g, v0, Now(), k);
    }

    /** Over any run, with what each operation does and answers: the used blocks are exactly the
        disjoint union of the system zones, every block of every inode's tree, every preallocation
        window, and the trees that dropped inodes have left behind under numbers from bound on. */
    method Execute(ops: seq<Op>, bound: nat) returns (replies: seq<nat>, ghost scenes: seq<Scene>)
      requires Sound({}) && forall n | 0 <= n < |ops| :: ops[n].k < bound
      modifies this
      ensures Sound({}) && IsRun(g, maxBlocks, bound, ops, replies, scenes) && scenes[0] == old(Here()) && scenes[|ops|] == Here()
      ensures forall n | 0 <= n <= |ops| :: InOrder(g, scenes[n])
      ensures forall b | b in Used(g, bitmap) ::
                b in g.system || exists k :: k in inodes && b in Holds(g, disk, inodes[k])
      ensures forall k | k in inodes :: Holds(g, disk, inodes[k]) <= Used(g, bitmap) && Holds(g, disk, inodes[k]) !! g.system
      ensures forall k, l | k in inodes && l in inodes && k != l ::
                Holds(g, disk, inodes[k]) !! Holds(g, disk, inodes[l])
      ensures forall k | k in inodes :: Injective(g, disk, inodes[k].data) &&
                Owned(g, disk, inodes[k].data) !! Window(inodes[k])
      ensures free == Sum(groupFree) && forall i | 0 <= i < |bitmap| :: groupFree[i] == CountFree(bitmap[i])
    {
      hide Sound, Leads, Used, Holds, BitmapsOk, InOrder;
      SoundMeans();
      SoundInOrder();
      replies, scenes := [], [Here()];
      for n := 0 to |ops|
        invariant Sound({}) && BitmapsOk() && |replies| == n && |scenes| == n + 1 && scenes[0] == old(Here()) && scenes[n] == Here()
        invariant forall m {:trigger ops[m]} | 0 <= m < n ::
                    Leads(g, maxBlocks, bound, scenes[m], ops[m], replies[m], scenes[m + 1])
        invariant forall m | 0 <= m <= n :: InOrder(g, scenes[m])
      {
        var r := Step(ops[n], bound);
        SoundMeans();
        SoundInOrder();
        replies, scenes := replies + [r], scenes + [Here()];
      }
      SoundMeans();
    }

    lemma SoundInOrder()
      requires Sound({})
      ensures BitmapsOk() && InOrder(g, Here())
    {
      hide Books, Allocation, Used;
      assert CountedBy(g, Here(), bitmap, groupFree);
    }

    lemma SoundMeans()
      requires Sound({})
      ensures BitmapsOk()
      ensures forall b | b in Used(g, bitmap) ::
                b in g.system || exists k :: k in inodes && b in Holds(g, disk, inodes[k])
      ensures forall k | k in inodes :: Holds(g, disk, inodes[k]) <= Used(g, bitmap) && Holds(g, disk, inodes[k]) !! g.system
      ensures forall k, l | k in inodes && l in inodes && k != l ::
                Holds(g, disk, inodes[k]) !! Holds(g, disk, inodes[l])
      ensures forall k | k in inodes :: Injective(g, disk, inodes[k].data) &&
                Owned(g, disk, inodes[k].data) !! Window(inodes[k])
      ensures free == Sum(groupFree) && forall i | 0 <= i < |bitmap| :: groupFree[i] == CountFree(bitmap[i])
    {
      hide Injective, InTree, Holds;
      var shares := SharesOf(g, disk, inodes);
      assert forall k | k in inodes :: shares[k] == Holds(g, disk, inodes[k]);
      forall b | b in Used(g, bitmap) && b !in g.system
        ensures exists k :: k in inodes && b in Holds(g, disk, inodes[k])
      {
        assert InSomeShare(shares, b);
      }
    }
  }

  lemma KeysKept(g: Geo, v: View, w: View, k: nat)
    requires OthersKept(g, v, w, k)
    ensures w.inodes.Keys == v.inodes.Keys && k in w.inodes
  {
  }

  /** With another size an inode has the same tree. */
  lemma Sized(g: Geo, used: set<nat>, v: View, w: View, k: nat)
    requires g.AddrsOk() && Books(g, used, v.disk, v.inodes, {}) && k in v.inodes && k in w.inodes
    requires w == View(v.disk, v.inodes[k := v.inodes[k].(size := w.inodes[k].size)])
    ensures OthersKept(g, v, w, k) && Holds(g, w.disk, w.inodes[k]) == Holds(g, v.disk, v.inodes[k])
    ensures forall p :: EmptyBlock(g, w, k, p) <==> EmptyBlock(g, v, k, p)
    ensures forall lb: nat :: w.Bmap(g, k, lb) == v.Bmap(g, k, lb) && w.Content(g, k, lb) == v.Content(g, k, lb)
  {
    hide Books, EmptyBlock, BlockMap.Bmap, Owned, Slots.Ptr, IsSlot;
    forall p
      ensures EmptyBlock(g, w, k, p) <==> EmptyBlock(g, v, k, p)
    {
      EmptySame(g, v, w, k, p);
    }
  }

  /** A dropped tree that keeps its blocks can stand for itself. */
  lemma LeftBehind(g: Geo, used: set<nat>, used': set<nat>, disk: Disk, was: Inodes, k: nat, n: Inode, o: nat)
    requires Books(g, used, disk, was, {}) && k in was && n == was[k].(preallocCount := 0) && o !in was
    requires Books(g, used', disk, was - {k}, Owned(g, disk, n.data))
    ensures Books(g, used', disk, (was - {k})[o := n], {})
  {
    hide Partition, Injective, Owned;
    NoWindow(n);
    Exchanged(g, used', disk, disk, was - {k}, Owned(g, disk, n.data), o, n, {});
  }

  lemma WindowInVolume(g: Geo, bm: Bitmaps, b: nat, n: nat)
    requires g.Valid() && Shaped(g, bm) && n > 0 && Run(b, n) <= Used(g, bm)
    ensures g.first <= b && b + n <= g.blocks
  {
    assert b in Run(b, n) && b + n - 1 in Run(b, n);
  }

  lemma PrefixesLive(g: Geo, v: View, k: nat, s: Slot)
    requires IsSlot(g, s)
    ensures forall i | 1 <= i <= |s| :: IsSlot(g, s[..i])
    ensures forall i | 1 <= i <= |s| :: v.Ptr(k, s) != 0 ==> v.Ptr(k, s[..i]) != 0
  {
    forall i | 1 <= i <= |s|
      ensures IsSlot(g, s[..i]) && (v.Ptr(k, s) != 0 ==> v.Ptr(k, s[..i]) != 0)
    {
      if v.Ptr(k, s) != 0 {
        LivePrefix(v.disk, v.inodes[k].data, s, i);
      }
    }
  }

  /** The entries before the first visited one end before the cut. */
  lemma SkippedBy(g: Geo, v: View, k: nat, cut: nat, p: Slot, offset: nat, i: nat, d: nat)
    requires k in v.inodes && IsSlot(g, p) && Levels(p) == d + 1
    requires offset == Start(g.addrs, p, d + 1) && Span(g.addrs, d) > 0
    requires i == if cut - offset < 0 then 0 else (cut - offset) / Span(g.addrs, d)
    ensures FinishedBefore(g, v, k, cut, p, if i < g.addrs then i else g.addrs)
  {
    hide FinishedBefore, Start;
    var span := Span(g.addrs, d);
    var n := if i < g.addrs then i else g.addrs;
    if cut >= offset {
      assert span * i + (cut - offset) % span == cut - offset;
      assert span * (i - n) == span * i - span * n;
      MulAtLeast(span, i - n);
    }
    SkippedFinished(g, v, k, cut, p, n);
  }

  /** The entries visited reach past the cut. */
  lemma VisitedReaches(g: Geo, cut: nat, p: Slot, offset: nat, first: nat, i: nat, d: nat)
    requires IsSlot(g, p) && Levels(p) == d + 1 && i < g.addrs && first <= i
    requires offset == Start(g.addrs, p, d + 1) && Span(g.addrs, d) > 0
    requires first == if cut - offset < 0 then 0 else (cut - offset) / Span(g.addrs, d)
    ensures !PassedOver(g, p + [i], cut)
  {
    hide Start, Span;
    var span := Span(g.addrs, d);
    ChildStart(g.addrs, p, i, d);
    MulAtLeast(span, i - first);
    assert i * span == first * span + span * (i - first);
    if cut - offset >= 0 {
      assert cut - offset < first * span + span;
    }
  }

  lemma TopVisited(g: Geo, n: nat, cut: nat)
    ensures !PassedOver(g, [n], cut)
  {
  }

  lemma SpanIs(a: nat)
    ensures Span(a, 1) == a && Span(a, 2) == a * a && Span(a, 3) == a * (a * a)
  {
    assert Span(a, 0) == 1;
    assert Span(a, 1) == a * 1;
  }

  lemma TripleStart(a: nat)
    requires a > 0
    ensures Start(a, [TIND_BLOCK], 3) == a * a + a + NDIR_BLOCKS && Span(a, 2) == a * a > 0
  {
    SpanIs(a);
    MulAtLeast(a, a);
    assert Index(a, [TIND_BLOCK]) == 0;
  }

  lemma TripleChildStart(a: nat, i: nat)
    ensures Start(a, [TIND_BLOCK] + [i], 2) == NDIR_BLOCKS + a + (i + 1) * a * a
  {
    ChildStart(a, [TIND_BLOCK], i, 2);
    SpanIs(a);
    assert i * (a * a) == i * a * a;
  }

  lemma ChildIsSlot(g: Geo, p: Slot, i: nat)
    requires IsSlot(g, p) && Levels(p) >= 1 && i < g.addrs
    ensures IsSlot(g, p + [i]) && Levels(p + [i]) == Levels(p) - 1
  {
  }

  lemma TrimmedStarts(g: Geo)
    ensures Start(g.addrs, [IND_BLOCK], 1) == IND_BLOCK
    ensures Start(g.addrs, [DIND_BLOCK], 2) == IND_BLOCK + g.addrs
  {
    assert Index(g.addrs, [IND_BLOCK]) == 0 && Index(g.addrs, [DIND_BLOCK]) == 0;
  }

  /** The parts of ext2_truncate put together. */
  lemma TruncateResult(g: Geo, used: set<nat>, used': set<nat>, u: View, v: View, w: View, k: nat, size: nat)
    requires g.AddrsOk() && k in u.inodes && k in v.inodes && k in w.inodes
    requires Books(g, used, u.disk, u.inodes, {}) && Books(g, used', w.disk, w.inodes, {})
    requires Grew(g, u, v, k, []) && v.inodes[k].data == u.inodes[k].data && v.disk == u.disk
    requires Window(v.inodes[k]) == {}
    requires Trimmed(g, v, w, k, EndBlock(g, size), []) && AllTreesFinished(g, w, k, EndBlock(g, size))
    ensures OthersKept(g, u, w, k) && SameAttributes(u.inodes[k], w.inodes[k])
    ensures Window(w.inodes[k]) == {}
    ensures forall lb: nat | lb < Limit(g.addrs) ::
              && w.Bmap(g, k, lb) == (if lb * g.blockSize < size then u.Bmap(g, k, lb) else 0)
              && w.Content(g, k, lb) == (if lb * g.blockSize < size then u.Content(g, k, lb) else Zeros(g))
    ensures used' == used - Holds(g, u.disk, u.inodes[k]) + Holds(g, w.disk, w.inodes[k])
  {
    hide EndBlock, Books, OthersKept, AllTreesFinished, Limit, Holds, BlockMap.Bmap, IsSlot, Slots.Ptr;
    TrimmedKeys(g, v, w, k, EndBlock(g, size), []);
    OthersKeptTrans(g, u, v, w, k);
    InodeShape(g, used, u, k);
    InodeShape(g, used', w, k);
    UsedDelta(g, used, used', u, w, k);
    forall lb: nat | lb < Limit(g.addrs)
      ensures w.Bmap(g, k, lb) == if lb * g.blockSize < size then u.Bmap(g, k, lb) else 0
      ensures w.Content(g, k, lb) == if lb * g.blockSize < size then u.Content(g, k, lb) else Zeros(g)
    {
      BeforeEnd(g, size, lb);
      TrimmedBmap(g, v, w, k, EndBlock(g, size), lb);
    }
  }

  lemma EmptyBlocksOfAll(g: Geo, u: View, v: View, w: View, k: nat, cut: nat)
    requires k in u.inodes && k in v.inodes && v.inodes[k].data == u.inodes[k].data && v.disk == u.disk
    requires Trimmed(g, v, w, k, cut, []) && AllTreesFinished(g, w, k, cut)
    ensures forall s :: EmptyBlock(g, w, k, s) <==> EmptyBlock(g, u, k, s) && PassedOver(g, s, cut)
  {
    hide Trimmed, AllTreesFinished, PassedOver;
    forall s
      ensures EmptyBlock(g, w, k, s) <==> EmptyBlock(g, u, k, s) && PassedOver(g, s, cut)
    {
      EmptyBlocksLeft(g, v, w, k, cut, s);
    }
  }

  lemma BmapInDisk(g: Geo, used: set<nat>, v: View, k: nat, block: nat)
    requires g.AddrsOk() && Books(g, used, v.disk, v.inodes, {}) && k in v.inodes
    requires block < Limit(g.addrs)
    ensures v.Bmap(g, k, block) < |v.disk|
  {
    hide Books, Limit, BlockMap.Bmap, Offsets, Slots.Ptr, Logical;
    InodeShape(g, used, v, k);
    OffsetsIsLeaf(g, block);
    BmapIsPtr(g, v.disk, v.inodes[k].data, block);
  }

  lemma NoWindow(n: Inode)
    requires n.preallocCount == 0
    ensures Window(n) == {}
  {
  }

  lemma SplitDifference(u: set<nat>, w: set<nat>, o: set<nat>)
    ensures u - w - (o + {}) == u - (o + w)
  {
  }

  lemma EmptyByCount(g: Geo, used: set<nat>, v: View, k: nat)
    requires Books(g, used, v.disk, v.inodes, {}) && k in v.inodes && v.inodes[k].blocks == 0
    requires g.blockSize >= 512
    ensures Owned(g, v.disk, v.inodes[k].data) == {}
  {
    hide InodeOk, Partition, Owned;
    NoSectorsNoBlocks(g, v.disk, v.inodes[k]);
  }

  /** Replacing an inode's fields but not its addresses changes no other file. */
  lemma DataSame(g: Geo, v: View, w: View, k: nat)
    requires w.disk == v.disk && k in v.inodes && k in w.inodes && w.inodes == v.inodes[k := w.inodes[k]]
    ensures OtherFilesSame(g, v, w, k)
  {
    hide BlockMap.Bmap;
    forall l, lb: int | l in v.inodes && l != k
      ensures w.Bmap(g, l, lb) == v.Bmap(g, l, lb) && w.Content(g, l, lb) == v.Content(g, l, lb)
    {
    }
  }

  function FreshBits(g: Geo, i: nat): (r: Bits)
    ensures |r| == g.perGroup
    ensures forall j: nat | j < g.perGroup :: r[j] <==> g.BlockNo(i, j) >= g.blocks || g.BlockNo(i, j) in g.system
  {
    seq(g.perGroup, j requires j >= 0 => g.BlockNo(i, j) >= g.blocks || g.BlockNo(i, j) in g.system)
  }

  function FreshBitmaps(g: Geo): (r: Bitmaps)
    ensures |r| == g.groups && forall i: nat | i < g.groups :: r[i] == FreshBits(g, i)
  {
    seq(g.groups, i requires i >= 0 => FreshBits(g, i))
  }

  function FreshCounts(g: Geo): (r: seq<nat>)
    ensures |r| == g.groups && forall i: nat | i < g.groups :: r[i] == CountFree(FreshBits(g, i))
  {
    seq(g.groups, i requires i >= 0 => CountFree(FreshBits(g, i)))
  }

  lemma FreshUsed(g: Geo)
    requires g.Valid()
    ensures var bm := FreshBitmaps(g);
            Shaped(g, bm) && Allocation(g, bm, FreshCounts(g), Sum(FreshCounts(g)), g.system)
  {
    var bm := FreshBitmaps(g);
    forall b: nat | g.first <= b < g.blocks
      ensures IsUsed(g, bm, b) <==> b in g.system
    {
      BlockNoOf(g, b);
    }
  }

  // ----- a run that leaves an all-zero indirect block

  /** Exactly two blocks of the volume are for data. */
  ghost predicate TwoForData(g: Geo, one: nat, two: nat) {
    && g.Valid() && g.reserved == 0 && 0 < one < two
    && forall b :: ForFiles(g, b) <==> b == one || b == two
  }

  predicate ForFiles(g: Geo, b: int) {
    g.first <= b < g.blocks && b !in g.system
  }

  lemma FullMeansUsed(g: Geo, bm: Bitmaps, groupFree: seq<nat>, used: set<nat>, b: nat)
    requires Allocation(g, bm, groupFree, 0, used) && g.first <= b < g.blocks
    ensures b in used
  {
    BlockNoOf(g, b);
    SettingBit(g, bm, groupFree, 0, used, g.GroupOf(b), g.BitOf(b));
  }

  /** Two blocks are too few for the three on the way to a leaf below the double indirect block. */
  lemma NoThirdBlock(g: Geo, used: set<nat>, v: View, k: nat, one: nat, two: nat)
    requires TwoForData(g, one, two) && Books(g, used, v.disk, v.inodes, {}) && k in v.inodes && |v.disk| == g.blocks
    requires forall b | b in used :: g.first <= b < g.blocks
    ensures v.Ptr(k, [DIND_BLOCK, 0, 0]) == 0
  {
    hide Books, TwoForData, Slots.Ptr, Injective;
    var s: Slot := [DIND_BLOCK, 0, 0];
    var n := v.inodes[k];
    if v.Ptr(k, s) != 0 {
      LivePrefix(v.disk, n.data, s, 1);
      LivePrefix(v.disk, n.data, s, 2);
      assert s[..1] == [DIND_BLOCK] && s[..2] == [DIND_BLOCK, 0];
      ForData(g, used, v, k, one, two, [DIND_BLOCK]);
      ForData(g, used, v, k, one, two, [DIND_BLOCK, 0]);
      ForData(g, used, v, k, one, two, s);
      OwnPlaces(g, used, v, k, [DIND_BLOCK], [DIND_BLOCK, 0]);
      OwnPlaces(g, used, v, k, [DIND_BLOCK], s);
      OwnPlaces(g, used, v, k, [DIND_BLOCK, 0], s);
    }
  }

  lemma OwnPlaces(g: Geo, used: set<nat>, v: View, k: nat, s: Slot, t: Slot)
    requires Books(g, used, v.disk, v.inodes, {}) && k in v.inodes && IsSlot(g, s) && IsSlot(g, t) && s != t
    ensures v.Ptr(k, s) != 0 ==> v.Ptr(k, s) != v.Ptr(k, t)
  {
    hide Partition, Owned, Slots.Ptr;
  }

  lemma ForData(g: Geo, used: set<nat>, v: View, k: nat, one: nat, two: nat, s: Slot)
    requires TwoForData(g, one, two) && Books(g, used, v.disk, v.inodes, {}) && k in v.inodes && |v.disk| == g.blocks
    requires (forall b | b in used :: g.first <= b < g.blocks) && IsSlot(g, s) && v.Ptr(k, s) != 0
    ensures v.Ptr(k, s) == one || v.Ptr(k, s) == two
  {
    hide Partition, Injective, TwoForData, Window;
    var b := v.Ptr(k, s);
    assert b in Owned(g, v.disk, v.inodes[k].data) by { OwnedHere(g, v, k, s); }
    var shares := SharesOf(g, v.disk, v.inodes);
    assert b in shares[k];
    ShareUsed(used, g.system, shares, k);
    OneOrTwo(g, one, two, b);
  }

  lemma OwnedHere(g: Geo, v: View, k: nat, s: Slot)
    requires k in v.inodes && Injective(g, v.disk, v.inodes[k].data) && IsSlot(g, s) && v.Ptr(k, s) != 0
    ensures v.Ptr(k, s) in Owned(g, v.disk, v.inodes[k].data)
  {
  }

  lemma OneOrTwo(g: Geo, one: nat, two: nat, b: nat)
    requires TwoForData(g, one, two) && g.first <= b < g.blocks
    ensures b in g.system || b == one || b == two
  {
    assert ForFiles(g, b) || b in g.system;
  }

  lemma OneAndTwo(g: Geo, one: nat, two: nat)
    requires TwoForData(g, one, two)
    ensures g.first <= one < g.blocks && one !in g.system && g.first <= two < g.blocks && two !in g.system
  {
    assert ForFiles(g, one) && ForFiles(g, two);
  }

  lemma ShareUsed(used: set<nat>, system: set<nat>, shares: Shares, k: nat)
    requires Partition(used, system, {}, shares) && k in shares
    ensures shares[k] <= used && shares[k] !! system
  {
  }

  lemma InOnlyShare(used: set<nat>, system: set<nat>, shares: Shares, k: nat, b: nat)
    requires Partition(used, system, {}, shares) && shares.Keys == {k} && b in used && b !in system
    ensures k in shares && b in shares[k]
  {
    var l :| l in shares && b in shares[l];
    assert l in shares.Keys;
  }

  /** Where a block in use is found, when only one inode is there and it has no window. */
  lemma HeldAt(g: Geo, used: set<nat>, v: View, k: nat, b: nat) returns (s: Slot)
    requires Books(g, used, v.disk, v.inodes, {}) && v.inodes.Keys == {k} && Window(v.inodes[k]) == {}
    requires b in used && b !in g.system
    ensures IsSlot(g, s) && v.Ptr(k, s) == b
  {
    hide Partition, InodeOk;
    InOnlyShare(used, g.system, SharesOf(g, v.disk, v.inodes), k, b);
    assert b in Owned(g, v.disk, v.inodes[k].data);
    s :| IsSlot(g, s) && Ptr(v.disk, v.inodes[k].data, s) == b;
  }

  /** What is left when the leaf does not fit: the double indirect block, and below it a block
      without any address. */
  lemma LeafMissing(g: Geo, used: set<nat>, v: View, w: View, k: nat, one: nat, two: nat)
    requires TwoForData(g, one, two) && Books(g, used, w.disk, w.inodes, {}) && w.inodes.Keys == {k}
    requires Window(w.inodes[k]) == {} && one in used && two in used && w.Ptr(k, [DIND_BLOCK, 0, 0]) == 0
    requires Grew(g, v, w, k, [DIND_BLOCK, 0, 0]) && forall s | IsSlot(g, s) :: v.Ptr(k, s) == 0
    ensures EmptyBlock(g, w, k, [DIND_BLOCK, 0])
  {
    hide Partition, Books, OthersKept, FileKept, Slots.Ptr;
    var p: Slot := [DIND_BLOCK, 0];
    OneAndTwo(g, one, two);
    var s := HeldAt(g, used, w, k, one);
    var t := HeldAt(g, used, w, k, two);
    OnTheWay(s);
    OnTheWay(t);
    assert w.Ptr(k, p) != 0;
    forall i: nat | i < g.addrs
      ensures w.Ptr(k, p + [i]) == 0
    {
      assert IsSlot(g, p + [i]);
      if i == 0 {
        assert p + [i] == [DIND_BLOCK, 0, 0];
      } else {
        assert !(p + [i] <= [DIND_BLOCK, 0, 0]) by { assert (p + [i])[2] == i; }
      }
    }
  }

  lemma OnTheWay(s: Slot)
    ensures s <= [DIND_BLOCK, 0, 0] ==> s == [] || s == [DIND_BLOCK] || s == [DIND_BLOCK, 0] || s == [DIND_BLOCK, 0, 0]
  {
  }

  lemma DoubleStart(g: Geo)
    requires g.AddrsOk()
    ensures Offsets(g, NDIR_BLOCKS + g.addrs) == [DIND_BLOCK, 0, 0]
    ensures NDIR_BLOCKS + g.addrs < Limit(g.addrs)
    ensures PassedOver(g, [DIND_BLOCK, 0], NDIR_BLOCKS + 2 * g.addrs)
  {
    var s: Slot := [DIND_BLOCK, 0];
    var a := g.addrs;
    assert Parent(s) == [DIND_BLOCK];
    assert Index(a, s) == Index(a, [DIND_BLOCK]) * a + 0 == 0;
    assert Span(a, 1) == a * Span(a, 0) == a;
    assert Start(a, s, 1) == TreeStart(a, DIND_BLOCK);
    MaskIsMod(0, g.addrBits);
  }

  lemma CutOf(g: Geo, n: nat)
    ensures EndBlock(g, n * g.blockSize) == n
  {
    var size: nat := g.blockSize;
    DivModUnique(n * size + size - 1, size, n, size - 1);
  }

  lemma GeoOf(g: Geo, one: nat, two: nat)
    requires TwoForData(g, one, two)
    ensures g.Valid() && g.AddrsOk() && g.reserved == 0
  {
  }

  /** What making inode 0 gives. */
  lemma Made(g: Geo, maxBlocks: nat, truncatable: bool, s: Scene, r: nat, u: Scene)
    requires s.view.inodes == map[] && Leads(g, maxBlocks, 1, s, Create(0, 0, false, truncatable), r, u)
    ensures u.view.inodes.Keys == {0} && u.view.inodes[0] == FreshInode(0, false, truncatable)
    ensures Owned(g, u.view.disk, u.view.inodes[0].data) == {} && forall p :: u.view.Ptr(0, p) == 0
  {
    EmptyTree(g, u.view.disk, FreshInode(0, false, truncatable).data);
  }

  /** What asking for a block of inode 0 gives: only non-regular files never get a window. */
  lemma Got(g: Geo, maxBlocks: nat, s: Scene, block: nat, r: nat, u: Scene)
    requires s.view.inodes.Keys == {0} && !s.view.inodes[0].regular && s.view.inodes[0].preallocCount == 0
    requires block < Limit(g.addrs) && Leads(g, maxBlocks, 1, s, Get(0, block, true), r, u)
    ensures u.view.inodes.Keys == {0} && Window(u.view.inodes[0]) == {} && Grew(g, s.view, u.view, 0, Offsets(g, block))
    ensures r == u.view.Bmap(g, 0, block) && (r == 0 ==> block >= maxBlocks || u.free <= g.reserved)
    ensures u.view.inodes[0].truncatable == s.view.inodes[0].truncatable && u.view.inodes[0].nlink == s.view.inodes[0].nlink
  {
    hide View.Bmap, View.Content, Grew, OthersSame;
    NoWindow(u.view.inodes[0]);
  }

  /** When nothing is free every block for data is used. */
  lemma AllUsed(g: Geo, s: Scene, b: nat)
    requires InOrder(g, s) && s.free == 0 && g.first <= b < g.blocks
    ensures b in s.used
  {
    hide Books, Allocation;
    var bm, groupFree :| CountedBy(g, s, bm, groupFree);
    FullMeansUsed(g, bm, groupFree, s.used, b);
  }

  lemma UsedInVolume(g: Geo, s: Scene)
    requires InOrder(g, s)
    ensures |s.view.disk| == g.blocks && forall b | b in s.used :: g.first <= b < g.blocks
  {
    hide Books, Allocation;
    var bm, groupFree :| CountedBy(g, s, bm, groupFree);
  }

  lemma RunsShort(g: Geo, s: Scene, u: Scene, one: nat, two: nat)
    requires InOrder(g, u) && TwoForData(g, one, two) && u.view.inodes.Keys == {0} && Window(u.view.inodes[0]) == {}
    requires Grew(g, s.view, u.view, 0, [DIND_BLOCK, 0, 0]) && forall p | IsSlot(g, p) :: s.view.Ptr(0, p) == 0
    requires u.view.Ptr(0, [DIND_BLOCK, 0, 0]) == 0 ==> u.free == 0
    ensures EmptyBlock(g, u.view, 0, [DIND_BLOCK, 0])
  {
    hide Books, Allocation, Grew, Slots.Ptr, EmptyBlock, Window;
    UsedInVolume(g, u);
    NoThirdBlock(g, u.used, u.view, 0, one, two);
    OneAndTwo(g, one, two);
    AllUsed(g, u, one);
    AllUsed(g, u, two);
    LeafMissing(g, u.used, s.view, u.view, 0, one, two);
  }

  lemma EmptySame(g: Geo, v: View, w: View, k: nat, s: Slot)
    requires w.disk == v.disk && k in v.inodes && k in w.inodes && w.inodes[k].data == v.inodes[k].data
    ensures EmptyBlock(g, w, k, s) <==> EmptyBlock(g, v, k, s)
  {
    hide Slots.Ptr;
  }

  /** The operations that leave an all-zero indirect block: ext2_getblk for a block below the double
      indirect block, and a truncation after the file has grown past it. */
  function EmptyBlockOps(g: Geo): seq<Op> {
    var block := NDIR_BLOCKS + g.addrs;
    [Create(0, 0, false, true), Get(0, block, true), Resize(0, (block + g.addrs) * g.blockSize, 0)]
  }

  /** With two blocks for data ext2_getblk runs out after two indirect blocks, and ext2_truncate leaves
      the second one, all zero. */
  lemma EmptyBlockStays(g: Geo, maxBlocks: nat, one: nat, two: nat, replies: seq<nat>, scenes: seq<Scene>)
    requires TwoForData(g, one, two) && maxBlocks > NDIR_BLOCKS + g.addrs
    requires IsRun(g, maxBlocks, 1, EmptyBlockOps(g), replies, scenes) && scenes[0].view.inodes == map[]
    requires forall n | 0 <= n < 4 :: InOrder(g, scenes[n])
    ensures EmptyBlock(g, scenes[3].view, 0, [DIND_BLOCK, 0])
  {
    hide InOrder, Leads, TwoForData, EmptyBlock, PassedOver, Limit, Grew, Slots.Ptr, View.Bmap, Offsets, Owned, EndBlock, IsSlot;
    GeoOf(g, one, two);
    var ops, block := EmptyBlockOps(g), NDIR_BLOCKS + g.addrs;
    DoubleStart(g);
    assert Leads(g, maxBlocks, 1, scenes[0], ops[0], replies[0], scenes[1]);
    Made(g, maxBlocks, true, scenes[0], replies[0], scenes[1]);
    assert Leads(g, maxBlocks, 1, scenes[1], ops[1], replies[1], scenes[2]);
    Got(g, maxBlocks, scenes[1], block, replies[1], scenes[2]);
    BmapOfView(g, scenes[2], 0, block);
    RunsShort(g, scenes[1], scenes[2], one, two);
    assert Leads(g, maxBlocks, 1, scenes[2], ops[2], replies[2], scenes[3]);
    CutOf(g, block + g.addrs);
    Cut(g, maxBlocks, scenes[2], (block + g.addrs) * g.blockSize, replies[2], scenes[3], [DIND_BLOCK, 0]);
  }

  lemma BmapOfView(g: Geo, s: Scene, k: nat, block: nat)
    requires g.AddrsOk() && InOrder(g, s) && k in s.view.inodes && block < Limit(g.addrs)
    ensures s.view.Bmap(g, k, block) == s.view.Ptr(k, Offsets(g, block))
  {
    hide Books, Limit, BlockMap.Bmap, Offsets, Slots.Ptr;
    InodeShape(g, s.used, s.view, k);
    BmapIsPtr(g, s.view.disk, s.view.inodes[k].data, block);
  }

  lemma Cut(g: Geo, maxBlocks: nat, s: Scene, size: nat, r: nat, u: Scene, p: Slot)
    requires s.view.inodes.Keys == {0} && s.view.inodes[0].truncatable && EmptyBlock(g, s.view, 0, p)
    requires Leads(g, maxBlocks, 1, s, Resize(0, size, 0), r, u) && PassedOver(g, p, EndBlock(g, size))
    ensures EmptyBlock(g, u.view, 0, p)
  {
    hide EmptyBlock, PassedOver, View.Bmap, View.Content, OthersKept, Holds, Window, EndBlock, Limit;
  }

  /** The same on a volume, from its first state on. */
  method EmptyBlockRun(geo: Geo, one: nat, two: nat) returns (v: Volume, replies: seq<nat>, ghost scenes: seq<Scene>)
    requires TwoForData(geo, one, two)
    ensures fresh(v) && v.g == geo && v.Sound({}) && IsRun(geo, v.maxBlocks, 1, EmptyBlockOps(geo), replies, scenes)
    ensures scenes[0].view.inodes == map[] && scenes[0].used == geo.system && scenes[3] == v.Here()
    ensures EmptyBlock(geo, v.Now(), 0, [DIND_BLOCK, 0])
  {
    hide InOrder, Leads, TwoForData, EmptyBlock;
    GeoOf(geo, one, two);
    v := new Volume(geo, NDIR_BLOCKS + geo.addrs + 1);
    replies, scenes := v.Execute(EmptyBlockOps(geo), 1);
    EmptyBlockStays(geo, v.maxBlocks, one, two, replies, scenes);
  }

  // ----- a run that loses blocks

  /** A directory that cannot be truncated, removed. */
  const LOST_OPS: seq<Op> := [Create(0, 0, false, false), Get(0, 0, true), Links(0, 0), Put(0, 0)]

  /** No inode is left, but a block for data stays in use. */
  lemma BlocksLost(g: Geo, maxBlocks: nat, b: nat, replies: seq<nat>, scenes: seq<Scene>)
    requires g.Valid() && g.AddrsOk() && g.reserved == 0 && maxBlocks > 0 && ForFiles(g, b)
    requires IsRun(g, maxBlocks, 1, LOST_OPS, replies, scenes) && scenes[0].view.inodes == map[]
    requires forall n | 0 <= n < 5 :: InOrder(g, scenes[n])
    ensures (forall k | k in scenes[4].view.inodes :: k >= 1) && exists c :: c in scenes[4].used && c !in g.system
  {
    hide InOrder, Leads, Limit, Grew, View.Bmap, Offsets, Owned;
    var ops := LOST_OPS;
    FirstBlock(g);
    assert Leads(g, maxBlocks, 1, scenes[0], ops[0], replies[0], scenes[1]);
    Made(g, maxBlocks, false, scenes[0], replies[0], scenes[1]);
    assert Leads(g, maxBlocks, 1, scenes[1], ops[1], replies[1], scenes[2]);
    Got(g, maxBlocks, scenes[1], 0, replies[1], scenes[2]);
    var c := SomeBlock(g, maxBlocks, scenes[2], replies[1], b);
    assert Leads(g, maxBlocks, 1, scenes[2], ops[2], replies[2], scenes[3]);
    Unlinked(g, maxBlocks, scenes[2], replies[2], scenes[3]);
    assert Leads(g, maxBlocks, 1, scenes[3], ops[3], replies[3], scenes[4]);
    Lost(g, maxBlocks, scenes[3], replies[3], scenes[4]);
  }

  lemma FirstBlock(g: Geo)
    requires g.AddrsOk()
    ensures 0 < Limit(g.addrs)
  {
  }

  lemma SomeBlock(g: Geo, maxBlocks: nat, s: Scene, r: nat, b: nat) returns (c: nat)
    requires g.Valid() && InOrder(g, s) && 0 in s.view.inodes && r == s.view.Bmap(g, 0, 0) && (r == 0 ==> s.free == 0) && ForFiles(g, b)
    ensures c in s.used && c !in g.system
  {
    hide InOrder;
    if r == 0 {
      AllUsed(g, s, b);
      c := b;
    } else {
      MappedUsed(g, s);
      c := r;
    }
  }

  lemma MappedUsed(g: Geo, s: Scene)
    requires g.AddrsOk() && InOrder(g, s) && 0 in s.view.inodes && s.view.Bmap(g, 0, 0) != 0
    ensures s.view.Bmap(g, 0, 0) in s.used && s.view.Bmap(g, 0, 0) !in g.system
  {
    hide Partition, BlockMap.Bmap, Owned, Slots.Ptr, Offsets, Limit, InodeOk;
    FirstBlock(g);
    OffsetsIsLeaf(g, 0);
    BmapOfView(g, s, 0, 0);
    assert InodeOk(g, s.view.disk, s.view.inodes[0]);
    OwnedAt(g, s.view, 0, Offsets(g, 0));
    HoldsApart(g, s.used, s.view.disk, s.view.inodes, {}, 0);
  }

  lemma OwnedAt(g: Geo, v: View, k: nat, p: Slot)
    requires k in v.inodes && InodeOk(g, v.disk, v.inodes[k]) && IsSlot(g, p) && v.Ptr(k, p) != 0
    ensures v.Ptr(k, p) in Holds(g, v.disk, v.inodes[k])
  {
    OwnedHere(g, v, k, p);
  }

  lemma Unlinked(g: Geo, maxBlocks: nat, s: Scene, r: nat, u: Scene)
    requires s.view.inodes.Keys == {0} && Leads(g, maxBlocks, 1, s, Links(0, 0), r, u)
    ensures u == s.(view := View(s.view.disk, s.view.inodes[0 := s.view.inodes[0].(nlink := 0)]))
  {
  }

  lemma Lost(g: Geo, maxBlocks: nat, s: Scene, r: nat, u: Scene)
    requires s.view.inodes.Keys == {0} && s.view.inodes[0].nlink == 0 && !s.view.inodes[0].truncatable
    requires Window(s.view.inodes[0]) == {} && Leads(g, maxBlocks, 1, s, Put(0, 0), r, u)
    ensures u.used == s.used && forall k | k in u.view.inodes :: k >= 1
  {
    hide Window;
    assert s.used - {} == s.used;
  }

  /** The same on a volume, from its first state on. */
  method LostRun(geo: Geo, b: nat) returns (v: Volume, replies: seq<nat>, ghost scenes: seq<Scene>)
    requires geo.Valid() && geo.AddrsOk() && geo.reserved == 0 && ForFiles(geo, b)
    ensures fresh(v) && v.g == geo && v.Sound({}) && IsRun(geo, v.maxBlocks, 1, LOST_OPS, replies, scenes)
    ensures scenes[0].view.inodes == map[] && scenes[0].used == geo.system && scenes[4] == v.Here()
    ensures (forall k | k in v.inodes :: k >= 1) && exists c :: c in Used(geo, v.bitmap) && c !in geo.system
  {
    hide InOrder, Leads, Used, ForFiles;
    v := new Volume(geo, 1);
    replies, scenes := v.Execute(LOST_OPS, 1);
    BlocksLost(geo, v.maxBlocks, b, replies, scenes);
  }

  /** A volume of one group in which two blocks are for data. */
  function SmallVolume(): Geo {
    Geo(1, 64, 1, 65, 0, 256, 8, 1024, Run(1, 62))
  }

  lemma SmallAddrs()
    ensures SmallVolume().AddrsOk()
  {
    assert Pow2(4) == 16;
    assert Pow2(8) == 2 * (2 * (2 * (2 * Pow2(4))));
  }

  lemma SmallSystem()
    ensures var g := SmallVolume();
            && (forall b :: b in g.system <==> 1 <= b < 63)
            && g.groups == 1 && g.perGroup == 64 && g.first == 1 && g.blocks == 65 && g.reserved == 0 && g.blockSize == 1024
  {
    hide Run;
  }

  lemma SmallVolumeHasTwo()
    ensures TwoForData(SmallVolume(), 63, 64)
  {
    var g := SmallVolume();
    SmallAddrs();
    SmallSystem();
    assert forall i: nat | i < 1 :: g.BlockNo(i, 0) == 1;
    hide Run, SmallVolume;
    forall b: int
      ensures ForFiles(g, b) <==> b == 63 || b == 64
    {
    }
  }
}
