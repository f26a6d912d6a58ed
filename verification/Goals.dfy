/** Where getblk puts a new block: the goal of each level of the walk, and the block and window
    ext2_alloc_block gives for a goal, as relations between the states before and after. */
module Goals {
  import opened Bitops
  import opened Geometry
  import opened BlockSearch
  import opened Placement
  import opened Slots
  import opened BlockMap
  import opened Accounting
  import opened TreeSteps

  /** Block contents and inodes, the used blocks, and how many are free. */
  datatype Scene = Scene(view: View, used: set<nat>, free: nat)

  // ----- ext2_new_block

  /** What the search answers on these bitmaps: 0 when only reserved blocks are free, else the
      block its rule gives for the goal. */
  ghost predicate Gives(g: Geo, bm: Bitmaps, free: nat, goal: nat, b: nat)
    requires g.Valid()
  {
    if free <= g.reserved then b == 0
    else
      && b != 0 && g.first <= b < g.blocks
      && Placed(bm, g.GroupOf(Goal(g, goal)), g.BitOf(Goal(g, goal)), g.GroupOf(b), g.BitOf(b))
  }

  /** The same on the bitmaps of a volume where exactly these blocks are used. */
  ghost predicate Chosen(g: Geo, used: set<nat>, goal: nat, b: nat) {
    exists bm, groupFree, free :: Allocation(g, bm, groupFree, free, used) && Gives(g, bm, free, goal, b)
  }

  /** A preallocated run after block b, bit j of its group, is as long as it can be: seven
      blocks, or up to the end of the group or of the volume, or up to a used block. */
  ghost predicate WindowEnds(g: Geo, j: nat, b: nat, n: nat, used: set<nat>) {
    n <= 7 && (n == 7 || j + 1 + n == g.perGroup || b + 1 + n >= g.blocks || b + 1 + n in used)
  }

  /** The bitmaps are determined by the used blocks. */
  lemma SameBitmaps(g: Geo, bm: Bitmaps, groupFree: seq<nat>, free: nat, bm': Bitmaps, groupFree': seq<nat>, free': nat,
                    used: set<nat>)
    requires Allocation(g, bm, groupFree, free, used) && Allocation(g, bm', groupFree', free', used)
    ensures bm == bm' && groupFree == groupFree' && free == free'
  {
    forall i, j | 0 <= i < g.groups && 0 <= j < g.perGroup
      ensures bm[i][j] == bm'[i][j]
    {
      SettingBit(g, bm, groupFree, free, used, i, j);
      SettingBit(g, bm', groupFree', free', used, i, j);
    }
    assert forall i | 0 <= i < g.groups :: bm[i] == bm'[i];
    assert bm == bm';
    assert groupFree == groupFree';
  }

  /** A free block is found exactly when more than the reserved ones are left. */
  lemma ChosenIsFree(g: Geo, bm: Bitmaps, groupFree: seq<nat>, free: nat, used: set<nat>, goal: nat, b: nat)
    requires Allocation(g, bm, groupFree, free, used) && Chosen(g, used, goal, b)
    ensures b == 0 <==> free <= g.reserved
    ensures b != 0 ==> g.first <= b < g.blocks && b !in used
  {
    var bm', groupFree', free' :| Allocation(g, bm', groupFree', free', used) && Gives(g, bm', free', goal, b);
    SameBitmaps(g, bm, groupFree, free, bm', groupFree', free', used);
    if b != 0 {
      BlockNoOf(g, b);
    }
  }

  /** The block is the goal itself when that is free; it follows the goal in its group when
      something after the goal is free there; and a goal outside the volume counts as the first
      block. */
  lemma ChosenNear(g: Geo, used: set<nat>, goal: nat, b: nat, c: nat)
    requires Chosen(g, used, goal, b) && b != 0 && g.Valid()
    requires g.first <= c < g.blocks && c !in used
    ensures g.first <= goal <= c && g.GroupOf(goal) == g.GroupOf(c) ==> goal <= b && g.GroupOf(b) == g.GroupOf(goal)
    ensures goal == c ==> b == c
    ensures goal < g.first || goal >= g.blocks ==> Chosen(g, used, g.first, b)
  {
    var bm, groupFree, free :| Allocation(g, bm, groupFree, free, used) && Gives(g, bm, free, goal, b);
    BlockNoOf(g, c);
    BlockNoOf(g, b);
    SettingBit(g, bm, groupFree, free, used, g.GroupOf(c), g.BitOf(c));
    if g.first <= goal <= c && g.GroupOf(goal) == g.GroupOf(c) {
      BlockNoOf(g, goal);
      assert !bm[g.GroupOf(goal)][g.BitOf(c)];
    }
  }

  // ----- ext2_alloc_block

  ghost predicate GoalInWindow(n: Inode, goal: nat) {
    n.preallocCount != 0 && (goal == n.preallocBlock || goal + 1 == n.preallocBlock)
  }

  /** A block for inode k: the first of its window when the goal is there or just before. Otherwise
      the window is given back and a block chosen, for a regular file with a new window after it. */
  ghost predicate Allocates(g: Geo, s: Scene, k: nat, goal: nat, r: nat, u: Scene) {
    var v, w := s.view, u.view;
    && k in v.inodes && k in w.inodes
    && var n := v.inodes[k];
       if GoalInWindow(n, goal) then
         && r == n.preallocBlock < |v.disk| && u.used == s.used
         && w == View(v.disk[r := Zeros(g)], v.inodes[k := n.(preallocBlock := r + 1, preallocCount := n.preallocCount - 1)])
       else
         var left := s.used - Window(n);
         && Chosen(g, left, goal, r)
         && if r == 0 then u.used == left && w == View(v.disk, v.inodes[k := n.(preallocCount := 0)])
            else r < |v.disk| && Searched(g, View(v.disk, v.inodes[k := n.(preallocCount := 0)]), left, k, r, u)
  }

  /** The searched block r, and the window after it, go from free to used. */
  ghost predicate Searched(g: Geo, v: View, used: set<nat>, k: nat, r: nat, u: Scene)
    requires k in v.inodes && r < |v.disk|
  {
    && k in u.view.inodes
    && var n, count := v.inodes[k], u.view.inodes[k].preallocCount;
       && u.view == View(v.disk[r := Zeros(g)], v.inodes[k :=
            if n.regular then n.(preallocBlock := r + 1, preallocCount := count) else n])
       && u.used == used + Run(r, 1 + count) && Run(r, 1 + count) !! used
       && (n.regular ==> g.perGroup > 0 && g.first <= r && WindowEnds(g, g.BitOf(r), r, count, used))
  }

  // ----- inode_getblk and block_getblk

  /** The last address before position nr of a list of addresses; 0 if there is none. */
  ghost predicate LastAddress(addrs: seq<nat>, nr: nat, last: nat) {
    && nr <= |addrs|
    && (last == 0 ==> forall i | 0 <= i < nr :: addrs[i] == 0)
    && (last != 0 ==> exists i :: 0 <= i < nr && addrs[i] == last && forall j | i < j < nr :: addrs[j] == 0)
  }

  /** The table that slot p is an entry of: the inode's own addresses, or an indirect block. */
  ghost function TableOf(v: View, k: nat, p: Slot): seq<nat>
    requires k in v.inodes && |p| >= 1
  {
    if |p| == 1 then v.inodes[k].data
    else
      var b := v.Ptr(k, Parent(p));
      if b < |v.disk| then v.disk[b] else []
  }

  /** The goal for slot p on the way to a logical block: the hint if it is for that block, else the
      last address before p in its table, else the first block of the inode's group or the
      indirect block itself. */
  ghost predicate IsGoal(g: Geo, v: View, k: nat, p: Slot, block: nat, goal: nat) {
    && k in v.inodes && |p| >= 1
    && var n := v.inodes[k];
       if n.nextAllocBlock == block && n.nextAllocGoal != 0 then goal == n.nextAllocGoal
       else
         || (goal != 0 && LastAddress(TableOf(v, k, p), Last(p), goal))
         || (&& LastAddress(TableOf(v, k, p), Last(p), 0)
             && goal == if |p| == 1 then n.group * g.perGroup + g.first else v.Ptr(k, Parent(p)))
  }

  /** The block r goes into slot p, and is the hint for the next one. */
  ghost predicate HooksIn(g: Geo, s: Scene, k: nat, p: Slot, block: nat, r: nat, u: Scene) {
    var v, w := s.view, u.view;
    && k in v.inodes && k in w.inodes && u.used == s.used
    && Wrote(g, v.disk, v.inodes[k].data, w.disk, w.inodes[k].data, p, r)
    && w.inodes == v.inodes[k := v.inodes[k].(data := w.inodes[k].data, blocks := v.inodes[k].blocks + g.Sectors(),
                                              nextAllocBlock := block, nextAllocGoal := r)]
  }

  /** One level of the walk to a logical block: slot p keeps its address or gets one, if the slot
      is reached at all. */
  ghost predicate Level(g: Geo, maxBlocks: nat, s: Scene, k: nat, p: Slot, block: nat, create: bool, u: Scene) {
    && |p| >= 1
    && if !create || block >= maxBlocks || s.view.Ptr(k, p) != 0 || (|p| > 1 && s.view.Ptr(k, Parent(p)) == 0) then u == s
       else exists goal, r, m :: FilledIn(g, s, k, p, block, goal, r, m, u)
  }

  ghost predicate FilledIn(g: Geo, s: Scene, k: nat, p: Slot, block: nat, goal: nat, r: nat, m: Scene, u: Scene) {
    && IsGoal(g, s.view, k, p, block, goal) && Allocates(g, s, k, goal, r, m)
    && if r == 0 then u == m else HooksIn(g, m, k, p, block, r, u)
  }

  /** The levels down to slot p, outermost first. */
  ghost predicate Walks(g: Geo, maxBlocks: nat, s: Scene, k: nat, p: Slot, block: nat, create: bool, u: Scene) {
    if |p| == 0 then u == s
    else exists m :: Walks(g, maxBlocks, s, k, p[..|p| - 1], block, create, m) && Level(g, maxBlocks, m, k, p, block, create, u)
  }

  lemma WalksFirst(g: Geo, maxBlocks: nat, s: Scene, k: nat, nr: nat, block: nat, create: bool, u: Scene)
    requires Level(g, maxBlocks, s, k, [nr], block, create, u)
    ensures Walks(g, maxBlocks, s, k, [nr], block, create, u)
  {
    hide Level;
    assert [nr][..0] == [];
    assert Walks(g, maxBlocks, s, k, [], block, create, s);
  }

  lemma WalksOn(g: Geo, maxBlocks: nat, s: Scene, k: nat, p: Slot, nr: nat, block: nat, create: bool, m: Scene, u: Scene)
    requires Walks(g, maxBlocks, s, k, p, block, create, m) && Level(g, maxBlocks, m, k, p + [nr], block, create, u)
    ensures Walks(g, maxBlocks, s, k, p + [nr], block, create, u)
  {
    hide Level;
    assert (p + [nr])[..|p|] == p;
  }

  /** The next block in sequence moves the hint along first. */
  ghost function Sequential(s: Scene, k: nat, block: int): Scene
    requires k in s.view.inodes
  {
    var n := s.view.inodes[k];
    if block == n.nextAllocBlock + 1 then
      s.(view := View(s.view.disk, s.view.inodes[k := n.(nextAllocBlock := block, nextAllocGoal := n.nextAllocGoal + 1)]))
    else s
  }
}
