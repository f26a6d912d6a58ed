/** Who holds each used block: the system zones, one inode's tree, one inode's
    preallocation window, or the operation that is in progress. */
module Accounting {
  import opened Geometry
  import opened Slots

  // ----- disjoint unions of sets of blocks

  type Shares = map<nat, set<nat>>

  /** The used blocks are the disjoint union of the system zones, the blocks of the operation
      in progress and the shares: nothing is leaked and nothing is held twice. */
  ghost predicate Partition(used: set<nat>, system: set<nat>, extra: set<nat>, shares: Shares) {
    && system !! extra && system + extra <= used
    && (forall k | k in shares :: shares[k] <= used && shares[k] !! system + extra)
    && (forall k, l | k in shares && l in shares && k != l :: shares[k] !! shares[l])
    && (forall b | b in used :: b in system || b in extra || InSomeShare(shares, b))
  }

  ghost predicate InSomeShare(shares: Shares, b: nat) {
    exists k :: k in shares && b in shares[k]
  }

  lemma PartitionGrows(used: set<nat>, system: set<nat>, extra: set<nat>, shares: Shares, more: set<nat>)
    requires Partition(used, system, extra, shares) && more !! used
    ensures Partition(used + more, system, extra + more, shares)
  {
  }

  lemma PartitionShrinks(used: set<nat>, system: set<nat>, extra: set<nat>, shares: Shares, less: set<nat>)
    requires Partition(used, system, extra, shares) && less <= extra
    ensures Partition(used - less, system, extra - less, shares)
  {
  }

  /** One share and the blocks in progress exchange blocks. */
  lemma PartitionExchanged(used: set<nat>, system: set<nat>, extra: set<nat>, shares: Shares,
                           k: nat, share: set<nat>, extra': set<nat>)
    requires Partition(used, system, extra, shares)
    requires share !! extra'
    requires share + extra' == (if k in shares then shares[k] else {}) + extra
    ensures Partition(used, system, extra', shares[k := share])
  {
    var shares' := shares[k := share];
    var before := if k in shares then shares[k] else {};
    assert before + extra <= used && before + extra !! system;
    assert share <= share + extra' && extra' <= share + extra';
    forall l | l in shares && l != k
      ensures shares'[l] !! share && shares'[l] !! extra'
    {
      assert shares[l] !! before + extra;
    }
    forall b | b in used
      ensures b in system || b in extra' || InSomeShare(shares', b)
    {
      if b in before + extra {
        assert b in share + extra';
        assert k in shares' && shares'[k] == share;
      } else if InSomeShare(shares, b) {
        var l :| l in shares && b in shares[l];
        assert l in shares' && shares'[l] == shares[l];
      }
    }
  }

  lemma PartitionDropsEmpty(used: set<nat>, system: set<nat>, extra: set<nat>, shares: Shares, k: nat)
    requires Partition(used, system, extra, shares) && k in shares && shares[k] == {}
    ensures Partition(used, system, extra, shares - {k})
  {
    var shares' := shares - {k};
    forall b | b in used
      ensures b in system || b in extra || InSomeShare(shares', b)
    {
      if InSomeShare(shares, b) {
        var l :| l in shares && b in shares[l];
        assert l in shares' && shares'[l] == shares[l];
      }
    }
  }

  // ----- inodes

  /** The in-core inode fields that block allocation reads and writes. */
  datatype Inode = Inode(
    data: seq<nat>,
    size: nat,
    blocks: nat,
    nlink: nat,
    regular: bool,
    group: nat,
    truncatable: bool,
    preallocBlock: nat,
    preallocCount: nat,
    nextAllocBlock: int,
    nextAllocGoal: nat)

  type Inodes = map<nat, Inode>

  function Run(b: nat, n: nat): (r: set<nat>)
    ensures forall i: nat :: i in r <==> b <= i < b + n
  {
    if n == 0 then {} else Run(b, n - 1) + {b + n - 1}
  }

  lemma RunHead(b: nat, n: nat)
    ensures Run(b, 1 + n) == Run(b + 1, n) + {b} && b !in Run(b + 1, n)
  {
  }

  /** Blocks set aside for the inode but not yet part of its file. */
  ghost function Window(n: Inode): set<nat> {
    Run(n.preallocBlock, n.preallocCount)
  }

  ghost function Holds(g: Geo, disk: Disk, n: Inode): set<nat> {
    Owned(g, disk, n.data) + Window(n)
  }

  /** One inode: no address twice, the window apart from the tree, and i_blocks the number
      of blocks of the tree in sectors. */
  ghost predicate InodeOk(g: Geo, disk: Disk, n: Inode) {
    && Injective(g, disk, n.data)
    && Owned(g, disk, n.data) !! Window(n)
    && n.blocks == g.Sectors() * |Owned(g, disk, n.data)|
  }

  ghost function SharesOf(g: Geo, disk: Disk, inodes: Inodes): (r: Shares)
    ensures r.Keys == inodes.Keys
  {
    map k | k in inodes :: Holds(g, disk, inodes[k])
  }

  /** The accounting statement of a volume. */
  ghost predicate Books(g: Geo, used: set<nat>, disk: Disk, inodes: Inodes, extra: set<nat>) {
    && (forall k | k in inodes :: InodeOk(g, disk, inodes[k]))
    && Partition(used, g.system, extra, SharesOf(g, disk, inodes))
  }

  /** The same addresses in the same slots. */
  ghost predicate SameTree(g: Geo, disk: Disk, disk': Disk, data: seq<nat>) {
    && Owned(g, disk', data) == Owned(g, disk, data)
    && forall s | IsSlot(g, s) :: Ptr(disk', data, s) == Ptr(disk, data, s)
  }

  lemma InodeFrame(g: Geo, disk: Disk, disk': Disk, n: Inode)
    requires InodeOk(g, disk, n) && |disk'| == |disk|
    requires forall b | b in Owned(g, disk, n.data) :: disk'[b] == disk[b]
    ensures InodeOk(g, disk', n) && Untouched(g, disk, disk', n.data)
    ensures Holds(g, disk', n) == Holds(g, disk, n)
  {
    TreeFrame(g, disk, disk', n.data);
  }

  /** The same addresses in the same slots, and the same contents of all the tree's blocks. */
  ghost predicate Untouched(g: Geo, disk: Disk, disk': Disk, data: seq<nat>) {
    && |disk'| == |disk| && SameTree(g, disk, disk', data)
    && forall b | b in Owned(g, disk, data) :: disk'[b] == disk[b]
  }

  /** Every inode but k keeps its tree and the contents of its blocks. */
  ghost predicate OthersSame(g: Geo, disk: Disk, disk': Disk, inodes: Inodes, k: nat) {
    forall l | l in inodes && l != k :: Untouched(g, disk, disk', inodes[l].data)
  }

  /** The blocks of a share are in nobody else's tree. */
  lemma NotInOthers(g: Geo, used: set<nat>, disk: Disk, inodes: Inodes, extra: set<nat>, k: nat, b: nat)
    requires Books(g, used, disk, inodes, extra)
    requires b in extra || b !in used || (k in inodes && b in Holds(g, disk, inodes[k]))
    ensures forall l | l in inodes && l != k :: b !in Owned(g, disk, inodes[l].data)
    ensures b !in g.system || b !in used
    ensures k in inodes && (b in extra || b !in used) ==> b !in Holds(g, disk, inodes[k])
    ensures k in inodes && b in Holds(g, disk, inodes[k]) ==> b in used && b !in g.system && b !in extra
  {
    var shares := SharesOf(g, disk, inodes);
    forall l | l in inodes && l != k
      ensures b !in Owned(g, disk, inodes[l].data)
    {
      assert Owned(g, disk, inodes[l].data) <= shares[l];
      if k in inodes {
        assert shares[k] !! shares[l];
      }
    }
    if k in inodes {
      assert shares[k] == Holds(g, disk, inodes[k]);
    }
  }

  /** A block of the operation in progress, or a free one, is in no tree. */
  lemma InNoTree(g: Geo, used: set<nat>, disk: Disk, inodes: Inodes, extra: set<nat>, b: nat)
    requires Books(g, used, disk, inodes, extra)
    requires b in extra || b !in used
    ensures forall l | l in inodes :: b !in Owned(g, disk, inodes[l].data)
  {
    hide InodeOk, InTree;
    forall l | l in inodes
      ensures b !in Owned(g, disk, inodes[l].data)
    {
      assert SharesOf(g, disk, inodes)[l] == Holds(g, disk, inodes[l]);
    }
  }

  lemma OthersFrame(g: Geo, disk: Disk, disk': Disk, inodes: Inodes, k: nat)
    requires forall l | l in inodes && l != k :: InodeOk(g, disk, inodes[l])
    requires |disk'| == |disk|
    requires forall l, b | l in inodes && l != k && b in Owned(g, disk, inodes[l].data) :: disk'[b] == disk[b]
    ensures forall l | l in inodes && l != k ::
              InodeOk(g, disk', inodes[l]) && Holds(g, disk', inodes[l]) == Holds(g, disk, inodes[l])
    ensures OthersSame(g, disk, disk', inodes, k)
  {
    forall l | l in inodes && l != k
      ensures InodeOk(g, disk', inodes[l]) && Holds(g, disk', inodes[l]) == Holds(g, disk, inodes[l])
      ensures Untouched(g, disk, disk', inodes[l].data)
    {
      InodeFrame(g, disk, disk', inodes[l]);
    }
  }

  /** Replacing one inode by one that, with the operation in progress, holds the same. */
  lemma Exchanged(g: Geo, used: set<nat>, disk: Disk, disk': Disk, inodes: Inodes, extra: set<nat>,
                  k: nat, n: Inode, extra': set<nat>)
    requires Books(g, used, disk, inodes, extra) && |disk'| == |disk|
    requires forall l, b | l in inodes && l != k && b in Owned(g, disk, inodes[l].data) :: disk'[b] == disk[b]
    requires InodeOk(g, disk', n) && Holds(g, disk', n) !! extra'
    requires Holds(g, disk', n) + extra' == (if k in inodes then Holds(g, disk, inodes[k]) else {}) + extra
    ensures Books(g, used, disk', inodes[k := n], extra')
    ensures OthersSame(g, disk, disk', inodes, k)
  {
    hide InodeOk, Partition, Holds, Untouched, Owned;
    OthersFrame(g, disk, disk', inodes, k);
    var shares := SharesOf(g, disk, inodes);
    PartitionExchanged(used, g.system, extra, shares, k, Holds(g, disk', n), extra');
    assert SharesOf(g, disk', inodes[k := n]) == shares[k := Holds(g, disk', n)];
  }

  /** Changing blocks that no tree holds keeps every tree, and so the books. */
  lemma BooksFrame(g: Geo, used: set<nat>, disk: Disk, disk': Disk, inodes: Inodes, extra: set<nat>)
    requires Books(g, used, disk, inodes, extra) && |disk'| == |disk|
    requires forall k, b | k in inodes && b in Owned(g, disk, inodes[k].data) :: disk'[b] == disk[b]
    ensures Books(g, used, disk', inodes, extra)
    ensures forall k | k in inodes :: Untouched(g, disk, disk', inodes[k].data)
  {
    hide InodeOk, Partition, Holds, Untouched, Owned;
    forall k | k in inodes
      ensures InodeOk(g, disk', inodes[k]) && Holds(g, disk', inodes[k]) == Holds(g, disk, inodes[k])
      ensures Untouched(g, disk, disk', inodes[k].data)
    {
      InodeFrame(g, disk, disk', inodes[k]);
    }
    assert SharesOf(g, disk', inodes) == SharesOf(g, disk, inodes);
  }

  /** Marking clear bits used: the new blocks belong to the operation in progress. */
  lemma Allocated(g: Geo, used: set<nat>, disk: Disk, inodes: Inodes, extra: set<nat>, more: set<nat>)
    requires Books(g, used, disk, inodes, extra) && more !! used
    ensures Books(g, used + more, disk, inodes, extra + more)
  {
    PartitionGrows(used, g.system, extra, SharesOf(g, disk, inodes), more);
  }

  /** Clearing bits of blocks the operation in progress holds. */
  lemma Released(g: Geo, used: set<nat>, disk: Disk, inodes: Inodes, extra: set<nat>, less: set<nat>)
    requires Books(g, used, disk, inodes, extra) && less <= extra
    ensures Books(g, used - less, disk, inodes, extra - less)
  {
    PartitionShrinks(used, g.system, extra, SharesOf(g, disk, inodes), less);
  }

  lemma Shifted(o: set<nat>, w: set<nat>, e: set<nat>, w': set<nat>, e': set<nat>)
    requires o !! w && o + w !! e && w' !! e' && w' + e' == w + e
    ensures o !! w' && o + w' !! e' && (o + w') + e' == (o + w) + e
  {
    assert o !! w + e;
    assert w' <= w + e && e' <= w + e;
  }

  lemma MovedIn(o: set<nat>, w: set<nat>, e: set<nat>, v: nat)
    requires o !! w && o + w !! e && v in e
    ensures o + {v} !! w && (o + {v}) + w !! e - {v}
    ensures (o + {v} + w) + (e - {v}) == (o + w) + e
  {
  }

  lemma MovedOut(o: set<nat>, w: set<nat>, e: set<nat>, v: nat)
    requires o !! w && o + w !! e && v in o
    ensures o - {v} !! w && (o - {v}) + w !! e + {v}
    ensures (o - {v} + w) + (e + {v}) == (o + w) + e
  {
  }

  /** Moving blocks between the window of an inode and the operation in progress. */
  lemma Rewindowed(g: Geo, used: set<nat>, disk: Disk, inodes: Inodes, extra: set<nat>,
                   k: nat, n: Inode, extra': set<nat>)
    requires Books(g, used, disk, inodes, extra) && k in inodes
    requires n.data == inodes[k].data && n.blocks == inodes[k].blocks
    requires Window(n) !! extra'
    requires Window(n) + extra' == Window(inodes[k]) + extra
    ensures Books(g, used, disk, inodes[k := n], extra')
  {
    hide Injective, Partition, Owned;
    HoldsApart(g, used, disk, inodes, extra, k);
    Shifted(Owned(g, disk, n.data), Window(inodes[k]), extra, Window(n), extra');
    Exchanged(g, used, disk, disk, inodes, extra, k, n, extra');
  }

  /** A write to a tree changes at most one block, and that block is in the tree. */
  lemma WroteFrame(g: Geo, disk: Disk, data: seq<nat>, disk': Disk, data': seq<nat>, slot: Slot, v: nat)
    requires Injective(g, disk, data) && Wrote(g, disk, data, disk', data', slot, v)
    ensures |disk'| == |disk|
    ensures forall b: nat | b < |disk| && b !in Owned(g, disk, data) :: disk'[b] == disk[b]
  {
    if |slot| > 1 {
      PrefixIsSlot(g, slot, |slot| - 1);
    }
  }

  lemma OneMore(sectors: nat, o: set<nat>, v: nat)
    requires v !in o
    ensures sectors * |o + {v}| == sectors * |o| + sectors
  {
    assert |o + {v}| == |o| + 1;
  }

  /** `*p = v` hooks a zeroed block of the operation in progress into an empty slot. */
  lemma HookedIn(g: Geo, used: set<nat>, disk: Disk, disk': Disk, inodes: Inodes, extra: set<nat>,
                 k: nat, n: Inode, slot: Slot, v: nat)
    requires Books(g, used, disk, inodes, extra) && k in inodes
    requires Wrote(g, disk, inodes[k].data, disk', n.data, slot, v)
    requires Window(n) == Window(inodes[k]) && n.blocks == inodes[k].blocks + g.Sectors()
    requires Ptr(disk, inodes[k].data, slot) == 0
    requires v in extra && 0 < v < |disk| && disk[v] == Zeros(g)
    ensures Books(g, used, disk', inodes[k := n], extra - {v})
    ensures OnlyAt(g, disk, inodes[k].data, disk', n.data, slot) && Ptr(disk', n.data, slot) == v
    ensures OthersSame(g, disk, disk', inodes, k)
  {
    hide Injective, Partition, Owned, IsSlot, Ptr, OnlyAt;
    var data := inodes[k].data;
    var o := Owned(g, disk, data);
    NotInOthers(g, used, disk, inodes, extra, k, v);
    Hooked(g, disk, data, disk', n.data, slot, v);
    OneMore(g.Sectors(), o, v);
    TreeWritten(g, used, disk, disk', inodes, extra, k, n.data, slot, v);
    HoldsApart(g, used, disk, inodes, extra, k);
    MovedIn(o, Window(n), extra, v);
    Exchanged(g, used, disk, disk', inodes, extra, k, n, extra - {v});
  }

  lemma HoldsApart(g: Geo, used: set<nat>, disk: Disk, inodes: Inodes, extra: set<nat>, k: nat)
    requires Books(g, used, disk, inodes, extra) && k in inodes
    ensures Holds(g, disk, inodes[k]) !! extra && Holds(g, disk, inodes[k]) !! g.system
    ensures Holds(g, disk, inodes[k]) <= used
  {
    assert Holds(g, disk, inodes[k]) == SharesOf(g, disk, inodes)[k];
  }

  /** The block written for inode k is in no other inode's tree. */
  lemma TreeWritten(g: Geo, used: set<nat>, disk: Disk, disk': Disk, inodes: Inodes, extra: set<nat>,
                    k: nat, data': seq<nat>, slot: Slot, v: nat)
    requires Books(g, used, disk, inodes, extra) && k in inodes
    requires Wrote(g, disk, inodes[k].data, disk', data', slot, v)
    ensures |disk'| == |disk|
    ensures forall l, b | l in inodes && l != k && b in Owned(g, disk, inodes[l].data) :: disk'[b] == disk[b]
  {
    WroteFrame(g, disk, inodes[k].data, disk', data', slot, v);
    forall l, b | l in inodes && l != k && b in Owned(g, disk, inodes[l].data)
      ensures disk'[b] == disk[b]
    {
      if b in Owned(g, disk, inodes[k].data) {
        NotInOthers(g, used, disk, inodes, extra, k, b);
      }
    }
  }

  /** `*p = 0` on a slot with nothing below it hands its block to the operation. */
  lemma UnhookedOut(g: Geo, used: set<nat>, disk: Disk, disk': Disk, inodes: Inodes, extra: set<nat>,
                    k: nat, n: Inode, slot: Slot)
    requires Books(g, used, disk, inodes, extra) && k in inodes
    requires Wrote(g, disk, inodes[k].data, disk', n.data, slot, 0)
    requires Ptr(disk, inodes[k].data, slot) != 0
    requires forall s | IsSlot(g, s) && slot < s :: Ptr(disk, inodes[k].data, s) == 0
    requires Window(n) == Window(inodes[k]) && n.blocks == inodes[k].blocks - g.Sectors()
    ensures Books(g, used, disk', inodes[k := n], extra + {Ptr(disk, inodes[k].data, slot)})
    ensures OnlyAt(g, disk, inodes[k].data, disk', n.data, slot) && Ptr(disk', n.data, slot) == 0
    ensures OthersSame(g, disk, disk', inodes, k)
  {
    hide Injective, Partition, Owned, IsSlot, Ptr, OnlyAt;
    var data := inodes[k].data;
    var v := Ptr(disk, data, slot);
    var o := Owned(g, disk, data);
    Unhooked(g, disk, data, disk', n.data, slot);
    assert o - {v} + {v} == o;
    OneMore(g.Sectors(), o - {v}, v);
    TreeWritten(g, used, disk, disk', inodes, extra, k, n.data, slot, 0);
    HoldsApart(g, used, disk, inodes, extra, k);
    MovedOut(o, Window(n), extra, v);
    Exchanged(g, used, disk, disk', inodes, extra, k, n, extra + {v});
  }

  lemma EmptyTree(g: Geo, disk: Disk, data: seq<nat>)
    requires |data| == N_BLOCKS && forall i | 0 <= i < |data| :: data[i] == 0
    ensures forall s :: Ptr(disk, data, s) == 0
    ensures Owned(g, disk, data) == {}
  {
    forall s
      ensures Ptr(disk, data, s) == 0
    {
      if |s| >= 1 {
        var top := s[..1];
        assert Ptr(disk, data, top) == 0;
        DeadPrefix(disk, data, top, s);
      }
    }
  }

  /** A new inode holds nothing. */
  lemma Added(g: Geo, used: set<nat>, disk: Disk, inodes: Inodes, extra: set<nat>, k: nat, n: Inode)
    requires Books(g, used, disk, inodes, extra) && k !in inodes && |disk| > 0
    requires |n.data| == N_BLOCKS && forall i | 0 <= i < |n.data| :: n.data[i] == 0
    requires n.preallocCount == 0 && n.blocks == 0
    ensures Books(g, used, disk, inodes[k := n], extra)
  {
    EmptyTree(g, disk, n.data);
    assert Window(n) == {};
    Exchanged(g, used, disk, disk, inodes, extra, k, n, extra);
  }

  /** An inode that holds nothing can be dropped. */
  lemma Removed(g: Geo, used: set<nat>, disk: Disk, inodes: Inodes, extra: set<nat>, k: nat)
    requires Books(g, used, disk, inodes, extra) && k in inodes
    requires Holds(g, disk, inodes[k]) == {}
    ensures Books(g, used, disk, inodes - {k}, extra)
  {
    hide InodeOk, Partition, Holds;
    PartitionDropsEmpty(used, g.system, extra, SharesOf(g, disk, inodes), k);
    assert SharesOf(g, disk, inodes - {k}) == SharesOf(g, disk, inodes) - {k};
  }

  lemma InodeDataWritten(g: Geo, disk: Disk, disk': Disk, n: Inode, leaf: Slot)
    requires InodeOk(g, disk, n) && IsLeaf(g, leaf) && Ptr(disk, n.data, leaf) != 0
    requires |disk'| == |disk|
    requires forall b: nat | b < |disk| && b != Ptr(disk, n.data, leaf) :: disk'[b] == disk[b]
    ensures InodeOk(g, disk', n) && SameTree(g, disk, disk', n.data)
    ensures Holds(g, disk', n) == Holds(g, disk, n) && Ptr(disk, n.data, leaf) in Holds(g, disk, n)
  {
    LeafWrite(g, disk, disk', n.data, leaf);
  }

  /** Overwriting file data keeps the books and every tree. */
  lemma DataWritten(g: Geo, used: set<nat>, disk: Disk, disk': Disk, inodes: Inodes, extra: set<nat>,
                    k: nat, leaf: Slot)
    requires Books(g, used, disk, inodes, extra) && k in inodes
    requires IsLeaf(g, leaf) && Ptr(disk, inodes[k].data, leaf) != 0
    requires |disk'| == |disk|
    requires forall b: nat | b < |disk| && b != Ptr(disk, inodes[k].data, leaf) :: disk'[b] == disk[b]
    ensures Books(g, used, disk', inodes, extra)
    ensures SameTree(g, disk, disk', inodes[k].data) && OthersSame(g, disk, disk', inodes, k)
  {
    hide InodeOk, Partition, InTree, Injective;
    InodeDataWritten(g, disk, disk', inodes[k], leaf);
    NotInOthers(g, used, disk, inodes, extra, k, Ptr(disk, inodes[k].data, leaf));
    HoldsApart(g, used, disk, inodes, extra, k);
    hide Holds;
    Exchanged(g, used, disk, disk', inodes, extra, k, inodes[k], extra);
    assert inodes[k := inodes[k]] == inodes;
  }
}
