/** The block tree of one inode, as positions that hold block addresses.

    A slot is the path to one address: its first element indexes the 15 addresses of the
    inode, the others index the indirect blocks met on the way. Everything said about a
    tree (what it maps, which blocks it holds) is said about the addresses in its slots. */
module Slots {
  import opened Geometry

  type Slot = seq<nat>
  type Disk = seq<seq<nat>>

  const NDIR_BLOCKS: nat := 12
  const IND_BLOCK: nat := 12
  const DIND_BLOCK: nat := 13
  const TIND_BLOCK: nat := 14
  const N_BLOCKS: nat := 15

  /** Levels of indirection below one of the inode's own addresses. */
  function Depth(nr: nat): nat {
    if nr < NDIR_BLOCKS then 0 else nr - (NDIR_BLOCKS - 1)
  }

  predicate IsSlot(g: Geo, s: Slot) {
    && 1 <= |s| && s[0] < N_BLOCKS && |s| <= 1 + Depth(s[0])
    && forall k | 1 <= k < |s| :: s[k] < g.addrs
  }

  /** A slot that addresses file data. */
  predicate IsLeaf(g: Geo, s: Slot) {
    IsSlot(g, s) && |s| == 1 + Depth(s[0])
  }

  function Parent(s: Slot): Slot
    requires |s| > 1
  {
    s[..|s| - 1]
  }

  function Last(s: Slot): nat
    requires |s| > 0
  {
    s[|s| - 1]
  }

  /** The address in a slot; 0, the hole, also when the way to it is cut. */
  function Ptr(disk: Disk, data: seq<nat>, s: Slot): nat {
    if |s| == 0 then 0
    else if |s| == 1 then if s[0] < |data| then data[s[0]] else 0
    else
      var p := Ptr(disk, data, Parent(s));
      if p == 0 || p >= |disk| || Last(s) >= |disk[p]| then 0 else disk[p][Last(s)]
  }

  /** Every block on disk holds the same number of addresses. */
  ghost predicate DiskShaped(g: Geo, disk: Disk) {
    |disk| == g.blocks && forall b | 0 <= b < |disk| :: |disk[b]| == g.addrs
  }

  function Zeros(g: Geo): (r: seq<nat>)
    ensures |r| == g.addrs && forall i | 0 <= i < |r| :: r[i] == 0
  {
    seq(g.addrs, _ => 0)
  }

  lemma DiskKeepsShape(g: Geo, disk: Disk, b: nat)
    requires DiskShaped(g, disk) && b < |disk|
    ensures DiskShaped(g, disk[b := Zeros(g)])
  {
  }

  /** No address occurs in two slots, and every address is on the volume. */
  ghost predicate Injective(g: Geo, disk: Disk, data: seq<nat>) {
    && |data| == N_BLOCKS
    && (forall s | IsSlot(g, s) :: Ptr(disk, data, s) < |disk|)
    && (forall s, t | IsSlot(g, s) && IsSlot(g, t) && Ptr(disk, data, s) != 0 ::
          Ptr(disk, data, s) == Ptr(disk, data, t) ==> s == t)
  }

  ghost predicate InTree(g: Geo, disk: Disk, data: seq<nat>, b: nat) {
    b != 0 && exists s :: IsSlot(g, s) && Ptr(disk, data, s) == b
  }

  /** Every block of the tree, indirect blocks included. */
  ghost function Owned(g: Geo, disk: Disk, data: seq<nat>): set<nat> {
    set b: nat | b < |disk| && InTree(g, disk, data, b)
  }

  lemma PrefixIsSlot(g: Geo, s: Slot, k: nat)
    requires IsSlot(g, s) && 1 <= k <= |s|
    ensures IsSlot(g, s[..k])
  {
  }

  /** A live slot is reached through live slots. */
  lemma {:induction false} LivePrefix(disk: Disk, data: seq<nat>, s: Slot, k: nat)
    requires 1 <= k <= |s| && Ptr(disk, data, s) != 0
    ensures Ptr(disk, data, s[..k]) != 0
  {
    if k < |s| {
      LivePrefix(disk, data, Parent(s), k);
      assert Parent(s)[..k] == s[..k];
    } else {
      assert s[..k] == s;
    }
  }

  lemma {:induction false} DeadPrefix(disk: Disk, data: seq<nat>, s: Slot, t: Slot)
    requires 1 <= |s| && s <= t && Ptr(disk, data, s) == 0
    ensures Ptr(disk, data, t) == 0
  {
    if |t| > |s| {
      DeadPrefix(disk, data, s, Parent(t));
    } else {
      assert t == s;
    }
  }

  // ----- what one write changes

  /** The disk after storing one address in a block. */
  function Stored(disk: Disk, b: nat, i: nat, v: nat): Disk
    requires b < |disk| && i < |disk[b]|
  {
    var content: seq<nat> := disk[b][i := v];
    disk[b := content]
  }

  /** The step `*p = v` for the address p of a slot: in the inode, or in the indirect block
      the parent slot points to. */
  ghost predicate Wrote(g: Geo, disk: Disk, data: seq<nat>, disk': Disk, data': seq<nat>, slot: Slot, v: nat) {
    && IsSlot(g, slot) && |data| == N_BLOCKS
    && if |slot| == 1 then disk' == disk && data' == data[slot[0] := v]
       else
         var b := Ptr(disk, data, Parent(slot));
         b != 0 && b < |disk| && |disk[b]| == g.addrs &&
         data' == data && disk' == Stored(disk, b, Last(slot), v)
  }

  /** The only slot whose address differs is the given one. */
  ghost predicate OnlyAt(g: Geo, disk: Disk, data: seq<nat>, disk': Disk, data': seq<nat>, slot: Slot) {
    forall s | IsSlot(g, s) && s != slot :: Ptr(disk', data', s) == Ptr(disk, data, s)
  }

  lemma {:induction false} WriteElsewhere(
    g: Geo, disk: Disk, data: seq<nat>, disk': Disk, data': seq<nat>, slot: Slot, v: nat, s: Slot)
    requires Injective(g, disk, data) && Wrote(g, disk, data, disk', data', slot, v)
    requires IsSlot(g, s) && !(slot <= s)
    ensures Ptr(disk', data', s) == Ptr(disk, data, s)
    decreases |s|
  {
    if |s| > 1 {
      var p := Parent(s);
      PrefixIsSlot(g, s, |s| - 1);
      assert !(slot <= p);
      WriteElsewhere(g, disk, data, disk', data', slot, v, p);
      if |slot| > 1 && Ptr(disk, data, p) == Ptr(disk, data, Parent(slot)) {
        PrefixIsSlot(g, slot, |slot| - 1);
        assert p == Parent(slot);
        assert s == p + [Last(s)];
        assert slot == p + [Last(slot)];
      }
    } else {
      assert s[0] != slot[0] || |slot| > 1;
    }
  }

  lemma WriteAt(g: Geo, disk: Disk, data: seq<nat>, disk': Disk, data': seq<nat>, slot: Slot, v: nat)
    requires Injective(g, disk, data) && Wrote(g, disk, data, disk', data', slot, v)
    ensures Ptr(disk', data', slot) == v
  {
    if |slot| > 1 {
      var p := Parent(slot);
      PrefixIsSlot(g, slot, |slot| - 1);
      assert !(slot <= p);
      WriteElsewhere(g, disk, data, disk', data', slot, v, p);
    }
  }

  /** Writing 0, or a zeroed block of no tree, into a slot with nothing below it changes the
      address in that slot and no other. */
  lemma WriteOnlyAt(g: Geo, disk: Disk, data: seq<nat>, disk': Disk, data': seq<nat>, slot: Slot, v: nat)
    requires Injective(g, disk, data) && Wrote(g, disk, data, disk', data', slot, v)
    requires v == 0 || (v < |disk| && v !in Owned(g, disk, data) && disk[v] == Zeros(g))
    requires forall s | IsSlot(g, s) && slot < s :: Ptr(disk, data, s) == 0
    ensures OnlyAt(g, disk, data, disk', data', slot) && Ptr(disk', data', slot) == v
  {
    WriteAt(g, disk, data, disk', data', slot, v);
    forall s | IsSlot(g, s) && s != slot
      ensures Ptr(disk', data', s) == Ptr(disk, data, s)
    {
      if slot <= s {
        var below := s[..|slot| + 1];
        assert below[..|slot|] == slot && Parent(below) == slot;
        if v != 0 {
          if |slot| > 1 {
            PrefixIsSlot(g, slot, |slot| - 1);
            assert Ptr(disk, data, Parent(slot)) in Owned(g, disk, data);
          }
          assert disk'[v] == disk[v];
        }
        assert Ptr(disk', data', below) == 0;
        DeadPrefix(disk', data', below, s);
      } else {
        WriteElsewhere(g, disk, data, disk', data', slot, v, s);
      }
    }
  }

  /** Hooking a fresh block into an empty slot adds exactly that block to the tree. */
  lemma Hooked(g: Geo, disk: Disk, data: seq<nat>, disk': Disk, data': seq<nat>, slot: Slot, v: nat)
    requires Injective(g, disk, data) && Wrote(g, disk, data, disk', data', slot, v)
    requires Ptr(disk, data, slot) == 0
    requires 0 < v < |disk| && v !in Owned(g, disk, data) && disk[v] == Zeros(g)
    ensures OnlyAt(g, disk, data, disk', data', slot) && Ptr(disk', data', slot) == v
    ensures Injective(g, disk', data')
    ensures Owned(g, disk', data') == Owned(g, disk, data) + {v}
  {
    forall s | IsSlot(g, s) && slot < s
      ensures Ptr(disk, data, s) == 0
    {
      DeadPrefix(disk, data, slot, s);
    }
    WriteOnlyAt(g, disk, data, disk', data', slot, v);
  }

  /** Clearing a slot with nothing below it removes exactly its block from the tree. */
  lemma Unhooked(g: Geo, disk: Disk, data: seq<nat>, disk': Disk, data': seq<nat>, slot: Slot)
    requires Injective(g, disk, data) && Wrote(g, disk, data, disk', data', slot, 0)
    requires Ptr(disk, data, slot) != 0
    requires forall s | IsSlot(g, s) && slot < s :: Ptr(disk, data, s) == 0
    ensures OnlyAt(g, disk, data, disk', data', slot) && Ptr(disk', data', slot) == 0
    ensures Injective(g, disk', data')
    ensures Ptr(disk, data, slot) in Owned(g, disk, data)
    ensures Owned(g, disk', data') == Owned(g, disk, data) - {Ptr(disk, data, slot)}
  {
    WriteOnlyAt(g, disk, data, disk', data', slot, 0);
  }

  /** Changes outside a tree's blocks leave it alone. */
  lemma {:induction false} PtrFrame(g: Geo, disk: Disk, disk': Disk, data: seq<nat>, s: Slot)
    requires |disk'| == |disk| && IsSlot(g, s)
    requires forall b | b in Owned(g, disk, data) :: disk'[b] == disk[b]
    ensures Ptr(disk', data, s) == Ptr(disk, data, s)
    decreases |s|
  {
    if |s| > 1 {
      PrefixIsSlot(g, s, |s| - 1);
      PtrFrame(g, disk, disk', data, Parent(s));
      var p := Ptr(disk, data, Parent(s));
      assert 0 < p < |disk| ==> p in Owned(g, disk, data);
    }
  }

  lemma TreeFrame(g: Geo, disk: Disk, disk': Disk, data: seq<nat>)
    requires |disk'| == |disk|
    requires forall b | b in Owned(g, disk, data) :: disk'[b] == disk[b]
    ensures forall s | IsSlot(g, s) :: Ptr(disk', data, s) == Ptr(disk, data, s)
    ensures Owned(g, disk', data) == Owned(g, disk, data)
    ensures Injective(g, disk, data) ==> Injective(g, disk', data)
  {
    forall s | IsSlot(g, s)
      ensures Ptr(disk', data, s) == Ptr(disk, data, s)
    {
      PtrFrame(g, disk, disk', data, s);
    }
  }

  /** File data is never taken for addresses: overwriting a data block changes no slot. */
  lemma {:induction false} LeafWritePtr(g: Geo, disk: Disk, disk': Disk, data: seq<nat>, leaf: Slot, s: Slot)
    requires Injective(g, disk, data) && IsLeaf(g, leaf) && IsSlot(g, s)
    requires Ptr(disk, data, leaf) != 0
    requires |disk'| == |disk|
    requires forall b: nat | b < |disk| && b != Ptr(disk, data, leaf) :: disk'[b] == disk[b]
    ensures Ptr(disk', data, s) == Ptr(disk, data, s)
    decreases |s|
  {
    if |s| > 1 {
      PrefixIsSlot(g, s, |s| - 1);
      LeafWritePtr(g, disk, disk', data, leaf, Parent(s));
      assert Parent(s)[0] == s[0];
    }
  }

  lemma LeafWrite(g: Geo, disk: Disk, disk': Disk, data: seq<nat>, leaf: Slot)
    requires Injective(g, disk, data) && IsLeaf(g, leaf) && Ptr(disk, data, leaf) != 0
    requires |disk'| == |disk|
    requires forall b: nat | b < |disk| && b != Ptr(disk, data, leaf) :: disk'[b] == disk[b]
    ensures forall s | IsSlot(g, s) :: Ptr(disk', data, s) == Ptr(disk, data, s)
    ensures Owned(g, disk', data) == Owned(g, disk, data) && Injective(g, disk', data)
  {
    forall s | IsSlot(g, s)
      ensures Ptr(disk', data, s) == Ptr(disk, data, s)
    {
      LeafWritePtr(g, disk, disk', data, leaf, s);
    }
  }
}
