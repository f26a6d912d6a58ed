/** What getblk and truncate do to one inode's tree, as relations between the disk and the
    inodes before and after. Both compose, so loops can carry them. */
module TreeSteps {
  import opened Geometry
  import opened Slots
  import opened BlockMap
  import opened Accounting

  datatype View = View(disk: Disk, inodes: Inodes) {
    function Ptr(k: nat, s: Slot): nat {
      if k in inodes then Slots.Ptr(disk, inodes[k].data, s) else 0
    }

    /** Contents of the block a slot addresses; a hole reads as zeros. */
    function At(g: Geo, k: nat, s: Slot): seq<nat> {
      var b := Ptr(k, s);
      if b == 0 || b >= |disk| then Zeros(g) else disk[b]
    }

    /** What reading a logical block of a file gives. */
    function Content(g: Geo, k: nat, block: int): seq<nat> {
      var b := Bmap(g, k, block);
      if b == 0 || b >= |disk| then Zeros(g) else disk[b]
    }

    /** What ext2_bmap answers for an inode. */
    function Bmap(g: Geo, k: nat, block: int): nat {
      if k in inodes && |inodes[k].data| == N_BLOCKS then BlockMap.Bmap(g, disk, inodes[k].data, block) else 0
    }
  }

  /** Inodes other than k are as before, and so are their blocks. */
  ghost predicate OthersKept(g: Geo, v: View, w: View, k: nat) {
    && w.inodes.Keys == v.inodes.Keys && k in v.inodes
    && (forall l | l in v.inodes && l != k :: w.inodes[l] == v.inodes[l])
    && OthersSame(g, v.disk, w.disk, v.inodes, k)
  }

  /** What no change of the tree touches; and only a regular file gets a window. */
  ghost predicate SameAttributes(n: Inode, m: Inode) {
    && m.size == n.size && m.nlink == n.nlink && m.regular == n.regular
    && m.group == n.group && m.truncatable == n.truncatable
    && (!n.regular && n.preallocCount == 0 ==> m.preallocCount == 0)
  }

  /** Data blocks that stay mapped keep their contents. */
  ghost predicate DataKept(g: Geo, v: View, w: View, k: nat)
  {
    forall s | IsLeaf(g, s) && 0 < v.Ptr(k, s) < |v.disk| && w.Ptr(k, s) == v.Ptr(k, s) ::
      |w.disk| == |v.disk| && w.disk[v.Ptr(k, s)] == v.disk[v.Ptr(k, s)]
  }

  /** The file reads the same everywhere. */
  ghost predicate FileKept(g: Geo, v: View, w: View, k: nat) {
    forall s | IsLeaf(g, s) :: w.At(g, k, s) == v.At(g, k, s)
  }

  lemma OthersKeptTrans(g: Geo, u: View, v: View, w: View, k: nat)
    requires OthersKept(g, u, v, k) && OthersKept(g, v, w, k)
    ensures OthersKept(g, u, w, k)
  {
    hide IsSlot;
    forall l | l in u.inodes && l != k
      ensures Untouched(g, u.disk, w.disk, u.inodes[l].data)
    {
      assert Untouched(g, u.disk, v.disk, u.inodes[l].data);
      assert Untouched(g, v.disk, w.disk, v.inodes[l].data);
    }
  }

  // ----- growing

  /** Addresses appear only in slots on the way to the target, none is replaced, and the file
      still reads the same. */
  ghost predicate Grew(g: Geo, v: View, w: View, k: nat, target: Slot) {
    && OthersKept(g, v, w, k)
    && SameAttributes(v.inodes[k], w.inodes[k])
    && (forall s | IsSlot(g, s) && !(s <= target) :: w.Ptr(k, s) == v.Ptr(k, s))
    && (forall s | IsSlot(g, s) && v.Ptr(k, s) != 0 :: w.Ptr(k, s) == v.Ptr(k, s))
    && FileKept(g, v, w, k)
  }

  lemma GrewTrans(g: Geo, u: View, v: View, w: View, k: nat, target: Slot)
    requires Grew(g, u, v, k, target) && Grew(g, v, w, k, target)
    ensures Grew(g, u, w, k, target)
  {
    hide OthersKept, IsSlot, View.At;
    assert forall s | IsSlot(g, s) && u.Ptr(k, s) != 0 :: v.Ptr(k, s) == u.Ptr(k, s);
    OthersKeptTrans(g, u, v, w, k);
  }

  lemma GrewWider(g: Geo, v: View, w: View, k: nat, q: Slot, target: Slot)
    requires Grew(g, v, w, k, q) && q <= target
    ensures Grew(g, v, w, k, target)
  {
    hide OthersKept, FileKept, IsSlot, Slots.Ptr;
    forall s | IsSlot(g, s) && !(s <= target)
      ensures w.Ptr(k, s) == v.Ptr(k, s)
    {
      assert !(s <= q);
    }
  }

  /** Changes to blocks of no tree and to an inode's allocation state leave every slot. */
  lemma TreesKept(g: Geo, v: View, w: View, k: nat, target: Slot)
    requires k in v.inodes && w.inodes.Keys == v.inodes.Keys && |w.disk| == |v.disk|
    requires forall l | l in v.inodes && l != k :: w.inodes[l] == v.inodes[l]
    requires SameAttributes(v.inodes[k], w.inodes[k]) && w.inodes[k].data == v.inodes[k].data
    requires forall l, b | l in v.inodes && b in Owned(g, v.disk, v.inodes[l].data) :: w.disk[b] == v.disk[b]
    ensures Grew(g, v, w, k, target)
    ensures forall s | IsSlot(g, s) :: w.Ptr(k, s) == v.Ptr(k, s)
  {
    hide Injective;
    forall l | l in v.inodes
      ensures Untouched(g, v.disk, w.disk, v.inodes[l].data)
    {
      TreeFrame(g, v.disk, w.disk, v.inodes[l].data);
    }
    forall s | IsSlot(g, s) && 0 < v.Ptr(k, s) < |v.disk|
      ensures v.Ptr(k, s) in Owned(g, v.disk, v.inodes[k].data)
    {
    }
  }

  // ----- trimming

  /** An indirect block below the double or triple level that ends before the cut: no pass looks
      at it. */
  predicate PassedOver(g: Geo, s: Slot, cut: nat) {
    |s| >= 2 && IsSlot(g, s) && !IsLeaf(g, s) && End(g, s) <= cut
  }

  /** Addresses disappear only below slot p, and no data block before the cut goes, nor an
      indirect block that is passed over. */
  ghost predicate Trimmed(g: Geo, v: View, w: View, k: nat, cut: nat, p: Slot) {
    && OthersKept(g, v, w, k)
    && SameAttributes(v.inodes[k], w.inodes[k])
    && Window(w.inodes[k]) == Window(v.inodes[k])
    && (forall s | IsSlot(g, s) && !(p <= s) :: w.Ptr(k, s) == v.Ptr(k, s))
    && (forall s | IsSlot(g, s) :: w.Ptr(k, s) == v.Ptr(k, s) || w.Ptr(k, s) == 0)
    && (forall s | IsLeaf(g, s) && Logical(g.addrs, s) < cut :: w.Ptr(k, s) == v.Ptr(k, s))
    && (forall s | PassedOver(g, s, cut) :: w.Ptr(k, s) == v.Ptr(k, s))
    && DataKept(g, v, w, k)
  }

  lemma TrimmedRefl(g: Geo, v: View, k: nat, cut: nat, p: Slot)
    requires k in v.inodes
    ensures Trimmed(g, v, v, k, cut, p)
  {
  }

  lemma TrimmedTrans(g: Geo, u: View, v: View, w: View, k: nat, cut: nat, p: Slot, q: Slot)
    requires Trimmed(g, u, v, k, cut, p) && Trimmed(g, v, w, k, cut, q) && p <= q
    ensures Trimmed(g, u, w, k, cut, p)
  {
    hide OthersKept, IsSlot, Logical;
    OthersKeptTrans(g, u, v, w, k);
    forall s | IsSlot(g, s) && !(p <= s)
      ensures w.Ptr(k, s) == u.Ptr(k, s)
    {
      assert !(q <= s);
    }
  }

  /** Everything below slot p past the cut is unmapped. */
  ghost predicate Cleared(g: Geo, v: View, k: nat, cut: nat, p: Slot)
  {
    forall s | IsLeaf(g, s) && p <= s && Logical(g.addrs, s) >= cut :: v.Ptr(k, s) == 0
  }

  /** Levels of a tree below a slot. */
  function Levels(s: Slot): int
    requires |s| >= 1
  {
    1 + Depth(s[0]) - |s|
  }

  /** One past the last logical block at or below a slot. */
  function End(g: Geo, s: Slot): nat
    requires |s| >= 1 && Levels(s) >= 0
  {
    Start(g.addrs, s, Levels(s)) + Span(g.addrs, Levels(s))
  }

  ghost predicate HasChild(g: Geo, v: View, k: nat, s: Slot)
  {
    exists i: nat :: i < g.addrs && v.Ptr(k, s + [i]) != 0
  }

  /** No indirect block at or below slot p is all zero, but for those passed over. */
  ghost predicate Tidy(g: Geo, v: View, k: nat, cut: nat, p: Slot)
  {
    forall s | IsSlot(g, s) && !IsLeaf(g, s) && p <= s && v.Ptr(k, s) != 0 && !PassedOver(g, s, cut) ::
      HasChild(g, v, k, s)
  }

  /** The part of the tree at or below slot p is as a complete pass leaves it. */
  ghost predicate Finished(g: Geo, v: View, k: nat, cut: nat, p: Slot) {
    Cleared(g, v, k, cut, p) && Tidy(g, v, k, cut, p)
  }

  lemma PrefixesOfOne(p: Slot, q: Slot, s: Slot)
    ensures p <= s && q <= s ==> p <= q || q <= p
  {
    if p <= s && q <= s {
      assert p == s[..|p|] && q == s[..|q|];
      assert |p| <= |q| ==> q[..|p|] == p;
      assert |q| <= |p| ==> p[..|q|] == q;
    }
  }

  lemma Apart(g: Geo, p: Slot, q: Slot)
    requires !(p <= q) && !(q <= p)
    ensures forall s | IsSlot(g, s) && p <= s :: !(q <= s)
  {
    forall s | IsSlot(g, s) && p <= s
      ensures !(q <= s)
    {
      PrefixesOfOne(p, q, s);
    }
  }

  /** What a pass has finished stays finished when another part of the tree is trimmed. */
  lemma FinishedElsewhere(g: Geo, v: View, w: View, k: nat, cut: nat, p: Slot, q: Slot)
    requires Trimmed(g, v, w, k, cut, q) && !(p <= q) && !(q <= p)
    requires Finished(g, v, k, cut, p)
    ensures Finished(g, w, k, cut, p)
  {
    hide OthersKept, DataKept, Logical, End, Slots.Ptr;
    Apart(g, p, q);
    forall s | IsSlot(g, s) && !IsLeaf(g, s) && p <= s && w.Ptr(k, s) != 0 && End(g, s) > cut
      ensures HasChild(g, w, k, s)
    {
      ChildElsewhere(g, v, w, k, cut, p, q, s);
    }
  }

  lemma ChildElsewhere(g: Geo, v: View, w: View, k: nat, cut: nat, p: Slot, q: Slot, s: Slot)
    requires Trimmed(g, v, w, k, cut, q) && Finished(g, v, k, cut, p)
    requires forall t | IsSlot(g, t) && p <= t :: !(q <= t)
    requires IsSlot(g, s) && !IsLeaf(g, s) && p <= s && w.Ptr(k, s) != 0 && End(g, s) > cut
    ensures HasChild(g, w, k, s)
  {
    hide OthersKept, DataKept, Logical, End, Slots.Ptr, Cleared;
    assert HasChild(g, v, k, s);
    var i: nat :| i < g.addrs && v.Ptr(k, s + [i]) != 0;
    assert IsSlot(g, s + [i]) && p <= s + [i];
    assert w.Ptr(k, s + [i]) != 0;
  }

  // ----- which logical blocks lie below a slot

  lemma ChildStart(a: nat, p: Slot, i: nat, d: nat)
    requires |p| >= 1
    ensures Start(a, p + [i], d) == Start(a, p, d + 1) + i * Span(a, d)
  {
    assert Parent(p + [i]) == p;
    var x, s := Index(a, p), Span(a, d);
    assert (x * a + i) * s == x * (a * s) + i * s;
  }

  /** A child's blocks are among its parent's. */
  lemma ChildRange(g: Geo, p: Slot, i: nat)
    requires |p| >= 1 && Levels(p) >= 1 && i < g.addrs
    ensures Start(g.addrs, p, Levels(p)) <= Start(g.addrs, p + [i], Levels(p) - 1)
    ensures End(g, p + [i]) <= End(g, p)
  {
    var d := Levels(p) - 1;
    ChildStart(g.addrs, p, i, d);
    ChildFits(g.addrs, i, Span(g.addrs, d));
    SpanNext(g.addrs, d);
    hide Start, Span;
    assert Levels(p + [i]) == d;
  }

  lemma ChildFits(a: nat, i: nat, s: nat)
    requires i < a
    ensures 0 <= i * s && i * s + s <= a * s
  {
    assert s * (a - 1 - i) == a * s - s - i * s;
    MulAtLeast(s, a - 1 - i);
    MulAtLeast(s, i);
  }

  lemma SpanNext(a: nat, d: nat)
    ensures Span(a, d + 1) == a * Span(a, d)
  {
  }

  lemma {:induction false} RangeWithin(g: Geo, p: Slot, s: Slot)
    requires |p| >= 1 && p <= s && IsSlot(g, s)
    ensures Start(g.addrs, p, Levels(p)) <= Start(g.addrs, s, Levels(s))
    ensures End(g, s) <= End(g, p)
    decreases |s|
  {
    if |s| > |p| {
      PrefixIsSlot(g, s, |s| - 1);
      RangeWithin(g, p, Parent(s));
      assert s == Parent(s) + [Last(s)];
      ChildRange(g, Parent(s), Last(s));
    } else {
      assert s == p;
    }
  }

  /** A part of the tree that ends before the cut has nothing to do. */
  lemma NothingToDo(g: Geo, v: View, k: nat, cut: nat, p: Slot)
    requires k in v.inodes && IsSlot(g, p) && |p| >= 2 && End(g, p) <= cut
    ensures Finished(g, v, k, cut, p)
  {
    forall s | IsSlot(g, s) && p <= s
      ensures End(g, s) <= cut
    {
      RangeWithin(g, p, s);
    }
  }

  /** A dead slot has nothing below it. */
  lemma DeadIsFinished(g: Geo, v: View, k: nat, cut: nat, p: Slot)
    requires k in v.inodes && IsSlot(g, p) && v.Ptr(k, p) == 0
    ensures Finished(g, v, k, cut, p)
  {
    forall s | IsSlot(g, s) && p <= s
      ensures v.Ptr(k, s) == 0
    {
      DeadPrefix(v.disk, v.inodes[k].data, p, s);
    }
  }

  /** When every child is finished and one is left, or the slot is dead, so is the slot. */
  lemma ChildrenFinished(g: Geo, v: View, k: nat, cut: nat, p: Slot)
    requires k in v.inodes && IsSlot(g, p) && !IsLeaf(g, p)
    requires forall i: nat | i < g.addrs :: Finished(g, v, k, cut, p + [i])
    requires v.Ptr(k, p) != 0 ==> HasChild(g, v, k, p)
    ensures Finished(g, v, k, cut, p)
  {
    hide Logical, End, Slots.Ptr, PassedOver;
    forall s | IsLeaf(g, s) && p <= s && Logical(g.addrs, s) >= cut
      ensures v.Ptr(k, s) == 0
    {
      ChildOnTheWay(g, p, s);
      assert Finished(g, v, k, cut, p + [s[|p|]]);
    }
    forall s | IsSlot(g, s) && !IsLeaf(g, s) && p <= s && v.Ptr(k, s) != 0 && !PassedOver(g, s, cut)
      ensures HasChild(g, v, k, s)
    {
      if s != p {
        ChildOnTheWay(g, p, s);
        assert Finished(g, v, k, cut, p + [s[|p|]]);
      }
    }
  }

  lemma ChildOnTheWay(g: Geo, p: Slot, s: Slot)
    requires IsSlot(g, p) && IsSlot(g, s) && p <= s && s != p
    ensures s[|p|] < g.addrs && p + [s[|p|]] <= s
  {
  }

  /** A finished tree with a cut of 0 is empty. */
  lemma {:induction false} FinishedAtZero(g: Geo, v: View, k: nat, s: Slot)
    requires k in v.inodes && IsSlot(g, s)
    requires Finished(g, v, k, 0, [s[0]])
    ensures v.Ptr(k, s) == 0
    decreases Levels(s)
  {
    if !IsLeaf(g, s) && v.Ptr(k, s) != 0 {
      SpanPositive(g.addrs, Levels(s));
      assert HasChild(g, v, k, s);
      var i: nat :| i < g.addrs && v.Ptr(k, s + [i]) != 0;
      assert IsSlot(g, s + [i]);
      FinishedAtZero(g, v, k, s + [i]);
      assert false;
    }
  }

  lemma {:induction false} SpanPositive(a: nat, d: nat)
    requires a > 0
    ensures Span(a, d) > 0
  {
    if d > 0 {
      SpanPositive(a, d - 1);
      MulAtLeast(Span(a, d - 1), a);
    }
  }

  // ----- the two elementary steps

  /** A write to an address never touches file data. */
  lemma LeavesNotWritten(g: Geo, disk: Disk, data: seq<nat>, disk': Disk, data': seq<nat>, slot: Slot, t: nat, s: Slot)
    requires Injective(g, disk, data) && Wrote(g, disk, data, disk', data', slot, t)
    requires IsLeaf(g, s) && Ptr(disk, data, s) != 0
    ensures |disk'| == |disk| && Ptr(disk, data, s) < |disk|
    ensures disk'[Ptr(disk, data, s)] == disk[Ptr(disk, data, s)]
  {
    if |slot| > 1 {
      PrefixIsSlot(g, slot, |slot| - 1);
      assert Parent(slot)[0] == slot[0];
    }
  }

  lemma LeavesKept(g: Geo, v: View, w: View, k: nat, slot: Slot, t: nat)
    requires k in v.inodes && k in w.inodes && InodeOk(g, v.disk, v.inodes[k])
    requires Wrote(g, v.disk, v.inodes[k].data, w.disk, w.inodes[k].data, slot, t)
    ensures DataKept(g, v, w, k)
  {
    forall s | IsLeaf(g, s) && 0 < v.Ptr(k, s) < |v.disk| && w.Ptr(k, s) == v.Ptr(k, s)
      ensures |w.disk| == |v.disk| && w.disk[v.Ptr(k, s)] == v.disk[v.Ptr(k, s)]
    {
      LeavesNotWritten(g, v.disk, v.inodes[k].data, w.disk, w.inodes[k].data, slot, t, s);
    }
  }

  /** Hooking a zeroed block in does not change what the file reads. */
  lemma HookKeepsFile(g: Geo, v: View, w: View, k: nat, slot: Slot, t: nat)
    requires k in v.inodes && k in w.inodes && InodeOk(g, v.disk, v.inodes[k])
    requires Wrote(g, v.disk, v.inodes[k].data, w.disk, w.inodes[k].data, slot, t)
    requires OnlyAt(g, v.disk, v.inodes[k].data, w.disk, w.inodes[k].data, slot) && w.Ptr(k, slot) == t
    requires v.Ptr(k, slot) == 0
    requires 0 < t < |v.disk| && v.disk[t] == Zeros(g) && t !in Owned(g, v.disk, v.inodes[k].data)
    ensures FileKept(g, v, w, k)
  {
    WroteFrame(g, v.disk, v.inodes[k].data, w.disk, w.inodes[k].data, slot, t);
    forall s | IsLeaf(g, s)
      ensures w.At(g, k, s) == v.At(g, k, s)
    {
      if v.Ptr(k, s) != 0 {
        LeavesNotWritten(g, v.disk, v.inodes[k].data, w.disk, w.inodes[k].data, slot, t, s);
      }
    }
  }

  lemma OnlyAtGrows(g: Geo, v: View, w: View, k: nat, slot: Slot, target: Slot)
    requires k in v.inodes && k in w.inodes
    requires OthersKept(g, v, w, k) && SameAttributes(v.inodes[k], w.inodes[k]) && FileKept(g, v, w, k)
    requires OnlyAt(g, v.disk, v.inodes[k].data, w.disk, w.inodes[k].data, slot)
    requires v.Ptr(k, slot) == 0 && slot <= target
    ensures Grew(g, v, w, k, target)
  {
    hide OthersKept, FileKept, IsSlot, Slots.Ptr;
  }

  lemma OnlyAtTrims(g: Geo, v: View, w: View, k: nat, slot: Slot, cut: nat)
    requires k in v.inodes && k in w.inodes
    requires OthersKept(g, v, w, k) && SameAttributes(v.inodes[k], w.inodes[k]) && DataKept(g, v, w, k)
    requires Window(w.inodes[k]) == Window(v.inodes[k])
    requires OnlyAt(g, v.disk, v.inodes[k].data, w.disk, w.inodes[k].data, slot)
    requires w.Ptr(k, slot) == 0 && (IsLeaf(g, slot) ==> Logical(g.addrs, slot) >= cut) && !PassedOver(g, slot, cut)
    ensures Trimmed(g, v, w, k, cut, slot)
  {
    hide OthersKept, DataKept, Slots.Ptr, Logical;
  }

  lemma HookStep(g: Geo, used: set<nat>, v: View, w: View, extra: set<nat>, k: nat, n: Inode,
                 slot: Slot, t: nat, target: Slot)
    requires Books(g, used, v.disk, v.inodes, extra) && k in v.inodes
    requires w.inodes == v.inodes[k := n] && SameAttributes(v.inodes[k], n)
    requires Wrote(g, v.disk, v.inodes[k].data, w.disk, n.data, slot, t)
    requires Window(n) == Window(v.inodes[k]) && n.blocks == v.inodes[k].blocks + g.Sectors()
    requires v.Ptr(k, slot) == 0 && slot <= target
    requires t in extra && 0 < t < |v.disk| && v.disk[t] == Zeros(g)
    ensures Books(g, used, w.disk, w.inodes, extra - {t})
    ensures Grew(g, v, w, k, target) && w.Ptr(k, slot) == t
  {
    hide InodeOk, Partition, Holds, InTree, Wrote, Untouched, FileKept, OnlyAt;
    HookedIn(g, used, v.disk, w.disk, v.inodes, extra, k, n, slot, t);
    InNoTree(g, used, v.disk, v.inodes, extra, t);
    HookKeepsFile(g, v, w, k, slot, t);
    OnlyAtGrows(g, v, w, k, slot, target);
  }

  /** Hooking a fresh zeroed block into entry nr of the block that the parent slot addresses. */
  lemma BelowStep(g: Geo, used: set<nat>, v: View, k: nat, n: Inode, parent: Slot, nr: nat, t: nat, target: Slot)
    requires Books(g, used, v.disk, v.inodes, {t}) && k in v.inodes && |n.data| == N_BLOCKS
    requires 1 <= |parent| && IsSlot(g, parent + [nr]) && parent + [nr] <= target
    requires 0 < v.Ptr(k, parent) < |v.disk| && nr < |v.disk[v.Ptr(k, parent)]| == g.addrs && v.Ptr(k, parent + [nr]) == 0
    requires 0 < t < |v.disk| && v.disk[t] == Zeros(g)
    requires SameAttributes(v.inodes[k], n) && n.data == v.inodes[k].data && Window(n) == Window(v.inodes[k])
    requires n.blocks == v.inodes[k].blocks + g.Sectors()
    ensures var w := View(Stored(v.disk, v.Ptr(k, parent), nr, t), v.inodes[k := n]);
            Books(g, used, w.disk, w.inodes, {}) && Grew(g, v, w, k, target) && w.Ptr(k, parent + [nr]) == t
  {
    hide Books, Grew, Slots.Ptr, IsSlot;
    var slot := parent + [nr];
    assert Parent(slot) == parent && Last(slot) == nr;
    var w := View(Stored(v.disk, v.Ptr(k, parent), nr, t), v.inodes[k := n]);
    HookStep(g, used, v, w, {t}, k, n, slot, t, target);
    assert {t} - {t} == {};
  }

  lemma ClearStep(g: Geo, used: set<nat>, v: View, w: View, extra: set<nat>, k: nat, n: Inode,
                  slot: Slot, cut: nat)
    requires Books(g, used, v.disk, v.inodes, extra) && k in v.inodes
    requires w.inodes == v.inodes[k := n] && SameAttributes(v.inodes[k], n)
    requires Wrote(g, v.disk, v.inodes[k].data, w.disk, n.data, slot, 0)
    requires Window(n) == Window(v.inodes[k]) && n.blocks == v.inodes[k].blocks - g.Sectors()
    requires v.Ptr(k, slot) != 0
    requires forall s | IsSlot(g, s) && slot < s :: v.Ptr(k, s) == 0
    requires (IsLeaf(g, slot) ==> Logical(g.addrs, slot) >= cut) && !PassedOver(g, slot, cut)
    ensures Books(g, used, w.disk, w.inodes, extra + {v.Ptr(k, slot)})
    ensures Trimmed(g, v, w, k, cut, slot) && w.Ptr(k, slot) == 0
  {
    hide InodeOk, Partition, Holds, Owned, Wrote, Untouched, DataKept, OnlyAt;
    UnhookedOut(g, used, v.disk, w.disk, v.inodes, extra, k, n, slot);
    LeavesKept(g, v, w, k, slot, 0);
    OnlyAtTrims(g, v, w, k, slot, cut);
  }

  // ----- taking a block

  /** A freshly searched block, zeroed, with the blocks after it as the new window. */
  lemma SearchedStep(g: Geo, used: set<nat>, v: View, w: View, k: nat, n: Inode, b: nat, count: nat)
    requires Books(g, used, v.disk, v.inodes, {}) && k in v.inodes && v.inodes[k].preallocCount == 0
    requires Run(b, 1 + count) !! used && b < |v.disk|
    requires w == View(v.disk[b := Zeros(g)], v.inodes[k := n])
    requires SameAttributes(v.inodes[k], n) && n.data == v.inodes[k].data && n.blocks == v.inodes[k].blocks
    requires Window(n) == Run(b + 1, count)
    ensures Books(g, used + Run(b, 1 + count), w.disk, w.inodes, {b})
    ensures Grew(g, v, w, k, [])
  {
    hide InodeOk, Partition, InTree, SameAttributes;
    var run := Run(b, 1 + count);
    RunHead(b, count);
    InNoTree(g, used, v.disk, v.inodes, {}, b);
    TreesKept(g, v, w, k, []);
    BooksFrame(g, used, v.disk, w.disk, v.inodes, {});
    Allocated(g, used, w.disk, v.inodes, {}, run);
    assert {} + run == run;
    assert Window(v.inodes[k]) == {};
    Rewindowed(g, used + run, w.disk, v.inodes, run, k, n, {b});
  }

  /** The first block of the window, zeroed. */
  lemma WindowStep(g: Geo, used: set<nat>, v: View, w: View, k: nat, n: Inode)
    requires Books(g, used, v.disk, v.inodes, {}) && k in v.inodes && v.inodes[k].preallocCount > 0
    requires v.inodes[k].preallocBlock < |v.disk|
    requires w == View(v.disk[v.inodes[k].preallocBlock := Zeros(g)], v.inodes[k := n])
    requires n == v.inodes[k].(preallocBlock := v.inodes[k].preallocBlock + 1,
                               preallocCount := v.inodes[k].preallocCount - 1)
    ensures Books(g, used, w.disk, w.inodes, {v.inodes[k].preallocBlock})
    ensures Grew(g, v, w, k, [])
  {
    hide InodeOk, Partition, InTree;
    var b := v.inodes[k].preallocBlock;
    RunHead(b, n.preallocCount);
    HoldsApart(g, used, v.disk, v.inodes, {}, k);
    Rewindowed(g, used, v.disk, v.inodes, {}, k, n, {b});
    InNoTree(g, used, v.disk, v.inodes[k := n], {b}, b);
    BooksFrame(g, used, v.disk, w.disk, v.inodes[k := n], {b});
    forall l, c | l in v.inodes && c in Owned(g, v.disk, v.inodes[l].data)
      ensures c != b
    {
      assert v.inodes[k := n][l].data == v.inodes[l].data;
    }
    TreesKept(g, v, w, k, []);
  }

  /** Blocks of a window are used and are no system blocks. */
  lemma WindowUsed(g: Geo, used: set<nat>, v: View, k: nat)
    requires Books(g, used, v.disk, v.inodes, {}) && k in v.inodes && v.inodes[k].preallocCount > 0
    ensures v.inodes[k].preallocBlock in used && v.inodes[k].preallocBlock !in g.system
    ensures v.inodes[k].preallocBlock in Window(v.inodes[k])
  {
    hide InodeOk, Partition, InTree;
    HoldsApart(g, used, v.disk, v.inodes, {}, k);
  }

  /** Changing only fields the books do not mention. */
  lemma FieldsStep(g: Geo, used: set<nat>, v: View, k: nat, n: Inode, extra: set<nat>)
    requires Books(g, used, v.disk, v.inodes, extra) && k in v.inodes
    requires n.data == v.inodes[k].data && n.blocks == v.inodes[k].blocks
    requires Window(n) == Window(v.inodes[k])
    ensures Books(g, used, v.disk, v.inodes[k := n], extra)
  {
    hide InodeOk, Partition, InTree;
    HoldsApart(g, used, v.disk, v.inodes, extra, k);
    Rewindowed(g, used, v.disk, v.inodes, extra, k, n, extra);
  }

  lemma LeafNotBelowLeaf(g: Geo, s: Slot, t: Slot)
    requires IsLeaf(g, s) && IsLeaf(g, t)
    ensures s <= t ==> s == t
  {
    if s <= t {
      assert s[0] == t[0];
    }
  }

  /** Other files read the same. */
  lemma OthersRead(g: Geo, v: View, w: View, k: nat, l: nat, lb: int)
    requires g.AddrsOk() && OthersKept(g, v, w, k) && l in v.inodes && l != k
    requires Injective(g, v.disk, v.inodes[l].data)
    ensures w.Bmap(g, l, lb) == v.Bmap(g, l, lb) && w.Content(g, l, lb) == v.Content(g, l, lb)
  {
    hide BlockMap.Bmap, Offsets, Logical, Injective;
    assert Untouched(g, v.disk, w.disk, v.inodes[l].data);
    if 0 <= lb < Limit(g.addrs) && |v.inodes[l].data| == N_BLOCKS {
      OffsetsIsLeaf(g, lb);
      BmapIsPtr(g, v.disk, v.inodes[l].data, lb);
      BmapIsPtr(g, w.disk, w.inodes[l].data, lb);
    } else {
      assert lb < 0 || lb >= Limit(g.addrs) ==>
        w.Bmap(g, l, lb) == 0 == v.Bmap(g, l, lb) by { BmapOutside(g, v, l, lb); BmapOutside(g, w, l, lb); }
    }
  }

  lemma BmapOutside(g: Geo, v: View, k: nat, lb: int)
    ensures lb < 0 || lb >= Limit(g.addrs) ==> v.Bmap(g, k, lb) == 0
  {
  }

  /** Growth towards a logical block is seen by ext2_bmap at that block only. */
  lemma GrewBmap(g: Geo, v: View, w: View, k: nat, block: nat)
    requires g.AddrsOk() && block < Limit(g.addrs) && k in v.inodes && k in w.inodes
    requires Grew(g, v, w, k, Offsets(g, block))
    requires |v.inodes[k].data| == N_BLOCKS && |w.inodes[k].data| == N_BLOCKS
    ensures w.Bmap(g, k, block) == w.Ptr(k, Offsets(g, block))
    ensures v.Bmap(g, k, block) == v.Ptr(k, Offsets(g, block))
    ensures v.Bmap(g, k, block) != 0 ==> w.Bmap(g, k, block) == v.Bmap(g, k, block)
    ensures forall lb: nat | lb < Limit(g.addrs) && lb != block :: w.Bmap(g, k, lb) == v.Bmap(g, k, lb)
    ensures forall lb: nat | lb < Limit(g.addrs) :: w.Content(g, k, lb) == v.Content(g, k, lb)
  {
    hide BlockMap.Bmap, Offsets, OthersKept, Slots.Ptr, Logical, Limit;
    var target := Offsets(g, block);
    OffsetsIsLeaf(g, block);
    BmapIsPtr(g, v.disk, v.inodes[k].data, block);
    BmapIsPtr(g, w.disk, w.inodes[k].data, block);
    forall lb: nat | lb < Limit(g.addrs)
      ensures lb != block ==> w.Bmap(g, k, lb) == v.Bmap(g, k, lb)
      ensures w.Content(g, k, lb) == v.Content(g, k, lb)
    {
      OffsetsIsLeaf(g, lb);
      BmapIsPtr(g, v.disk, v.inodes[k].data, lb);
      BmapIsPtr(g, w.disk, w.inodes[k].data, lb);
      assert w.At(g, k, Offsets(g, lb)) == v.At(g, k, Offsets(g, lb));
      LeafNotBelowLeaf(g, Offsets(g, lb), target);
    }
  }

  // ----- progress of a truncate pass

  ghost predicate FinishedBefore(g: Geo, v: View, k: nat, cut: nat, p: Slot, i: nat) {
    forall j: nat | j < i :: Finished(g, v, k, cut, p + [j])
  }

  /** Children that end before the cut are skipped. */
  lemma SkippedFinished(g: Geo, v: View, k: nat, cut: nat, p: Slot, i: nat)
    requires k in v.inodes && IsSlot(g, p) && Levels(p) >= 1 && i <= g.addrs
    requires i == 0 || Start(g.addrs, p, Levels(p)) + i * Span(g.addrs, Levels(p) - 1) <= cut
    ensures FinishedBefore(g, v, k, cut, p, i)
  {
    hide Cleared, Tidy, Start;
    var span := Span(g.addrs, Levels(p) - 1);
    forall j: nat | j < i
      ensures Finished(g, v, k, cut, p + [j])
    {
      ChildStart(g.addrs, p, j, Levels(p) - 1);
      assert span * (i - 1 - j) == i * span - (j * span + span);
      MulAtLeast(span, i - 1 - j);
      NothingToDo(g, v, k, cut, p + [j]);
    }
  }

  lemma NextFinished(g: Geo, v: View, w: View, k: nat, cut: nat, p: Slot, i: nat)
    requires Trimmed(g, v, w, k, cut, p + [i])
    requires FinishedBefore(g, v, k, cut, p, i) && Finished(g, w, k, cut, p + [i])
    ensures FinishedBefore(g, w, k, cut, p, i + 1)
  {
    hide Trimmed, Cleared, Tidy;
    forall j: nat | j < i
      ensures Finished(g, w, k, cut, p + [j])
    {
      assert (p + [j])[|p|] == j && (p + [i])[|p|] == i;
      FinishedElsewhere(g, v, w, k, cut, p + [j], p + [i]);
    }
  }

  lemma AllFinished(g: Geo, v: View, k: nat, cut: nat, p: Slot)
    requires k in v.inodes && IsSlot(g, p) && Levels(p) >= 1
    requires FinishedBefore(g, v, k, cut, p, g.addrs)
    requires v.Ptr(k, p) != 0 ==> HasChild(g, v, k, p)
    ensures Finished(g, v, k, cut, p)
  {
    hide Cleared, Tidy, HasChild;
    ChildrenFinished(g, v, k, cut, p);
  }

  /** A leaf is finished when it is empty or lies before the cut. */
  lemma LeafFinished(g: Geo, v: View, k: nat, cut: nat, p: Slot)
    requires IsLeaf(g, p)
    requires v.Ptr(k, p) == 0 || Logical(g.addrs, p) < cut
    ensures Finished(g, v, k, cut, p)
  {
    forall s | IsSlot(g, s) && p <= s
      ensures s == p
    {
      assert s[0] == p[0];
    }
  }

  /** An indirect block without addresses has nothing below it. */
  lemma NoChildNothingBelow(g: Geo, v: View, k: nat, p: Slot)
    requires k in v.inodes && IsSlot(g, p) && !HasChild(g, v, k, p)
    ensures forall s | IsSlot(g, s) && p < s :: v.Ptr(k, s) == 0
  {
    forall s | IsSlot(g, s) && p < s
      ensures v.Ptr(k, s) == 0
    {
      var c := p + [s[|p|]];
      assert c <= s && v.Ptr(k, c) == 0;
      DeadPrefix(v.disk, v.inodes[k].data, c, s);
    }
  }

  /** The entries of a live indirect block are its child slots. */
  lemma ChildPtr(g: Geo, v: View, k: nat, p: Slot, i: nat)
    requires k in v.inodes && |p| >= 1 && 0 < v.Ptr(k, p) < |v.disk| && i < |v.disk[v.Ptr(k, p)]|
    ensures v.Ptr(k, p + [i]) == v.disk[v.Ptr(k, p)][i]
  {
    assert Parent(p + [i]) == p;
  }

  lemma LiveInode(g: Geo, disk: Disk, n: Inode, p: Slot)
    requires InodeOk(g, disk, n) && IsSlot(g, p) && Ptr(disk, n.data, p) != 0
    ensures Ptr(disk, n.data, p) < |disk| && |n.data| == N_BLOCKS
    ensures Ptr(disk, n.data, p) in Owned(g, disk, n.data)
    ensures n.blocks >= g.Sectors()
  {
    var o := Owned(g, disk, n.data);
    var b := Ptr(disk, n.data, p);
    assert b in o;
    AtLeastOne(g.Sectors(), o, b);
  }

  lemma AtLeastOne(sectors: nat, o: set<nat>, b: nat)
    requires b in o
    ensures sectors * |o| >= sectors
  {
    assert o - {b} + {b} == o;
    OneMore(sectors, o - {b}, b);
  }

  /** A live slot means i_blocks is at least one block. */
  lemma LiveCounts(g: Geo, used: set<nat>, v: View, extra: set<nat>, k: nat, p: Slot)
    requires Books(g, used, v.disk, v.inodes, extra) && k in v.inodes
    requires IsSlot(g, p) && v.Ptr(k, p) != 0
    ensures v.inodes[k].blocks >= g.Sectors()
    ensures v.Ptr(k, p) < |v.disk| && v.Ptr(k, p) !in extra && v.Ptr(k, p) in used && v.Ptr(k, p) !in g.system
    ensures |v.inodes[k].data| == N_BLOCKS
  {
    hide InodeOk, Partition, Owned, Ptr, IsSlot;
    LiveInode(g, v.disk, v.inodes[k], p);
    HoldsApart(g, used, v.disk, v.inodes, extra, k);
  }

  lemma NothingBelowLeaf(g: Geo, q: Slot)
    requires IsLeaf(g, q)
    ensures forall s | IsSlot(g, s) :: !(q < s)
  {
    forall s | IsSlot(g, s)
      ensures !(q < s)
    {
      assert q <= s ==> s[0] == q[0];
    }
  }

  lemma TrimmedKeys(g: Geo, v: View, w: View, k: nat, cut: nat, p: Slot)
    requires Trimmed(g, v, w, k, cut, p)
    ensures k in v.inodes && k in w.inodes && w.inodes[k].size == v.inodes[k].size
    ensures w.inodes[k].truncatable == v.inodes[k].truncatable && w.inodes[k].nlink == v.inodes[k].nlink
  {
  }

  /** The inode's own data slots before position i are finished. */
  ghost predicate DirectBefore(g: Geo, v: View, k: nat, cut: nat, i: nat) {
    forall n: nat | n < NDIR_BLOCKS && n < i :: Finished(g, v, k, cut, [n])
  }

  lemma DirectDone(g: Geo, v: View, k: nat, cut: nat, i: nat, done: bool)
    requires i >= NDIR_BLOCKS && (done ==> DirectBefore(g, v, k, cut, i))
    ensures done ==> DirectBefore(g, v, k, cut, NDIR_BLOCKS)
  {
  }

  lemma DirectSkipped(g: Geo, v: View, k: nat, cut: nat)
    ensures DirectBefore(g, v, k, cut, cut)
  {
    hide Finished;
    forall n: nat | n < NDIR_BLOCKS && n < cut
      ensures Finished(g, v, k, cut, [n])
    {
      LeafFinished(g, v, k, cut, [n]);
    }
  }

  lemma DirectFinished(g: Geo, v: View, w: View, k: nat, cut: nat, i: nat)
    requires i < NDIR_BLOCKS && Trimmed(g, v, w, k, cut, [i]) && Finished(g, w, k, cut, [i])
    requires DirectBefore(g, v, k, cut, i)
    ensures DirectBefore(g, w, k, cut, i + 1)
  {
    hide Trimmed, Cleared, Tidy;
    forall n: nat | n < i
      ensures Finished(g, w, k, cut, [n])
    {
      assert [n][0] == n && [i][0] == i;
      FinishedElsewhere(g, v, w, k, cut, [n], [i]);
    }
  }

  /** Trimming below a child leaves the parent slot. */
  lemma TrimmedAbove(g: Geo, v: View, w: View, k: nat, cut: nat, p: Slot, i: nat)
    requires Trimmed(g, v, w, k, cut, p + [i]) && IsSlot(g, p)
    ensures w.Ptr(k, p) == v.Ptr(k, p)
    ensures k in v.inodes && k in w.inodes && w.inodes[k].size == v.inodes[k].size
  {
    hide OthersKept, DataKept, Slots.Ptr;
    assert !(p + [i] <= p);
    assert k in v.inodes && k in w.inodes by { TrimmedKeys(g, v, w, k, cut, p + [i]); }
  }

  lemma ChildrenOfBlock(g: Geo, v: View, k: nat, p: Slot)
    requires k in v.inodes && |p| >= 1 && 0 < v.Ptr(k, p) < |v.disk| && |v.disk[v.Ptr(k, p)]| == g.addrs
    ensures HasChild(g, v, k, p) <==> exists i :: 0 <= i < g.addrs && v.disk[v.Ptr(k, p)][i] != 0
  {
    forall i: nat | i < g.addrs
      ensures v.Ptr(k, p + [i]) == v.disk[v.Ptr(k, p)][i]
    {
      ChildPtr(g, v, k, p, i);
    }
    if i :| 0 <= i < g.addrs && v.disk[v.Ptr(k, p)][i] != 0 {
      assert v.Ptr(k, p + [i]) != 0;
    }
  }

  /** One round of the loop of trunc_direct. */
  lemma DirectStep(g: Geo, u: View, v: View, w: View, k: nat, cut: nat, i: nat, done: bool)
    requires i < NDIR_BLOCKS && Trimmed(g, u, v, k, cut, []) && Trimmed(g, v, w, k, cut, [i])
    requires done ==> Finished(g, w, k, cut, [i])
    requires done ==> DirectBefore(g, v, k, cut, i)
    ensures Trimmed(g, u, w, k, cut, []) && k in w.inodes
    ensures done ==> DirectBefore(g, w, k, cut, i + 1)
  {
    hide Trimmed, Finished, DirectBefore;
    TrimmedTrans(g, u, v, w, k, cut, [], [i]);
    TrimmedKeys(g, v, w, k, cut, [i]);
    if done {
      DirectFinished(g, v, w, k, cut, i);
    }
  }

  /** One round of the loop over the entries of an indirect block. */
  lemma ChildStep(g: Geo, u: View, v: View, w: View, k: nat, cut: nat, p: Slot, i: nat, done: bool)
    requires IsSlot(g, p) && Trimmed(g, u, v, k, cut, p) && Trimmed(g, v, w, k, cut, p + [i])
    requires done ==> FinishedBefore(g, v, k, cut, p, i) && Finished(g, w, k, cut, p + [i])
    ensures Trimmed(g, u, w, k, cut, p) && k in v.inodes && k in w.inodes
    ensures w.Ptr(k, p) == v.Ptr(k, p) && w.inodes[k].size == v.inodes[k].size
    ensures done ==> FinishedBefore(g, w, k, cut, p, i + 1)
  {
    hide Trimmed, Finished, FinishedBefore;
    TrimmedTrans(g, u, v, w, k, cut, p, p + [i]);
    TrimmedAbove(g, v, w, k, cut, p, i);
    if done {
      NextFinished(g, v, w, k, cut, p, i);
    }
  }

  /** All fifteen trees of the inode are finished. */
  ghost predicate AllTreesFinished(g: Geo, v: View, k: nat, cut: nat) {
    forall n: nat | n < N_BLOCKS :: Finished(g, v, k, cut, [n])
  }

  ghost predicate TreesBefore(g: Geo, v: View, k: nat, cut: nat, i: nat) {
    forall n: nat | n < i :: Finished(g, v, k, cut, [n])
  }

  lemma NextTree(g: Geo, v: View, w: View, k: nat, cut: nat, i: nat)
    requires Trimmed(g, v, w, k, cut, [i]) && TreesBefore(g, v, k, cut, i) && Finished(g, w, k, cut, [i])
    ensures TreesBefore(g, w, k, cut, i + 1)
  {
    hide Trimmed, Finished;
    forall n: nat | n < i
      ensures Finished(g, w, k, cut, [n])
    {
      assert [n][0] == n && [i][0] == i;
      FinishedElsewhere(g, v, w, k, cut, [n], [i]);
    }
  }

  lemma DirectTrees(g: Geo, v: View, k: nat, cut: nat)
    requires DirectBefore(g, v, k, cut, NDIR_BLOCKS)
    ensures TreesBefore(g, v, k, cut, NDIR_BLOCKS)
  {
    hide Finished;
  }

  lemma AllTrees(g: Geo, v: View, k: nat, cut: nat)
    requires TreesBefore(g, v, k, cut, N_BLOCKS)
    ensures AllTreesFinished(g, v, k, cut)
  {
    hide Finished;
  }

  /** One of the trees trimmed after others. */
  lemma TreeStep(g: Geo, u: View, v: View, w: View, k: nat, cut: nat, i: nat, done: bool)
    requires Trimmed(g, u, v, k, cut, []) && Trimmed(g, v, w, k, cut, [i])
    requires done ==> TreesBefore(g, v, k, cut, i) && Finished(g, w, k, cut, [i])
    ensures Trimmed(g, u, w, k, cut, []) && k in w.inodes && w.inodes[k].size == u.inodes[k].size
    ensures done ==> TreesBefore(g, w, k, cut, i + 1)
  {
    hide Trimmed, Finished, TreesBefore;
    TrimmedTrans(g, u, v, w, k, cut, [], [i]);
    TrimmedKeys(g, u, w, k, cut, []);
    if done {
      NextTree(g, v, w, k, cut, i);
    }
  }

  /** What a trimmed and finished inode looks like to ext2_bmap. */
  lemma TrimmedBmap(g: Geo, v: View, w: View, k: nat, cut: nat, lb: nat)
    requires g.AddrsOk() && k in v.inodes && k in w.inodes && lb < Limit(g.addrs)
    requires Trimmed(g, v, w, k, cut, [])
    requires |v.inodes[k].data| == N_BLOCKS && |w.inodes[k].data| == N_BLOCKS
    requires forall s | IsSlot(g, s) :: v.Ptr(k, s) < |v.disk|
    ensures lb < cut ==> w.Bmap(g, k, lb) == v.Bmap(g, k, lb) && w.Content(g, k, lb) == v.Content(g, k, lb)
    ensures w.Bmap(g, k, lb) == v.Bmap(g, k, lb) || w.Bmap(g, k, lb) == 0
    ensures lb >= cut && AllTreesFinished(g, w, k, cut) ==> w.Bmap(g, k, lb) == 0
  {
    hide BlockMap.Bmap, Offsets, OthersKept, Slots.Ptr, Logical, Limit, Tidy;
    var s := Offsets(g, lb);
    OffsetsIsLeaf(g, lb);
    BmapIsPtr(g, v.disk, v.inodes[k].data, lb);
    BmapIsPtr(g, w.disk, w.inodes[k].data, lb);
    if lb >= cut && AllTreesFinished(g, w, k, cut) {
      assert Finished(g, w, k, cut, [s[0]]) && [s[0]] <= s;
    }
  }

  /** The used blocks that went are the ones inode k no longer holds. */
  lemma UsedDelta(g: Geo, used: set<nat>, used': set<nat>, v: View, w: View, k: nat)
    requires Books(g, used, v.disk, v.inodes, {}) && Books(g, used', w.disk, w.inodes, {})
    requires OthersKept(g, v, w, k)
    ensures used' == used - Holds(g, v.disk, v.inodes[k]) + Holds(g, w.disk, w.inodes[k])
  {
    hide InodeOk, InTree;
    var a, b := SharesOf(g, v.disk, v.inodes), SharesOf(g, w.disk, w.inodes);
    forall l | l in v.inodes && l != k
      ensures a[l] == b[l]
    {
      assert Untouched(g, v.disk, w.disk, v.inodes[l].data);
    }
    SharesDelta(used, used', g.system, a, b, k);
  }

  lemma SharesDelta(used: set<nat>, used': set<nat>, system: set<nat>, a: Shares, b: Shares, k: nat)
    requires Partition(used, system, {}, a) && Partition(used', system, {}, b)
    requires a.Keys == b.Keys && k in a && forall l | l in a && l != k :: a[l] == b[l]
    ensures used' == used - a[k] + b[k]
  {
    forall x | x in used'
      ensures x in used - a[k] + b[k]
    {
      if InSomeShare(b, x) && x !in b[k] {
        var l :| l in b && x in b[l];
        assert x in a[l] && a[l] <= used;
      }
    }
    forall x | x in used - a[k] + b[k]
      ensures x in used'
    {
      if InSomeShare(a, x) && x !in a[k] && x !in b[k] {
        var l :| l in a && x in a[l];
        assert x in b[l] && b[l] <= used';
      }
    }
  }

  // ----- file data and whole inodes

  /** Every other file is the same object, maps the same blocks and reads the same. */
  ghost predicate OtherFilesSame(g: Geo, v: View, w: View, k: nat) {
    forall l | l in v.inodes && l != k ::
      && l in w.inodes && w.inodes[l] == v.inodes[l]
      && forall lb: int :: w.Bmap(g, l, lb) == v.Bmap(g, l, lb) && w.Content(g, l, lb) == v.Content(g, l, lb)
  }

  lemma OthersReadSame(g: Geo, used: set<nat>, v: View, w: View, extra: set<nat>, k: nat)
    requires g.AddrsOk() && Books(g, used, v.disk, v.inodes, extra) && OthersKept(g, v, w, k)
    ensures OtherFilesSame(g, v, w, k)
  {
    hide Books, OthersSame, InodeOk, BlockMap.Bmap, View.Bmap, View.Content;
    forall l, lb: int | l in v.inodes && l != k
      ensures w.Bmap(g, l, lb) == v.Bmap(g, l, lb) && w.Content(g, l, lb) == v.Content(g, l, lb)
    {
      OneReadsSame(g, used, v, w, extra, k, l, lb);
    }
  }

  lemma OneReadsSame(g: Geo, used: set<nat>, v: View, w: View, extra: set<nat>, k: nat, l: nat, lb: int)
    requires g.AddrsOk() && Books(g, used, v.disk, v.inodes, extra) && OthersKept(g, v, w, k) && l in v.inodes && l != k
    ensures w.Bmap(g, l, lb) == v.Bmap(g, l, lb) && w.Content(g, l, lb) == v.Content(g, l, lb)
  {
    hide Partition, Injective, OthersKept, View.Bmap, View.Content;
    OthersRead(g, v, w, k, l, lb);
  }

  /** Overwriting the block of one logical block changes what that one reads, and nothing
      else: neither other parts of the file, nor any address, nor other files. */
  lemma WriteStep(g: Geo, used: set<nat>, v: View, w: View, k: nat, block: nat, content: seq<nat>)
    requires g.AddrsOk() && Books(g, used, v.disk, v.inodes, {}) && k in v.inodes
    requires block < Limit(g.addrs) && v.Bmap(g, k, block) != 0 && v.Bmap(g, k, block) < |v.disk|
    requires w == View(v.disk[v.Bmap(g, k, block) := content], v.inodes)
    ensures Books(g, used, w.disk, w.inodes, {}) && OthersKept(g, v, w, k)
    ensures w.Content(g, k, block) == content
    ensures forall lb: nat | lb < Limit(g.addrs) :: w.Bmap(g, k, lb) == v.Bmap(g, k, lb)
    ensures forall lb: nat | lb < Limit(g.addrs) && lb != block :: w.Content(g, k, lb) == v.Content(g, k, lb)
  {
    hide Books, OthersKept, OthersSame, SameTree, BlockMap.Bmap, Offsets, Slots.Ptr, Limit, Logical, View.Bmap;
    InodeShape(g, used, v, k);
    var leaf := Offsets(g, block);
    OffsetsIsLeaf(g, block);
    BmapOf(g, v, k, block);
    DataWritten(g, used, v.disk, w.disk, v.inodes, {}, k, leaf);
    OthersStay(g, v, w, k);
    forall lb: nat | lb < Limit(g.addrs)
      ensures w.Bmap(g, k, lb) == v.Bmap(g, k, lb)
      ensures lb != block && v.Bmap(g, k, lb) != 0 ==> v.Bmap(g, k, lb) != v.Bmap(g, k, block)
    {
      WriteElse(g, used, v, w, k, block, lb);
    }
  }

  lemma OthersStay(g: Geo, v: View, w: View, k: nat)
    requires k in v.inodes && w.inodes == v.inodes && OthersSame(g, v.disk, w.disk, v.inodes, k)
    ensures OthersKept(g, v, w, k)
  {
    hide OthersSame;
  }

  lemma BmapOf(g: Geo, v: View, k: nat, lb: nat)
    requires g.AddrsOk() && k in v.inodes && |v.inodes[k].data| == N_BLOCKS && lb < Limit(g.addrs)
    ensures v.Bmap(g, k, lb) == v.Ptr(k, Offsets(g, lb))
    ensures v.Ptr(k, Offsets(g, lb)) == Ptr(v.disk, v.inodes[k].data, Offsets(g, lb))
  {
    hide BlockMap.Bmap, Offsets, Slots.Ptr, Limit;
    BmapIsPtr(g, v.disk, v.inodes[k].data, lb);
  }

  lemma WriteElse(g: Geo, used: set<nat>, v: View, w: View, k: nat, block: nat, lb: nat)
    requires g.AddrsOk() && Books(g, used, v.disk, v.inodes, {}) && k in v.inodes
    requires block < Limit(g.addrs) && lb < Limit(g.addrs)
    requires w.inodes == v.inodes && SameTree(g, v.disk, w.disk, v.inodes[k].data)
    ensures w.Bmap(g, k, lb) == v.Bmap(g, k, lb)
    ensures lb != block && v.Bmap(g, k, lb) != 0 ==> v.Bmap(g, k, lb) != v.Bmap(g, k, block)
  {
    hide Partition, Injective, Owned, View.Bmap, Offsets, Slots.Ptr, Limit, Logical, IsSlot;
    InodeShape(g, used, v, k);
    BmapOf(g, v, k, lb);
    BmapOf(g, v, k, block);
    BmapOf(g, w, k, lb);
    OffsetsIsLeaf(g, lb);
    OffsetsIsLeaf(g, block);
    if v.Bmap(g, k, lb) != 0 {
      DistinctSlots(g, v.disk, v.inodes[k], Offsets(g, lb), Offsets(g, block));
    }
  }

  lemma DistinctSlots(g: Geo, disk: Disk, n: Inode, s: Slot, t: Slot)
    requires InodeOk(g, disk, n) && IsSlot(g, s) && IsSlot(g, t) && Ptr(disk, n.data, s) != 0
    ensures Ptr(disk, n.data, s) == Ptr(disk, n.data, t) ==> s == t
  {
  }

  lemma InodeShape(g: Geo, used: set<nat>, v: View, k: nat)
    requires Books(g, used, v.disk, v.inodes, {}) && k in v.inodes
    ensures |v.inodes[k].data| == N_BLOCKS
    ensures forall s | IsSlot(g, s) :: v.Ptr(k, s) < |v.disk|
  {
  }

  /** Dropping an inode leaves its blocks held by nobody else. */
  lemma Dropped(g: Geo, used: set<nat>, disk: Disk, inodes: Inodes, k: nat)
    requires Books(g, used, disk, inodes, {}) && k in inodes
    ensures Books(g, used, disk, inodes - {k}, Holds(g, disk, inodes[k]))
  {
    hide InodeOk, InTree, Holds, Partition;
    var shares := SharesOf(g, disk, inodes);
    var h := Holds(g, disk, inodes[k]);
    assert shares[k] == h;
    assert {} + h == h + {};
    PartitionExchanged(used, g.system, {}, shares, k, {}, h);
    PartitionDropsEmpty(used, g.system, h, shares[k := {}], k);
    assert shares[k := {}] - {k} == SharesOf(g, disk, inodes - {k});
  }

  /** After a finished pass with cut 0 the tree is empty. */
  lemma FinishedHoldsNothing(g: Geo, v: View, k: nat)
    requires k in v.inodes && AllTreesFinished(g, v, k, 0)
    ensures Owned(g, v.disk, v.inodes[k].data) == {}
  {
    hide Finished;
    forall s | IsSlot(g, s)
      ensures v.Ptr(k, s) == 0
    {
      FinishedAtZero(g, v, k, s);
    }
  }

  lemma NoSectorsNoBlocks(g: Geo, disk: Disk, n: Inode)
    requires InodeOk(g, disk, n) && g.blockSize >= 512 && n.blocks == 0
    ensures Owned(g, disk, n.data) == {}
  {
    hide Injective, InTree;
    var o := Owned(g, disk, n.data);
    if b :| b in o {
      AtLeastOne(g.Sectors(), o, b);
    }
  }

  lemma DropReads(g: Geo, v: View, w: View, x: View, k: nat)
    requires OtherFilesSame(g, v, w, k)
    requires x.disk == w.disk && x.inodes == w.inodes - {k}
    ensures OtherFilesSame(g, v, x, k)
  {
    hide BlockMap.Bmap;
    forall l | l in v.inodes && l != k
      ensures l in x.inodes && x.inodes[l] == v.inodes[l]
      ensures forall lb: int :: x.Bmap(g, l, lb) == v.Bmap(g, l, lb) && x.Content(g, l, lb) == v.Content(g, l, lb)
    {
      assert x.inodes[l] == w.inodes[l];
      forall lb: int
        ensures x.Bmap(g, l, lb) == w.Bmap(g, l, lb) && x.Content(g, l, lb) == w.Content(g, l, lb)
      {
      }
    }
  }

  lemma OtherFilesTrans(g: Geo, u: View, v: View, w: View, k: nat)
    requires OtherFilesSame(g, u, v, k) && OtherFilesSame(g, v, w, k)
    ensures OtherFilesSame(g, u, w, k)
  {
    hide View.Bmap, View.Content;
  }

  // ----- all-zero indirect blocks after a finished pass

  /** The indirect blocks without any address that are left. */
  ghost predicate EmptyBlock(g: Geo, v: View, k: nat, s: Slot) {
    IsSlot(g, s) && !IsLeaf(g, s) && v.Ptr(k, s) != 0 && !HasChild(g, v, k, s)
  }

  lemma ChildKept(g: Geo, v: View, w: View, k: nat, cut: nat, s: Slot, i: nat)
    requires Trimmed(g, v, w, k, cut, []) && PassedOver(g, s, cut) && i < g.addrs
    ensures w.Ptr(k, s + [i]) == v.Ptr(k, s + [i])
  {
    hide OthersKept, DataKept, Slots.Ptr;
    ChildRange(g, s, i);
    assert IsSlot(g, s + [i]);
    if IsLeaf(g, s + [i]) {
      assert End(g, s + [i]) == Logical(g.addrs, s + [i]) + 1;
    } else {
      assert PassedOver(g, s + [i], cut);
    }
  }

  /** A finished pass leaves exactly those all-zero indirect blocks that were all-zero before and
      that it passes over. */
  lemma EmptyBlocksLeft(g: Geo, v: View, w: View, k: nat, cut: nat, s: Slot)
    requires Trimmed(g, v, w, k, cut, []) && AllTreesFinished(g, w, k, cut)
    ensures EmptyBlock(g, w, k, s) <==> EmptyBlock(g, v, k, s) && PassedOver(g, s, cut)
  {
    hide OthersKept, DataKept, Slots.Ptr, Cleared, End, Logical;
    if EmptyBlock(g, w, k, s) {
      assert Finished(g, w, k, cut, [s[0]]) && [s[0]] <= s;
      assert PassedOver(g, s, cut);
    }
    if PassedOver(g, s, cut) {
      forall i: nat | i < g.addrs
        ensures w.Ptr(k, s + [i]) == v.Ptr(k, s + [i])
      {
        ChildKept(g, v, w, k, cut, s, i);
      }
    }
  }
}
