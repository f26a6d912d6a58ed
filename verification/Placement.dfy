/** Where ext2_new_block puts a block, as a relation on the bitmaps before the call. */
module Placement {
  import opened Bitops
  import opened Geometry
  import opened BlockSearch

  function Next(i: nat, n: nat): nat {
    if i + 1 >= n then 0 else i + 1
  }

  /** The d-th group after i, wrapping around. */
  function Advance(i: nat, d: nat, n: nat): nat {
    if d == 0 then i else Next(Advance(i, d - 1, n), n)
  }

  lemma {:induction false} AdvanceIs(i: nat, d: nat, n: nat)
    requires i < n && d <= n
    ensures Advance(i, d, n) == if i + d < n then i + d else i + d - n
  {
    if d > 0 {
      AdvanceIs(i, d - 1, n);
    }
  }

  ghost predicate HasFree(bits: Bits) {
    exists t :: 0 <= t < |bits| && !bits[t]
  }

  /** Group r is the first one after group i, cyclically and i itself last, with a free bit. */
  ghost predicate FirstFreeAfter(bm: Bitmaps, i: nat, r: nat)
  {
    exists d: nat :: 1 <= d <= |bm| && r == Advance(i, d, |bm|) && r < |bm| && HasFree(bm[r]) &&
      forall e: nat | 1 <= e < d :: Advance(i, e, |bm|) < |bm| ==> !HasFree(bm[Advance(i, e, |bm|)])
  }

  /** The goal the search starts from: the given one if it is a block of the volume. */
  ghost function Goal(g: Geo, goal: nat): (r: nat)
    requires g.Valid()
    ensures g.first <= r < g.blocks
    ensures g.first <= goal < g.blocks ==> r == goal
  {
    FirstInVolume(g);
    if g.first <= goal < g.blocks then goal else g.first
  }

  lemma FirstInVolume(g: Geo)
    requires g.Valid()
    ensures g.first < g.blocks
  {
    MulAtLeast(g.perGroup, g.groups - 1);
  }

  /** Bit j of group i is the choice for goal bit gj of group gi: a choice in that group when
      it has a free bit from the goal on, else the far choice in the first group after it
      that has room. */
  ghost predicate Placed(bm: Bitmaps, gi: nat, gj: nat, i: nat, j: nat)
  {
    && gi < |bm| && gj < |bm[gi]| && i < |bm| && j < |bm[i]| && !bm[i][j]
    && if AllSet(bm[gi], gj, |bm[gi]|) then FirstFreeAfter(bm, gi, i) && FarChoice(bm[i], 0, j)
    else i == gi && NearChoice(bm[gi], gj, j)
  }

  /** Walking the groups on from i without meeting a free bit. */
  ghost predicate NoneUpTo(bm: Bitmaps, i: nat, d: nat) {
    forall e: nat | 1 <= e <= d :: Advance(i, e, |bm|) < |bm| ==> !HasFree(bm[Advance(i, e, |bm|)])
  }

  lemma StopsAt(bm: Bitmaps, i: nat, d: nat)
    requires i < |bm| && d < |bm| && NoneUpTo(bm, i, d)
    requires HasFree(bm[Next(Advance(i, d, |bm|), |bm|)])
    ensures FirstFreeAfter(bm, i, Next(Advance(i, d, |bm|), |bm|))
  {
    assert Advance(i, d + 1, |bm|) == Next(Advance(i, d, |bm|), |bm|);
  }

  /** The walk visits every group. */
  lemma VisitsAll(bm: Bitmaps, i: nat, some: nat)
    requires i < |bm| && some < |bm| && NoneUpTo(bm, i, |bm|)
    ensures !HasFree(bm[some])
  {
    var d := if some > i then some - i else some + |bm| - i;
    AdvanceIs(i, d, |bm|);
  }
}
