/** Which group a new inode goes to: the search of ext2_new_inode over the group descriptors. */
module GroupChoice {
  import opened Geometry

  /** What the choice looks at in one group descriptor. */
  datatype Group = Group(freeInodes: nat, freeBlocks: nat)

  function TotalFree(groups: seq<Group>): nat {
    if groups == [] then 0 else groups[0].freeInodes + TotalFree(groups[1..])
  }

  ghost predicate AnyFree(groups: seq<Group>) {
    exists g :: 0 <= g < |groups| && groups[g].freeInodes > 0
  }

  // ----- directories

  predicate Qualifies(g: Group, average: nat) {
    g.freeInodes > 0 && g.freeInodes >= average
  }

  /** If every group with a free inode is below b, the total is at most n times b - 1. */
  lemma {:induction false} BelowAverage(groups: seq<Group>, b: nat)
    requires b > 0 && forall g | 0 <= g < |groups| :: groups[g].freeInodes < b
    ensures TotalFree(groups) <= |groups| * (b - 1)
  {
    if groups != [] {
      BelowAverage(groups[1..], b);
      assert |groups| * (b - 1) == (|groups| - 1) * (b - 1) + (b - 1);
    }
  }

  lemma {:induction false} NoneFree(groups: seq<Group>)
    ensures TotalFree(groups) > 0 <==> AnyFree(groups)
  {
    if groups != [] {
      NoneFree(groups[1..]);
      if AnyFree(groups[1..]) {
        var g :| 0 <= g < |groups[1..]| && groups[1..][g].freeInodes > 0;
        assert groups[g + 1].freeInodes > 0;
      }
      if AnyFree(groups) {
        var g :| 0 <= g < |groups| && groups[g].freeInodes > 0;
        assert g > 0 ==> groups[1..][g - 1].freeInodes > 0;
      }
    }
  }

  lemma AverageTimes(total: nat, n: Pos)
    ensures n * (total / n) <= total && total / n >= 0
  {
  }

  /** Some group reaches the rounded-down average whenever any inode is free. */
  lemma SomeQualifies(groups: seq<Group>)
    requires AnyFree(groups)
    ensures exists g :: 0 <= g < |groups| && Qualifies(groups[g], TotalFree(groups) / |groups|)
  {
    var n, total := |groups|, TotalFree(groups);
    AverageTimes(total, n);
    var average := total / n;
    if average == 0 {
      var g :| 0 <= g < |groups| && groups[g].freeInodes > 0;
      assert Qualifies(groups[g], average);
    } else {
      var g := NotAllBelow(groups, average);
      assert Qualifies(groups[g], average);
    }
  }

  lemma NotAllBelow(groups: seq<Group>, b: nat) returns (g: nat)
    requires b > 0 && groups != [] && |groups| * b <= TotalFree(groups)
    ensures g < |groups| && groups[g].freeInodes >= b
  {
    OneLessTimes(|groups|, b);
    if h :| 0 <= h < |groups| && groups[h].freeInodes >= b {
      g := h;
    } else {
      BelowAverage(groups, b);
      assert false;
    }
  }

  lemma OneLessTimes(n: Pos, b: nat)
    ensures n * (b - 1) < n * b
  {
    assert n * (b - 1) == n * b - n;
  }

  /** A directory goes to the group with the most free blocks among those with at least the
      average of free inodes; one is found exactly when any inode is free. */
  method GroupForDirectory(groups: seq<Group>, freeInodes: nat) returns (found: bool, i: nat)
    requires groups != [] && freeInodes == TotalFree(groups)
    ensures found <==> AnyFree(groups)
    ensures found ==> i < |groups| && Qualifies(groups[i], freeInodes / |groups|)
    ensures found ==> forall g | 0 <= g < |groups| && Qualifies(groups[g], freeInodes / |groups|) ::
                        groups[g].freeBlocks <= groups[i].freeBlocks
                        && (g < i ==> groups[g].freeBlocks < groups[i].freeBlocks)
  {
    var average := freeInodes / |groups|;
    found, i := false, 0;
    for j := 0 to |groups|
      invariant found ==> i < j && Qualifies(groups[i], average)
      invariant forall g | 0 <= g < j && Qualifies(groups[g], average) ::
                  found && groups[g].freeBlocks <= groups[i].freeBlocks
                  && (g < i ==> groups[g].freeBlocks < groups[i].freeBlocks)
    {
      if groups[j].freeInodes > 0 && groups[j].freeInodes >= average {
        if !found || groups[j].freeBlocks > groups[i].freeBlocks {
          found, i := true, j;
        }
      }
    }
    if AnyFree(groups) {
      SomeQualifies(groups);
    }
  }

  // ----- files

  /** The groups probed from i with steps j, 2j, 4j, ... below n, in order. */
  ghost function Doubling(i: nat, j: nat, n: nat): seq<nat>
    requires i < n && j > 0
    decreases n - j
  {
    if j >= n then []
    else
      var k := if i + j >= n then i + j - n else i + j;
      [k] + Doubling(k, 2 * j, n)
  }

  /** The groups probed one after another, steps of them, going around after the last. */
  ghost function Linear(i: nat, steps: nat, n: nat): seq<nat>
    requires n > 0
    decreases steps
  {
    if steps == 0 then []
    else
      var k := if i + 1 >= n then 0 else i + 1;
      [k] + Linear(k, steps - 1, n)
  }

  /** The groups a search for a file's inode looks at, in order: the parent's, those at doubling steps
      from it, and then one after another from the second after it. */
  ghost function Probed(parent: nat, n: nat): seq<nat>
    requires parent < n
  {
    [parent] + Doubling(parent, 1, n) + Linear(parent + 1, if n < 2 then 0 else n - 2, n)
  }

  /** i is the first of the groups probed that has a free inode. */
  ghost predicate FirstOf(groups: seq<Group>, probes: seq<nat>, i: nat) {
    exists k :: 0 <= k < |probes| && FirstAt(groups, probes, i, k)
  }

  ghost predicate FirstAt(groups: seq<Group>, probes: seq<nat>, i: nat, k: nat)
    requires k < |probes|
  {
    && probes[k] == i && i < |groups| && groups[i].freeInodes > 0
    && forall m | 0 <= m < k :: probes[m] < |groups| && groups[probes[m]].freeInodes == 0
  }

  lemma FirstBehind(groups: seq<Group>, before: seq<nat>, probes: seq<nat>, after: seq<nat>, i: nat)
    requires NoneIn(groups, before) && FirstOf(groups, probes, i)
    ensures FirstOf(groups, before + probes + after, i)
  {
    var k :| 0 <= k < |probes| && FirstAt(groups, probes, i, k);
    forall m | 0 <= m < |before| + k
      ensures (before + probes + after)[m] < |groups| && groups[(before + probes + after)[m]].freeInodes == 0
    {
      if m < |before| {
        assert before[m] in before;
      }
    }
    assert FirstAt(groups, before + probes + after, i, |before| + k);
  }

  /** The search for a file finds a free inode exactly when one of the probed groups has one, and then
      takes the first of them. */
  method GroupForFile(groups: seq<Group>, parent: nat) returns (found: bool, i: nat)
    requires parent < |groups|
    ensures found ==> FirstOf(groups, Probed(parent, |groups|), i)
    ensures found <==> exists g :: 0 <= g < |groups| && g in Probed(parent, |groups|) && groups[g].freeInodes > 0
    ensures groups[parent].freeInodes > 0 ==> i == parent
  {
    hide Doubling, Linear, FirstOf, NoneIn;
    var n := |groups|;
    ghost var doubling, linear := Doubling(parent, 1, n), Linear(parent + 1, if n < 2 then 0 else n - 2, n);
    OneProbe(groups, parent);
    if groups[parent].freeInodes > 0 {
      assert [] + [parent] + (doubling + linear) == Probed(parent, n);
      NoneOf(groups);
      FirstBehind(groups, [], [parent], doubling + linear, parent);
      return true, parent;
    }
    found, i := ProbeDoubling(groups, parent);
    if found {
      FirstBehind(groups, [parent], doubling, linear, i);
    } else {
      BothNone(groups, [parent], doubling);
      found, i := ProbeLinear(groups, parent + 1);
      if found {
        FirstBehind(groups, [parent] + doubling, linear, [], i);
        assert [parent] + doubling + linear + [] == Probed(parent, n);
      } else {
        BothNone(groups, [parent] + doubling, linear);
      }
    }
    FirstIsIn(groups, Probed(parent, n), i);
  }

  ghost predicate NoneIn(groups: seq<Group>, some: seq<nat>) {
    forall g | g in some :: 0 <= g < |groups| && groups[g].freeInodes == 0
  }

  lemma NoneOf(groups: seq<Group>)
    ensures NoneIn(groups, [])
  {
  }

  lemma BothNone(groups: seq<Group>, a: seq<nat>, b: seq<nat>)
    requires NoneIn(groups, a) && NoneIn(groups, b)
    ensures NoneIn(groups, a + b)
  {
  }

  lemma OneProbe(groups: seq<Group>, i: nat)
    requires i < |groups|
    ensures if groups[i].freeInodes > 0 then FirstOf(groups, [i], i) else NoneIn(groups, [i])
  {
    if groups[i].freeInodes > 0 {
      assert FirstAt(groups, [i], i, 0);
    }
  }

  lemma FirstIsIn(groups: seq<Group>, probes: seq<nat>, i: nat)
    ensures FirstOf(groups, probes, i) ==> i in probes && i < |groups| && groups[i].freeInodes > 0
    ensures NoneIn(groups, probes) ==> forall g | 0 <= g < |groups| && g in probes :: groups[g].freeInodes == 0
  {
    if FirstOf(groups, probes, i) {
      var k :| 0 <= k < |probes| && FirstAt(groups, probes, i, k);
    }
  }

  lemma NextProbe(groups: seq<Group>, seen: seq<nat>, i: nat, rest: seq<nat>)
    requires NoneIn(groups, seen) && i < |groups| && groups[i].freeInodes == 0
    ensures NoneIn(groups, seen + [i]) && seen + ([i] + rest) == seen + [i] + rest
  {
  }

  lemma DoublingStep(i: nat, j: nat, n: nat)
    requires i < n && j > 0
    ensures Doubling(i, j, n) == if j >= n then [] else
              var k := if i + j >= n then i + j - n else i + j; [k] + Doubling(k, 2 * j, n)
  {
  }

  lemma LinearStep(i: nat, steps: nat, n: nat)
    requires n > 0
    ensures Linear(i, steps, n) == if steps == 0 then [] else
              var k := if i + 1 >= n then 0 else i + 1; [k] + Linear(k, steps - 1, n)
  {
  }

  /** The next probe finds a free inode. */
  lemma FoundNext(groups: seq<Group>, seen: seq<nat>, i: nat, rest: seq<nat>)
    requires NoneIn(groups, seen) && i < |groups| && groups[i].freeInodes > 0
    ensures FirstOf(groups, seen + ([i] + rest), i)
  {
    OneProbe(groups, i);
    FirstBehind(groups, seen, [i], rest, i);
    assert seen + [i] + rest == seen + ([i] + rest);
  }

  method ProbeDoubling(groups: seq<Group>, parent: nat) returns (found: bool, i: nat)
    requires parent < |groups|
    ensures if found then FirstOf(groups, Doubling(parent, 1, |groups|), i)
            else NoneIn(groups, Doubling(parent, 1, |groups|))
  {
    hide Doubling, FirstOf, NoneIn;
    var n := |groups|;
    var j := 1;
    i := parent;
    ghost var seen: seq<nat> := [];
    NoneOf(groups);
    while j < n
      invariant j > 0 && i < n && NoneIn(groups, seen)
      invariant Doubling(parent, 1, n) == seen + Doubling(i, j, n)
      decreases n - j
    {
      DoublingStep(i, j, n);
      i := i + j;
      if i >= n {
        i := i - n;
      }
      if groups[i].freeInodes > 0 {
        FoundNext(groups, seen, i, Doubling(i, 2 * j, n));
        return true, i;
      }
      NextProbe(groups, seen, i, Doubling(i, 2 * j, n));
      seen := seen + [i];
      j := 2 * j;
    }
    DoublingStep(i, j, n);
    assert seen + [] == seen;
    found := false;
  }

  method ProbeLinear(groups: seq<Group>, start: nat) returns (found: bool, i: nat)
    requires groups != []
    ensures var probes := Linear(start, if |groups| < 2 then 0 else |groups| - 2, |groups|);
            if found then FirstOf(groups, probes, i) else NoneIn(groups, probes)
  {
    hide Linear, FirstOf, NoneIn;
    var n := |groups|;
    i := start;
    var j := 2;
    ghost var seen: seq<nat> := [];
    NoneOf(groups);
    while j < n
      invariant j >= 2 && (n >= 2 ==> j <= n) && NoneIn(groups, seen)
      invariant Linear(start, if n < 2 then 0 else n - 2, n) == seen + Linear(i, if n < j then 0 else n - j, n)
    {
      LinearStep(i, n - j, n);
      i := i + 1;
      if i >= n {
        i := 0;
      }
      if groups[i].freeInodes > 0 {
        FoundNext(groups, seen, i, Linear(i, n - j - 1, n));
        return true, i;
      }
      NextProbe(groups, seen, i, Linear(i, n - j - 1, n));
      seen := seen + [i];
      j := j + 1;
    }
    LinearStep(i, 0, n);
    assert seen + [] == seen;
    found := false;
  }

  // ----- when the probes reach every group

  ghost predicate IsPow2(n: nat) {
    exists k: nat :: Pow2(k) == n
  }

  ghost predicate Pow2After(k: nat, n: nat) {
    exists m: nat :: m > k && Pow2(m) == n
  }

  lemma Pow2AfterNext(k: nat, n: nat)
    ensures Pow2After(k, n) <==> Pow2(k + 1) == n || Pow2After(k + 1, n)
  {
    if Pow2After(k, n) {
      var m: nat :| m > k && Pow2(m) == n;
      assert m == k + 1 || m > k + 1;
    }
    if Pow2After(k + 1, n) {
      var m: nat :| m > k + 1 && Pow2(m) == n;
      assert m > k;
    }
  }

  lemma NoPow2After(k: nat, n: nat)
    ensures n < Pow2(k + 1) ==> !Pow2After(k, n)
  {
    forall m: nat | m > k
      ensures Pow2(m) >= Pow2(k + 1)
    {
      Pow2Grows(k + 1, m);
    }
  }

  lemma Pow2Among(k: nat, n: nat)
    requires n > Pow2(k)
    ensures IsPow2(n) <==> Pow2After(k, n)
  {
    if IsPow2(n) {
      var m: nat :| Pow2(m) == n;
      if m <= k {
        Pow2Grows(m, k);
      }
    }
    if Pow2After(k, n) {
      var m: nat :| m > k && Pow2(m) == n;
    }
  }

  /** From i on, s steps reach the s groups after i, going around. */
  lemma {:induction false} LinearReaches(i: nat, s: nat, n: nat, g: nat)
    requires i < n && g < n && s < n
    ensures g in Linear(i, s, n) <==> 0 < (if g > i then g - i else g + n - i) <= s
    decreases s
  {
    if s > 0 {
      var k := if i + 1 >= n then 0 else i + 1;
      LinearReaches(k, s - 1, n, g);
    }
  }

  /** Starting past the last group is starting at it. */
  lemma LinearFromEnd(s: nat, n: nat)
    requires n > 0
    ensures Linear(n, s, n) == Linear(n - 1, s, n)
  {
  }

  /** From the last group, the probe with step j stands at j - 2, so only the step that is half
      of n reaches n - 2. */
  lemma {:induction false} DoublingReaches(i: nat, j: nat, k: nat, n: nat)
    requires 2 <= j == Pow2(k) && i == j - 2 < n
    ensures n - 2 in Doubling(i, j, n) <==> Pow2After(k, n)
    decreases n - j
  {
    assert Pow2(k + 1) == 2 * j;
    Pow2AfterNext(k, n);
    NoPow2After(k, n);
    NoPow2After(k + 1, n);
    if j < n && 2 * j < n {
      DoublingReaches(2 * j - 2, 2 * j, k + 1, n);
    }
  }

  /** Of the doubling steps from the last group, the second starts at group 0. */
  lemma DoublingFromLast(last: nat, one: nat, n: nat)
    requires n > 2 && last == n - 1 && one == 1
    ensures n - 2 in Doubling(last, one, n) <==> IsPow2(n)
  {
    var i, j, k := last + one - n, 2 * one, one;
    assert Pow2(0) == 1 && Pow2(k) == j;
    DoublingReaches(i, j, k, n);
    assert Doubling(last, one, n) == [i] + Doubling(i, j, n);
    Pow2Among(k, n);
  }

  /** The search for a file's inode looks at every group exactly when the parent is not in the
      last group or the number of groups is a power of two. */
  lemma ProbesAll(parent: nat, n: nat)
    requires parent < n
    ensures (forall g: nat | g < n :: g in Probed(parent, n)) <==> parent < n - 1 || IsPow2(n)
  {
    if n == 1 {
      assert Pow2(0) == 1;
    } else if parent < n - 1 {
      forall g: nat | g < n
        ensures g in Probed(parent, n)
      {
        LinearReaches(parent + 1, n - 2, n, g);
        assert Doubling(parent, 1, n) == [parent + 1] + Doubling(parent + 1, 2, n);
      }
    } else {
      LinearFromEnd(n - 2, n);
      forall g: nat | g < n
        ensures g in Probed(parent, n) <==> g != n - 2 || g in Doubling(n - 1, 1, n)
      {
        LinearReaches(n - 1, n - 2, n, g);
      }
      if n > 2 {
        DoublingFromLast(n - 1, 1, n);
      } else {
        assert Pow2(1) == n && Doubling(1, 1, 2) == [0];
      }
      assert n - 2 < n && (n - 2 in Probed(parent, n) <==> IsPow2(n));
    }
  }

  ghost predicate AllUsed(groups: seq<Group>, probes: seq<nat>) {
    forall g | 0 <= g < |groups| && g in probes :: groups[g].freeInodes == 0
  }

  /** So with other numbers of groups there is a table in which the search from the last group
      misses the only free inode. */
  lemma MissedGroup(n: nat)
    requires n > 1 && !IsPow2(n)
    ensures exists groups: seq<Group> :: |groups| == n && AnyFree(groups)
              && AllUsed(groups, Probed(n - 1, n))
  {
    ProbesAll(n - 1, n);
    var m: nat :| m < n && m !in Probed(n - 1, n);
    var groups := seq(n, g => if g == m then Group(1, 0) else Group(0, 0));
    assert groups[m].freeInodes > 0;
    assert AllUsed(groups, Probed(n - 1, n));
  }
}
