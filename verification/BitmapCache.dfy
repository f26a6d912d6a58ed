/** The eight loaded bitmaps of a volume: load__block_bitmap and load_inode_bitmap keep them in
    the order they were last used. */
module BitmapCache {
  import opened Lists

  const MAX_LOADED: nat := 8

  // ----- what the slots should hold

  /** Group g used once more. */
  function Touch(recent: seq<nat>, g: nat): seq<nat> {
    [g] + Without(recent, g)
  }

  /** The groups of a history of uses, the last used first, each once. */
  function Recency(history: seq<nat>): seq<nat> {
    if history == [] then [] else Touch(Recency(history[..|history| - 1]), history[|history| - 1])
  }

  function Top(recent: seq<nat>): seq<nat> {
    if |recent| <= MAX_LOADED then recent else recent[..MAX_LOADED]
  }

  lemma {:induction false} RecencyDistinct(history: seq<nat>)
    ensures Distinct(Recency(history))
  {
    if history != [] {
      var rest := Recency(history[..|history| - 1]);
      RecencyDistinct(history[..|history| - 1]);
      WithoutDistinct(rest, history[|history| - 1]);
      PrependDistinct(Without(rest, history[|history| - 1]), history[|history| - 1]);
    }
  }

  /** Unlinking from the first n is the first n, or n - 1, of the list unlinked. */
  lemma {:induction false} WithoutPrefix(list: seq<nat>, n: nat, g: nat)
    requires Distinct(list) && n <= |list|
    ensures |Without(list, g)| == if g in list then |list| - 1 else |list|
    ensures Without(list[..n], g) == Without(list, g)[..if g in list[..n] then n - 1 else n]
  {
    WithoutDistinct(list, g);
    if n > 0 {
      var rest := list[1..];
      assert list[..n][1..] == rest[..n - 1];
      WithoutPrefix(rest, n - 1, g);
      assert g in list[..n] <==> g == list[0] || g in rest[..n - 1];
    } else {
      assert list[..0] == [];
    }
  }

  /** Keeping the top eight at each use is keeping the top eight of everything. */
  lemma TopTouch(recent: seq<nat>, g: nat)
    requires Distinct(recent)
    ensures Top(Touch(Top(recent), g)) == Top(Touch(recent, g))
  {
    if |recent| > MAX_LOADED {
      var kept := recent[..MAX_LOADED];
      WithoutPrefix(recent, MAX_LOADED, g);
      var k := if g in kept then MAX_LOADED - 1 else MAX_LOADED;
      assert Touch(kept, g) == ([g] + Without(recent, g))[..k + 1];
    }
  }

  // ----- the slots

  /** A bitmap block in memory, by the group it belongs to. */
  datatype Slot = Empty | Loaded(group: nat)

  /** The first n slots hold the bitmaps their numbers say. */
  ghost predicate LoadedAs(bits: seq<Slot>, slots: seq<nat>, n: nat) {
    n <= |bits| == |slots| && forall i | 0 <= i < n :: bits[i] == Loaded(slots[i])
  }

  /** x in front, what was before at one place on, the rest where it was. */
  ghost predicate Fronted<T>(was: seq<T>, now: seq<T>, at: nat, x: T) {
    && |now| == |was| == MAX_LOADED && at < MAX_LOADED && now[0] == x
    && (forall k | 0 < k <= at :: now[k] == was[k - 1]) && (forall k | at < k < MAX_LOADED :: now[k] == was[k])
  }

  lemma LoadedAt(bits: seq<Slot>, slots: seq<nat>, n: nat, at: nat)
    requires LoadedAs(bits, slots, n) && at < n
    ensures bits[at] == Loaded(slots[at])
  {
  }

  lemma LoadedLess(bits: seq<Slot>, slots: seq<nat>, n: nat, m: nat)
    requires LoadedAs(bits, slots, n) && m <= n
    ensures LoadedAs(bits, slots, m)
  {
  }

  lemma FrontedTo(was: seq<nat>, now: seq<nat>, bits: seq<Slot>, more: seq<Slot>, n: nat, at: nat, g: nat)
    requires Fronted(was, now, at, g) && Fronted(bits, more, at, Loaded(g)) && LoadedAs(bits, was, n) && at < n <= MAX_LOADED
    ensures now[..n] == [g] + was[..n][..at] + was[..n][at + 1..] && LoadedAs(more, now, n)
  {
  }

  lemma FrontedNew(was: seq<nat>, now: seq<nat>, bits: seq<Slot>, more: seq<Slot>, n: nat, g: nat)
    requires 0 < n <= MAX_LOADED && LoadedAs(bits, was, n - 1)
    requires Fronted(was, now, n - 1, g) && Fronted(bits, more, n - 1, Loaded(g))
    ensures now[..n] == [g] + was[..n - 1] && LoadedAs(more, now, n)
  {
  }

  class Bitmaps {
    const groups: nat
    const number: array<nat>
    const bitmap: array<Slot>
    var loaded: nat
    var held: multiset<nat>
    ghost var history: seq<nat>

    /** With few groups every group has its own slot; with many the slots hold the groups last
        used, in that order. A bitmap is held while it is in a slot. */
    ghost predicate Valid()
      reads this, number, bitmap
    {
      && number != (bitmap as object) && number.Length == bitmap.Length == MAX_LOADED && loaded <= MAX_LOADED
      && if groups <= MAX_LOADED then
           loaded == 0 && forall g | 0 <= g < groups :: bitmap[g].Empty? || (bitmap[g] == Loaded(g) && number[g] == g)
         else
           number[..loaded] == Top(Recency(history)) && Distinct(number[..loaded])
           && LoadedAs(bitmap[..], number[..], loaded) && held == multiset(number[..loaded])
    }

    constructor (n: nat)
      ensures Valid() && groups == n && history == [] && fresh(number) && fresh(bitmap)
    {
      groups := n;
      number := new nat[MAX_LOADED](_ => 0);
      bitmap := new Slot[MAX_LOADED](_ => Empty);
      loaded, held, history := 0, multiset{}, [];
    }

    /** The slot of a group's bitmap, which is read in if need be; then the bitmap used longest
        ago is released. */
    method Load(g: nat) returns (i: nat)
      requires Valid() && g < groups
      modifies this, number, bitmap
      ensures Valid() && i < MAX_LOADED && bitmap[i] == Loaded(g)
      ensures history == old(history) + [g]
      ensures groups <= MAX_LOADED ==>
                && i == g && held == old(held) + (if old(bitmap[g]) == Empty then multiset{g} else multiset{})
                && forall j | 0 <= j < MAX_LOADED && j != g :: bitmap[j] == old(bitmap[j])
      ensures groups > MAX_LOADED ==> i == 0 && number[..loaded] == Top(Touch(old(number[..loaded]), g))
      ensures groups > MAX_LOADED && (g in old(number[..loaded]) || old(loaded) < MAX_LOADED) ==>
                held == old(held) + (if g in old(number[..loaded]) then multiset{} else multiset{g})
      ensures groups > MAX_LOADED && g !in old(number[..loaded]) && old(loaded) == MAX_LOADED ==>
                held == old(held) - multiset{old(number[MAX_LOADED - 1])} + multiset{g}
    {
      ghost var past := history;
      history := history + [g];
      if groups <= MAX_LOADED {
        if bitmap[g].Empty? {
          number[g], bitmap[g] := g, Loaded(g);
          held := held + multiset{g};
        }
        return g;
      }
      hide Top, Touch, Recency, Distinct, Without;
      Again(past, g);
      i := 0;
      if loaded > 0 && number[0] == g {
        FirstAgain(number[..loaded], g);
        return;
      }
      var at := 0;
      while at < loaded && number[at] != g
        invariant at <= loaded && g !in number[..at]
        modifies {}
      {
        at := at + 1;
      }
      if at < loaded {
        assert number[..loaded][at] == g;
        MoveToFront(at);
      } else {
        BringIn(g);
      }
    }

    ghost predicate Full()
      reads this, number, bitmap
    {
      && number != (bitmap as object) && number.Length == bitmap.Length == MAX_LOADED && loaded <= MAX_LOADED
      && Distinct(number[..loaded]) && LoadedAs(bitmap[..], number[..], loaded)
      && held == multiset(number[..loaded])
    }

    /** A bitmap that is loaded comes to the front; nothing is read or released. */
    method MoveToFront(at: nat)
      requires Full() && at < loaded
      modifies number, bitmap
      ensures Full() && bitmap[0] == Loaded(old(number[at]))
      ensures number[..loaded] == Top(Touch(old(number[..loaded]), old(number[at])))
    {
      hide Top, Touch, Distinct, Without, LoadedAs, Fronted;
      ghost var was := number[..loaded];
      ghost var slots, bits := number[..], bitmap[..];
      LoadedAt(bits, slots, loaded, at);
      var found, buffer := number[at], bitmap[at];
      PutFront(at, found, buffer);
      FrontedTo(slots, number[..], bits, bitmap[..], loaded, at, found);
      assert was == slots[..loaded] && number[..loaded] == number[..][..loaded];
      MovedFront(was, at);
    }

    /** A bitmap is read into the first slot; with all slots taken the last one is released. */
    method BringIn(g: nat)
      requires Full() && g !in number[..loaded]
      modifies this`loaded, this`held, number, bitmap
      ensures Full() && 0 < loaded && bitmap[0] == Loaded(g)
      ensures number[..loaded] == Top(Touch(old(number[..loaded]), g))
      ensures old(loaded) == MAX_LOADED ==> held == old(held) - multiset{old(number[MAX_LOADED - 1])} + multiset{g}
      ensures old(loaded) < MAX_LOADED ==> held == old(held) + multiset{g}
    {
      hide Top, Touch, Distinct, Without, LoadedAs, Fronted;
      ghost var was := number[..loaded];
      ghost var slots, bits := number[..], bitmap[..];
      var last := number[MAX_LOADED - 1];
      var full := loaded == MAX_LOADED;
      if full {
        Release(last);
      } else {
        loaded := loaded + 1;
      }
      PutFront(loaded - 1, g, Loaded(g));
      Hold(g);
      LoadedLess(bits, slots, |was|, loaded - 1);
      FrontedNew(slots, number[..], bits, bitmap[..], loaded, g);
      assert was == slots[..|was|] && number[..loaded] == number[..][..loaded];
      assert was[..loaded - 1] == slots[..loaded - 1];
      NewFront(was, loaded, g);
    }

    /** The slots before at move one place on and the first is filled anew. */
    method PutFront(at: nat, g: nat, buffer: Slot)
      requires number != (bitmap as object) && number.Length == bitmap.Length == MAX_LOADED && at < MAX_LOADED
      modifies number, bitmap
      ensures Fronted(old(number[..]), number[..], at, g) && Fronted(old(bitmap[..]), bitmap[..], at, buffer)
      ensures bitmap[0] == buffer
    {
      ShiftDown(at);
      number[0], bitmap[0] := g, buffer;
    }

    method Hold(g: nat)
      modifies this`held
      ensures held == old(held) + multiset{g}
    {
      held := held + multiset{g};
    }

    method Release(g: nat)
      modifies this`held
      ensures held == old(held) - multiset{g}
    {
      held := held - multiset{g};
    }

    /** Slots before at move one place on. */
    method ShiftDown(at: nat)
      requires number != (bitmap as object) && number.Length == bitmap.Length == MAX_LOADED && at < MAX_LOADED
      modifies number, bitmap
      ensures forall k | 0 < k <= at :: number[k] == old(number[k - 1]) && bitmap[k] == old(bitmap[k - 1])
      ensures forall k | at < k < MAX_LOADED :: number[k] == old(number[k]) && bitmap[k] == old(bitmap[k])
    {
      var j := at;
      while j > 0
        invariant 0 <= j <= at
        invariant forall k | j < k <= at :: number[k] == old(number[k - 1]) && bitmap[k] == old(bitmap[k - 1])
        invariant forall k | 0 <= k <= j || at < k < MAX_LOADED :: number[k] == old(number[k]) && bitmap[k] == old(bitmap[k])
      {
        number[j], bitmap[j] := number[j - 1], bitmap[j - 1];
        j := j - 1;
      }
    }
  }

  lemma Again(past: seq<nat>, g: nat)
    ensures Top(Recency(past + [g])) == Top(Touch(Top(Recency(past)), g))
  {
    assert (past + [g])[..|past|] == past;
    RecencyDistinct(past);
    TopTouch(Recency(past), g);
  }

  lemma FirstAgain(was: seq<nat>, g: nat)
    requires Distinct(was) && was != [] && was[0] == g && |was| <= MAX_LOADED
    ensures Top(Touch(was, g)) == was
  {
    WithoutNone(was[1..], g);
  }

  lemma MovedFront(was: seq<nat>, at: nat)
    requires Distinct(was) && at < |was| <= MAX_LOADED
    ensures var r := [was[at]] + was[..at] + was[at + 1..];
            Top(Touch(was, was[at])) == r && Distinct(r) && multiset(r) == multiset(was)
  {
    WithoutAt(was, at);
    WithoutDistinct(was, was[at]);
    PrependDistinct(Without(was, was[at]), was[at]);
    assert [was[at]] + (was[..at] + was[at + 1..]) == [was[at]] + was[..at] + was[at + 1..];
    assert was == was[..at] + [was[at]] + was[at + 1..];
  }

  /** A new group comes to the front and, when all slots were taken, the last one goes. */
  lemma NewFront(was: seq<nat>, n: nat, g: nat)
    requires Distinct(was) && g !in was && 0 < n <= MAX_LOADED && n <= |was| + 1
    requires n == |was| + 1 || (n == |was| == MAX_LOADED)
    ensures var r := [g] + was[..n - 1];
            && Top(Touch(was, g)) == r && Distinct(r)
            && (n == |was| + 1 ==> multiset(r) == multiset(was) + multiset{g})
            && (n == |was| ==> multiset(r) == multiset(was) - multiset{was[n - 1]} + multiset{g})
  {
    WithoutNone(was, g);
    hide Distinct, Without;
    if n == |was| {
      LastOff(was);
    } else {
      assert was[..n - 1] == was;
    }
    PrependDistinct(was[..n - 1], g);
  }

  lemma LastOff(was: seq<nat>)
    requires Distinct(was) && was != []
    ensures Distinct(was[..|was| - 1]) && multiset(was[..|was| - 1]) == multiset(was) - multiset{was[|was| - 1]}
  {
    PrefixDistinct(was, |was| - 1);
    LastOfBag(was[..|was| - 1], was[|was| - 1], was);
  }

  lemma LastOfBag(p: seq<nat>, x: nat, all: seq<nat>)
    requires |all| == |p| + 1 && all[..|p|] == p && all[|p|] == x
    ensures multiset(p) == multiset(all) - multiset{x}
  {
    assert all == p + [x];
  }

  lemma {:induction false} PrefixDistinct(list: seq<nat>, n: nat)
    requires Distinct(list) && n <= |list|
    ensures Distinct(list[..n])
  {
    if n > 0 {
      assert list[..n][1..] == list[1..][..n - 1];
      PrefixDistinct(list[1..], n - 1);
    }
  }
}
