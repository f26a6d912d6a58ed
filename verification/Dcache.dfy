/** The directory name cache: two levels of slots, each with its own order of use, and hash
    chains over both. What it does is described by two queues, oldest slot first. */
module Dcache {
  import opened Geometry
  import opened Lists
  import Records
  import Directory

  const NAME_MAX: nat := 15
  const SIZE: nat := 128
  const QUEUES: nat := 19

  datatype Key = Key(dev: nat, dir: nat, version: nat, name: string)

  /** One slot: what it caches, and whether it is on a hash chain. */
  datatype Slot = Slot(key: Key, ino: nat, hashed: bool)

  /** Slots below SIZE are level 1, the others level 2. */
  type Slots = s: seq<Slot> | |s| == 2 * SIZE witness seq(2 * SIZE, i => Slot(Key(0, 0, 0, ""), 0, false))

  predicate IsSlot(s: int) {
    0 <= s < 2 * SIZE
  }

  predicate AllSlots(chain: seq<nat>) {
    forall i | 0 <= i < |chain| :: IsSlot(chain[i])
  }

  function NameHash(name: string): nat {
    if name == "" then 0 else |name| * (name[0] as int)
  }

  /** The version is not part of the hash. */
  function Queue(k: Key): (q: nat)
    ensures q < QUEUES
  {
    BitXor(BitXor(k.dev, k.dir), NameHash(k.name)) % QUEUES
  }

  // ----- lists of slots

  lemma {:induction false} WithoutSlots(chain: seq<nat>, s: nat)
    requires AllSlots(chain)
    ensures AllSlots(Without(chain, s))
  {
    if chain != [] {
      WithoutSlots(chain[1..], s);
    }
  }

  // ----- chains

  /** The first slot of a chain with the key; the number of slots when there is none. */
  function First(chain: seq<nat>, slots: Slots, k: Key): (s: nat)
    requires AllSlots(chain)
    ensures IsSlot(s) ==> s in chain && slots[s].key == k
    ensures s == 2 * SIZE || IsSlot(s)
  {
    if chain == [] then 2 * SIZE
    else if slots[chain[0]].key == k then chain[0] else First(chain[1..], slots, k)
  }

  lemma {:induction false} FirstNone(chain: seq<nat>, slots: Slots, k: Key, s: nat)
    requires AllSlots(chain) && First(chain, slots, k) == 2 * SIZE && s in chain
    ensures slots[s].key != k
  {
    if s != chain[0] {
      FirstNone(chain[1..], slots, k, s);
    }
  }

  lemma {:induction false} FirstWithout(chain: seq<nat>, slots: Slots, k: Key, v: nat)
    requires AllSlots(chain)
    ensures AllSlots(Without(chain, v))
    ensures First(chain, slots, k) != v ==> First(Without(chain, v), slots, k) == First(chain, slots, k)
  {
    WithoutSlots(chain, v);
    if chain != [] && !(slots[chain[0]].key == k) {
      FirstWithout(chain[1..], slots, k, v);
    } else if chain != [] && chain[0] != v {
      assert Without(chain, v)[0] == chain[0];
    }
  }

  /** A slot that is not on the chain does not matter to it. */
  lemma {:induction false} FirstElsewhere(chain: seq<nat>, slots: Slots, more: Slots, k: Key)
    requires AllSlots(chain) && forall t | t in chain :: more[t].key == slots[t].key
    ensures First(chain, more, k) == First(chain, slots, k)
  {
    if chain != [] {
      FirstElsewhere(chain[1..], slots, more, k);
    }
  }

  // ----- the invariant

  ghost predicate Chained(slots: Slots, chains: seq<seq<nat>>) {
    && |chains| == QUEUES
    && (forall q {:trigger chains[q]} | 0 <= q < QUEUES ::
          && AllSlots(chains[q])
          && forall s: nat :: s in chains[q] <==> IsSlot(s) && slots[s].hashed && Queue(slots[s].key) == q)
  }

  /** No key twice on level 1. */
  ghost predicate Level1Once(slots: Slots) {
    forall s, t | 0 <= s < SIZE && 0 <= t < SIZE && slots[s].hashed && slots[t].hashed && slots[s].key == slots[t].key ::
      s == t
  }

  /** A level 2 copy is what a search for its key finds; so there is only one, and it comes
      before a copy on level 1. */
  ghost predicate Level2First(slots: Slots, chains: seq<seq<nat>>)
    requires Chained(slots, chains)
  {
    forall s {:trigger slots[s]} | SIZE <= s < 2 * SIZE && slots[s].hashed ::
      First(chains[Queue(slots[s].key)], slots, slots[s].key) == s
  }

  /** All slots of one level, each once. */
  ghost predicate Order(lru: seq<nat>, low: nat) {
    && |lru| == SIZE && Distinct(lru) && (forall s :: s in lru <==> low <= s < low + SIZE)
    && forall i | 0 <= i < SIZE :: low <= lru[i] < low + SIZE
  }

  ghost predicate Sound(slots: Slots, chains: seq<seq<nat>>) {
    Chained(slots, chains) && Level1Once(slots) && Level2First(slots, chains)
  }

  // ----- the three changes

  function Unhashed(slots: Slots, v: nat): Slots
    requires IsSlot(v)
  {
    slots[v := slots[v].(hashed := false)]
  }

  function UnhashedChains(slots: Slots, chains: seq<seq<nat>>, v: nat): seq<seq<nat>>
    requires IsSlot(v) && |chains| == QUEUES
  {
    if slots[v].hashed then
      var q := Queue(slots[v].key);
      chains[q := Without(chains[q], v)]
    else chains
  }

  lemma UnhashSound(slots: Slots, chains: seq<seq<nat>>, v: nat)
    requires Sound(slots, chains) && IsSlot(v)
    ensures Sound(Unhashed(slots, v), UnhashedChains(slots, chains, v))
  {
    hide Queue, Without, First;
    var more, cs := Unhashed(slots, v), UnhashedChains(slots, chains, v);
    if slots[v].hashed {
      WithoutSlots(chains[Queue(slots[v].key)], v);
    }
    assert Chained(more, cs);
    forall s | SIZE <= s < 2 * SIZE && more[s].hashed
      ensures First(cs[Queue(more[s].key)], more, more[s].key) == s
    {
      var q := Queue(slots[s].key);
      assert slots[s].hashed;
      FirstWithout(chains[q], slots, slots[s].key, v);
      FirstElsewhere(cs[q], slots, more, slots[s].key);
    }
  }

  function Hashed(slots: Slots, v: nat, k: Key, ino: nat): Slots
    requires IsSlot(v)
  {
    slots[v := Slot(k, ino, true)]
  }

  function HashedChains(chains: seq<seq<nat>>, v: nat, k: Key): seq<seq<nat>>
    requires |chains| == QUEUES
  {
    chains[Queue(k) := [v] + chains[Queue(k)]]
  }

  /** A slot taken off its chain comes back at the head of the chain of its new key. */
  lemma HashSound(slots: Slots, chains: seq<seq<nat>>, v: nat, k: Key, ino: nat)
    requires Sound(slots, chains) && IsSlot(v) && !slots[v].hashed
    requires forall s | (if v < SIZE then 0 else SIZE) <= s < 2 * SIZE && slots[s].hashed :: slots[s].key != k
    ensures Sound(Hashed(slots, v, k, ino), HashedChains(chains, v, k))
  {
    hide Queue, First;
    var more, cs := Hashed(slots, v, k, ino), HashedChains(chains, v, k);
    assert Chained(more, cs);
    forall s | SIZE <= s < 2 * SIZE && more[s].hashed
      ensures First(cs[Queue(more[s].key)], more, more[s].key) == s
    {
      if s == v {
        FirstFront(chains[Queue(k)], more, v, k);
      } else {
        var q := Queue(slots[s].key);
        assert slots[s].hashed && slots[s].key != k && v !in chains[q];
        FirstElsewhere(chains[q], slots, more, slots[s].key);
        if q == Queue(k) {
          FirstFront(chains[q], more, v, slots[s].key);
        }
      }
    }
  }

  lemma FirstFront(chain: seq<nat>, slots: Slots, v: nat, k: Key)
    requires IsSlot(v) && AllSlots(chain)
    ensures First([v] + chain, slots, k) == if slots[v].key == k then v else First(chain, slots, k)
  {
    assert ([v] + chain)[1..] == chain;
  }

  lemma RenumberSound(slots: Slots, chains: seq<seq<nat>>, v: nat, ino: nat)
    requires Sound(slots, chains) && IsSlot(v)
    ensures Sound(slots[v := slots[v].(ino := ino)], chains)
  {
    hide Queue, First;
    var more := slots[v := slots[v].(ino := ino)];
    assert Chained(more, chains);
    forall s | SIZE <= s < 2 * SIZE && more[s].hashed
      ensures First(chains[Queue(more[s].key)], more, more[s].key) == s
    {
      assert slots[s].hashed;
      FirstElsewhere(chains[Queue(slots[s].key)], slots, more, slots[s].key);
    }
  }

  lemma ToEndOrder(lru: seq<nat>, low: nat, s: nat)
    requires Order(lru, low) && s in lru
    ensures Order(ToEnd(lru, s), low) && ToEnd(lru, s)[SIZE - 1] == s
  {
    WithoutDistinct(lru, s);
    AppendDistinct(Without(lru, s), s);
    var u := ToEnd(lru, s);
    forall i | 0 <= i < |u|
      ensures low <= u[i] < low + SIZE
    {
      assert u[i] in u;
    }
  }

  // ----- the cache as two queues

  /** The slots of each level, the one used longest ago first. */
  datatype Levels = Levels(one: seq<Slot>, two: seq<Slot>)

  datatype Option = None | Some(value: nat)

  /** Where a queue has the key; its length when it does not. */
  function Place(q: seq<Slot>, k: Key): (i: nat)
    ensures i <= |q| && (i < |q| ==> q[i].hashed && q[i].key == k)
    ensures forall j | 0 <= j < i :: !(q[j].hashed && q[j].key == k)
  {
    if q == [] || (q[0].hashed && q[0].key == k) then 0 else 1 + Place(q[1..], k)
  }

  predicate On(q: seq<Slot>, k: Key) {
    Place(q, k) < |q|
  }

  predicate Short(k: Key) {
    |k.name| <= NAME_MAX
  }

  /** What a search answers: a level 2 copy before a level 1 copy, and nothing for long names. */
  function Cached(v: Levels, k: Key): Option {
    if !Short(k) then None
    else if On(v.two, k) then Some(v.two[Place(v.two, k)].ino)
    else if On(v.one, k) then Some(v.one[Place(v.one, k)].ino) else None
  }

  /** The i-th slot now caches x and is the last to be replaced. */
  function Renewed(q: seq<Slot>, i: nat, x: Slot): seq<Slot>
    requires i < |q|
  {
    q[..i] + q[i + 1..] + [x]
  }

  /** A search moves what it finds to the end of level 2. */
  function LookedUp(v: Levels, k: Key): Levels {
    if !Short(k) then v
    else if On(v.two, k) then v.(two := Renewed(v.two, Place(v.two, k), v.two[Place(v.two, k)]))
    else if On(v.one, k) && v.two != [] then v.(two := Renewed(v.two, 0, v.one[Place(v.one, k)])) else v
  }

  /** A binding goes over the copy a search would find, else over the oldest slot of level 1. */
  function Entered(v: Levels, k: Key, ino: nat): Levels {
    if !Short(k) then v
    else if On(v.two, k) then v.(two := Renewed(v.two, Place(v.two, k), Slot(k, ino, true)))
    else if On(v.one, k) then v.(one := Renewed(v.one, Place(v.one, k), Slot(k, ino, true)))
    else if v.one != [] then v.(one := Renewed(v.one, 0, Slot(k, ino, true))) else v
  }

  /** ext2_lookup: a search, and on a miss the answer of the records is entered. */
  function Consulted(v: Levels, k: Key, ino: nat): Levels {
    if Cached(v, k) == None then Entered(v, k, ino) else LookedUp(v, k)
  }

  /** The queue is full-sized and has no key twice. */
  ghost predicate QueueOk(q: seq<Slot>) {
    |q| == SIZE && forall i, j | 0 <= i < |q| && 0 <= j < |q| && q[i].hashed && q[j].hashed && q[i].key == q[j].key :: i == j
  }

  ghost predicate LevelsOk(v: Levels) {
    QueueOk(v.one) && QueueOk(v.two)
  }

  /** Some copy of the key has the inode number. */
  ghost predicate Says(v: Levels, k: Key, ino: nat) {
    Slot(k, ino, true) in v.one || Slot(k, ino, true) in v.two
  }

  lemma InRenewed(q: seq<Slot>, i: nat, x: Slot)
    requires i < |q|
    ensures |Renewed(q, i, x)| == |q| && Renewed(q, i, x)[|q| - 1] == x
    ensures forall j | 0 <= j < |q| - 1 :: Renewed(q, i, x)[j] == if j < i then q[j] else q[j + 1]
    ensures forall y | y in Renewed(q, i, x) :: y in q || y == x
  {
  }

  lemma RenewedOk(q: seq<Slot>, i: nat, x: Slot)
    requires QueueOk(q) && i < |q| && x.hashed && (On(q, x.key) ==> i == Place(q, x.key))
    ensures QueueOk(Renewed(q, i, x))
  {
    InRenewed(q, i, x);
    hide Renewed, Place;
  }

  lemma LookedUpOk(v: Levels, k: Key)
    requires LevelsOk(v)
    ensures LevelsOk(LookedUp(v, k))
  {
    hide QueueOk, Renewed;
    if On(v.two, k) {
      RenewedOk(v.two, Place(v.two, k), v.two[Place(v.two, k)]);
    } else if On(v.one, k) {
      RenewedOk(v.two, 0, v.one[Place(v.one, k)]) by { assert |v.two| == SIZE by { SizeOf(v.two); } }
    }
  }

  lemma SizeOf(q: seq<Slot>)
    requires QueueOk(q)
    ensures |q| == SIZE
  {
  }

  lemma EnteredOk(v: Levels, k: Key, ino: nat)
    requires LevelsOk(v)
    ensures LevelsOk(Entered(v, k, ino))
  {
    hide QueueOk, Renewed;
    SizeOf(v.one);
    if On(v.two, k) {
      RenewedOk(v.two, Place(v.two, k), Slot(k, ino, true));
    } else {
      RenewedOk(v.one, if On(v.one, k) then Place(v.one, k) else 0, Slot(k, ino, true));
    }
  }

  /** A search makes up nothing. */
  lemma LookedUpSays(v: Levels, k: Key, j: Key, n: nat)
    requires Says(LookedUp(v, k), j, n)
    ensures Says(v, j, n)
  {
    if On(v.two, k) {
      InRenewed(v.two, Place(v.two, k), v.two[Place(v.two, k)]);
    } else if On(v.one, k) && v.two != [] {
      InRenewed(v.two, 0, v.one[Place(v.one, k)]);
    }
  }

  lemma EnteredSays(v: Levels, k: Key, ino: nat, j: Key, n: nat)
    requires Says(Entered(v, k, ino), j, n)
    ensures Says(v, j, n) || (j == k && n == ino)
  {
    if On(v.two, k) {
      InRenewed(v.two, Place(v.two, k), Slot(k, ino, true));
    } else if v.one != [] {
      InRenewed(v.one, if On(v.one, k) then Place(v.one, k) else 0, Slot(k, ino, true));
    }
  }

  lemma ConsultedSays(v: Levels, k: Key, ino: nat, j: Key, n: nat)
    requires Says(Consulted(v, k, ino), j, n)
    ensures Says(v, j, n) || (j == k && n == ino && Cached(v, k) == None)
  {
    hide Says, LookedUp, Entered;
    if Cached(v, k) == None {
      EnteredSays(v, k, ino, j, n);
    } else {
      LookedUpSays(v, k, j, n);
    }
  }

  /** Exactly when both levels have the key, an older copy can stay beside the new binding. */
  lemma EnteredAlone(v: Levels, k: Key, ino: nat, n: nat)
    requires LevelsOk(v) && Short(k)
    ensures !(On(v.one, k) && On(v.two, k)) && Says(Entered(v, k, ino), k, n) ==> n == ino
    ensures On(v.one, k) && On(v.two, k) ==> Entered(v, k, ino).one == v.one
  {
    var w := Entered(v, k, ino);
    if !(On(v.one, k) && On(v.two, k)) && Says(w, k, n) {
      if On(v.two, k) {
        OnlyNew(v.two, Place(v.two, k), Slot(k, ino, true), n);
        NotIn(v.one, k, n);
      } else {
        OnlyNew(v.one, if On(v.one, k) then Place(v.one, k) else 0, Slot(k, ino, true), n);
        NotIn(v.two, k, n);
      }
    }
  }

  lemma NotIn(q: seq<Slot>, k: Key, n: nat)
    requires !On(q, k)
    ensures Slot(k, n, true) !in q
  {
    forall i | 0 <= i < |q|
      ensures q[i] != Slot(k, n, true)
    {
    }
  }

  lemma OnlyNew(q: seq<Slot>, i: nat, x: Slot, n: nat)
    requires QueueOk(q) && i < |q| && (On(q, x.key) ==> i == Place(q, x.key))
    ensures Slot(x.key, n, true) in Renewed(q, i, x) ==> n == x.ino
  {
    InRenewed(q, i, x);
    NowhereElse(q, i, x.key);
    hide Renewed, Place, QueueOk;
  }

  lemma NowhereElse(q: seq<Slot>, i: nat, k: Key)
    requires QueueOk(q) && i < |q| && (On(q, k) ==> i == Place(q, k))
    ensures forall m | 0 <= m < |q| && m != i :: !(q[m].hashed && q[m].key == k)
  {
    forall m: nat | m < |q|
      ensures q[m].hashed && q[m].key == k ==> m == i
    {
      if q[m].hashed && q[m].key == k {
        OnAt(q, k, m);
      }
    }
  }

  lemma OnAt(q: seq<Slot>, k: Key, i: nat)
    requires i < |q| && q[i].hashed && q[i].key == k
    ensures On(q, k) && Place(q, k) <= i
  {
  }

  lemma CachedSays(v: Levels, k: Key)
    ensures Cached(v, k).Some? ==> Says(v, k, Cached(v, k).value)
    ensures Short(k) && Cached(v, k) == None ==> forall n :: !Says(v, k, n)
  {
    forall n
      ensures !On(v.one, k) ==> Slot(k, n, true) !in v.one
      ensures !On(v.two, k) ==> Slot(k, n, true) !in v.two
    {
      if !On(v.one, k) {
        NotIn(v.one, k, n);
      }
      if !On(v.two, k) {
        NotIn(v.two, k, n);
      }
    }
    if On(v.two, k) {
      assert v.two[Place(v.two, k)] == Slot(k, v.two[Place(v.two, k)].ino, true);
    } else if On(v.one, k) {
      assert v.one[Place(v.one, k)] == Slot(k, v.one[Place(v.one, k)].ino, true);
    }
  }

  // ----- queues read off the slots

  function Contents(slots: Slots, lru: seq<nat>): (q: seq<Slot>)
    requires forall i | 0 <= i < |lru| :: lru[i] < 2 * SIZE
    ensures |q| == |lru| && forall i | 0 <= i < |q| :: q[i] == slots[lru[i]]
  {
    seq(|lru|, i requires 0 <= i < |lru| => slots[lru[i]])
  }

  lemma {:induction false} DistinctAt(list: seq<nat>, i: nat, j: nat)
    requires Distinct(list) && i < |list| && j < |list| && list[i] == list[j]
    ensures i == j
  {
    if i > 0 && j > 0 {
      DistinctAt(list[1..], i - 1, j - 1);
    }
  }

  /** Moving a slot to the end and giving it other contents. */
  lemma ContentsRenewed(slots: Slots, lru: seq<nat>, low: nat, i: nat, x: Slot)
    requires Order(lru, low) && low <= SIZE && i < |lru|
    ensures Order(ToEnd(lru, lru[i]), low)
    ensures Contents(slots[lru[i] := x], ToEnd(lru, lru[i])) == Renewed(Contents(slots, lru), i, x)
  {
    var s := lru[i];
    ToEndOrder(lru, low, s);
    WithoutAt(lru, i);
    DistinctOthers(lru, i);
    hide Distinct, Without;
  }

  lemma DistinctOthers(list: seq<nat>, i: nat)
    requires Distinct(list) && i < |list|
    ensures forall j | 0 <= j < |list| && j != i :: list[j] != list[i]
  {
    forall j: nat | j < |list|
      ensures list[j] == list[i] ==> j == i
    {
      if list[j] == list[i] {
        DistinctAt(list, j, i);
      }
    }
  }

  lemma ContentsElsewhere(slots: Slots, lru: seq<nat>, low: nat, s: nat, x: Slot)
    requires Order(lru, low) && low <= SIZE && IsSlot(s) && !(low <= s < low + SIZE)
    ensures Contents(slots[s := x], lru) == Contents(slots, lru)
  {
  }

  /** What a search finds is where the queues have the key. */
  lemma FoundIs(slots: Slots, chains: seq<seq<nat>>, level1: seq<nat>, level2: seq<nat>, k: Key)
    requires Sound(slots, chains) && Order(level1, 0) && Order(level2, SIZE)
    ensures var s, one, two := First(chains[Queue(k)], slots, k), Contents(slots, level1), Contents(slots, level2);
            && (s == 2 * SIZE <==> !On(one, k) && !On(two, k)) && s <= 2 * SIZE
            && (On(two, k) ==> s == level2[Place(two, k)])
            && (!On(two, k) && On(one, k) ==> s == level1[Place(one, k)])
  {
    var s, one, two := First(chains[Queue(k)], slots, k), Contents(slots, level1), Contents(slots, level2);
    hide Queue, First, Distinct;
    FoundOrNot(slots, chains, k);
    hide Place;
    if SIZE <= s < 2 * SIZE {
      var i := IndexOf(level2, s);
      OnAt(two, k, i);
    } else if s < SIZE {
      var i := IndexOf(level1, s);
      OnAt(one, k, i);
    }
  }

  lemma IndexOf(list: seq<nat>, s: nat) returns (i: nat)
    requires s in list
    ensures i < |list| && list[i] == s
  {
    i :| i < |list| && list[i] == s;
  }

  lemma FoundOrNot(slots: Slots, chains: seq<seq<nat>>, k: Key)
    requires Sound(slots, chains)
    ensures var s := First(chains[Queue(k)], slots, k);
            && (s == 2 * SIZE ==> forall t | IsSlot(t) && slots[t].hashed :: slots[t].key != k)
            && (IsSlot(s) ==> slots[s].hashed && slots[s].key == k)
            && (forall t | SIZE <= t < 2 * SIZE && slots[t].hashed && slots[t].key == k :: t == s)
            && (forall t, u | 0 <= t < SIZE && 0 <= u < SIZE && slots[t].hashed && slots[u].hashed
                             && slots[t].key == k == slots[u].key :: t == u)
  {
    var chain := chains[Queue(k)];
    var s := First(chain, slots, k);
    if s == 2 * SIZE {
      forall t | IsSlot(t) && slots[t].hashed && slots[t].key == k
        ensures false
      {
        assert t in chain;
        FirstNone(chain, slots, k, t);
      }
    } else {
      assert s in chain;
    }
  }

  // ----- the cache

  class NameCache {
    var slots: Slots
    var level1: seq<nat>
    var level2: seq<nat>
    var chains: seq<seq<nat>>

    ghost predicate Valid()
      reads this
    {
      Sound(slots, chains) && Order(level1, 0) && Order(level2, SIZE)
    }

    ghost function View(): Levels
      requires Valid()
      reads this
    {
      Levels(Contents(slots, level1), Contents(slots, level2))
    }

    constructor ()
      ensures Valid() && LevelsOk(View())
      ensures forall i | 0 <= i < SIZE :: !View().one[i].hashed && !View().two[i].hashed
    {
      slots := seq(2 * SIZE, i => Slot(Key(0, 0, 0, ""), 0, false));
      level1 := Upwards(0, SIZE);
      level2 := Upwards(SIZE, 2 * SIZE);
      chains := seq(QUEUES, i => []);
      new;
      UpwardsOrder(0, SIZE);
      UpwardsOrder(SIZE, 2 * SIZE);
    }

    lemma ViewOk()
      requires Valid()
      ensures LevelsOk(View())
    {
      hide Queue, Place;
      var one, two := View().one, View().two;
      forall i, j | 0 <= i < SIZE && 0 <= j < SIZE
        ensures one[i].hashed && one[j].hashed && one[i].key == one[j].key ==> i == j
        ensures two[i].hashed && two[j].hashed && two[i].key == two[j].key ==> i == j
      {
        if level1[i] == level1[j] {
          DistinctAt(level1, i, j);
        }
        if level2[i] == level2[j] {
          DistinctAt(level2, i, j);
        }
      }
    }

    method FindEntry(k: Key) returns (s: nat)
      requires Valid()
      ensures s == 2 * SIZE <==> !On(View().one, k) && !On(View().two, k)
      ensures s <= 2 * SIZE
      ensures On(View().two, k) ==> s == level2[Place(View().two, k)]
      ensures !On(View().two, k) && On(View().one, k) ==> s == level1[Place(View().one, k)]
    {
      hide Place;
      var chain := chains[Queue(k)];
      var i := 0;
      while i < |chain| && slots[chain[i]].key != k
        invariant 0 <= i <= |chain| && AllSlots(chain[i..])
        invariant First(chain[i..], slots, k) == First(chain, slots, k)
      {
        assert chain[i..][1..] == chain[i + 1..];
        i := i + 1;
      }
      s := if i == |chain| then 2 * SIZE else chain[i];
      FoundIs(slots, chains, level1, level2, k);
    }

    method UpdateLru(s: nat)
      requires Valid() && IsSlot(s)
      modifies this`level1, this`level2
      ensures Valid()
      ensures if s < SIZE then level1 == ToEnd(old(level1), s) && level2 == old(level2)
              else level2 == ToEnd(old(level2), s) && level1 == old(level1)
    {
      if s < SIZE {
        ToEndOrder(level1, 0, s);
        level1 := Without(level1, s) + [s];
      } else {
        ToEndOrder(level2, SIZE, s);
        level2 := Without(level2, s) + [s];
      }
    }

    /** Reuses the slot that was used longest ago. */
    method Rehash(v: nat, k: Key, ino: nat)
      requires Valid() && IsSlot(v)
      requires forall s | (if v < SIZE then 0 else SIZE) <= s < 2 * SIZE && slots[s].hashed :: slots[s].key != k
      modifies this`slots, this`chains
      ensures Valid() && slots == old(slots)[v := Slot(k, ino, true)]
    {
      UnhashSound(slots, chains, v);
      if slots[v].hashed {
        var q := Queue(slots[v].key);
        chains := chains[q := Without(chains[q], v)];
        slots := slots[v := slots[v].(hashed := false)];
      }
      assert slots == Unhashed(old(slots), v);
      HashSound(slots, chains, v, k, ino);
      slots := slots[v := Slot(k, ino, true)];
      chains := chains[Queue(k) := [v] + chains[Queue(k)]];
    }

    /** dcache_lookup: the answer of the queues, and what they become. */
    method Lookup(k: Key) returns (hit: bool, ino: nat)
      requires Valid()
      modifies this
      ensures Valid() && View() == LookedUp(old(View()), k)
      ensures hit == Cached(old(View()), k).Some? && (hit ==> ino == Cached(old(View()), k).value)
    {
      hide Sound, Queue, Place;
      if |k.name| > NAME_MAX {
        return false, 0;
      }
      var s := FindEntry(k);
      if s == 2 * SIZE {
        return false, 0;
      }
      hit, ino := true, slots[s].ino;
      MoveToLevel2(s, k);
    }

    method MoveToLevel2(s: nat, k: Key)
      requires Valid() && Short(k) && (On(View().one, k) || On(View().two, k))
      requires s == if On(View().two, k) then level2[Place(View().two, k)] else level1[Place(View().one, k)]
      modifies this
      ensures Valid() && View() == LookedUp(old(View()), k)
    {
      hide Queue, ToEnd, First;
      ghost var v := View();
      if s >= SIZE {
        ContentsRenewed(slots, level2, SIZE, Place(v.two, k), slots[s]);
        assert slots[s := slots[s]] == slots;
        UpdateLru(s);
        return;
      }
      var t := level2[0];
      NotCached(slots, level2, k);
      ContentsRenewed(slots, level2, SIZE, 0, Slot(k, slots[s].ino, true));
      ContentsElsewhere(slots, level1, 0, t, Slot(k, slots[s].ino, true));
      UpdateLru(t);
      Rehash(t, slots[s].key, slots[s].ino);
    }

    /** dcache_add. */
    method Add(k: Key, ino: nat)
      requires Valid()
      modifies this
      ensures Valid() && View() == Entered(old(View()), k, ino)
    {
      hide Sound, Queue, Order, Place;
      if |k.name| > NAME_MAX {
        return;
      }
      var s := FindEntry(k);
      if s < 2 * SIZE {
        Renumber(s, k, ino);
        return;
      }
      Replace(k, ino);
    }

    method Renumber(s: nat, k: Key, ino: nat)
      requires Valid() && Short(k) && (On(View().one, k) || On(View().two, k))
      requires s == if On(View().two, k) then level2[Place(View().two, k)] else level1[Place(View().one, k)]
      modifies this
      ensures Valid() && View() == Entered(old(View()), k, ino)
    {
      hide Queue, ToEnd, First;
      ghost var v := View();
      RenumberSound(slots, chains, s, ino);
      if On(v.two, k) {
        ContentsRenewed(slots, level2, SIZE, Place(v.two, k), Slot(k, ino, true));
        ContentsElsewhere(slots, level1, 0, s, Slot(k, ino, true));
      } else {
        ContentsRenewed(slots, level1, 0, Place(v.one, k), Slot(k, ino, true));
        ContentsElsewhere(slots, level2, SIZE, s, Slot(k, ino, true));
      }
      slots := slots[s := slots[s].(ino := ino)];
      UpdateLru(s);
    }

    method Replace(k: Key, ino: nat)
      requires Valid() && Short(k) && !On(View().one, k) && !On(View().two, k)
      modifies this
      ensures Valid() && View() == Entered(old(View()), k, ino)
    {
      hide Queue, ToEnd, First;
      var v := level1[0];
      NotCached(slots, level1, k);
      NotCached(slots, level2, k);
      ContentsRenewed(slots, level1, 0, 0, Slot(k, ino, true));
      ContentsElsewhere(slots, level2, SIZE, v, Slot(k, ino, true));
      UpdateLru(v);
      Rehash(v, k, ino);
    }
  }

  lemma NotCached(slots: Slots, lru: seq<nat>, k: Key)
    requires (forall i | 0 <= i < |lru| :: lru[i] < 2 * SIZE) && !On(Contents(slots, lru), k)
    ensures forall s | s in lru && slots[s].hashed :: slots[s].key != k
  {
    var q := Contents(slots, lru);
    forall s | s in lru && slots[s].hashed
      ensures slots[s].key != k
    {
      var i := IndexOf(lru, s);
      assert q[i] == slots[s] && i < Place(q, k);
    }
  }

  function Upwards(a: nat, b: nat): seq<nat>
    requires a <= b
    decreases b - a
  {
    if a == b then [] else [a] + Upwards(a + 1, b)
  }

  lemma {:induction false} UpwardsOrder(a: nat, b: nat)
    requires a <= b
    ensures |Upwards(a, b)| == b - a && Distinct(Upwards(a, b))
    ensures forall s :: s in Upwards(a, b) <==> a <= s < b
    ensures forall i | 0 <= i < b - a :: a <= Upwards(a, b)[i] < b
    decreases b - a
  {
    if a < b {
      UpwardsOrder(a + 1, b);
      assert Upwards(a, b)[1..] == Upwards(a + 1, b);
    }
  }

  // ----- the cache beside the directories

  /** A directory as a lookup sees it: its version stamp and its records. */
  datatype Dir = Dir(version: nat, blocks: seq<Records.Block>)

  type Dirs = map<(nat, nat), Dir>

  /** What is cached for the present version of a directory is what a search of its records
      answers, whether that is an inode number or that there is none. */
  ghost predicate Coherent(v: Levels, dirs: Dirs, caseless: bool) {
    forall k, n | Says(v, k, n) && (k.dev, k.dir) in dirs && dirs[(k.dev, k.dir)].version == k.version ::
      n == Directory.Answer(dirs[(k.dev, k.dir)].blocks, k.name, caseless)
  }

  /** Nothing is cached for a stamp that has not been given out yet. */
  ghost predicate Past(v: Levels, event: nat) {
    forall k, n | Says(v, k, n) :: k.version <= event
  }

  lemma ConsultedPast(v: Levels, k: Key, ino: nat, event: nat)
    requires Past(v, event) && k.version <= event
    ensures Past(Consulted(v, k, ino), event)
  {
    hide Says, Consulted;
    forall j, n | Says(Consulted(v, k, ino), j, n)
      ensures j.version <= event
    {
      ConsultedSays(v, k, ino, j, n);
    }
  }

  lemma EnteredPast(v: Levels, k: Key, ino: nat, event: nat)
    requires Past(v, event) && k.version <= event
    ensures Past(Entered(v, k, ino), event)
  {
    hide Says, Entered;
    forall j, n | Says(Entered(v, k, ino), j, n)
      ensures j.version <= event
    {
      EnteredSays(v, k, ino, j, n);
    }
  }

  lemma EnteredCoherent(v: Levels, k: Key, ino: nat, dirs: Dirs, caseless: bool)
    requires Coherent(v, dirs, caseless) && LevelsOk(v)
    requires (k.dev, k.dir) in dirs && dirs[(k.dev, k.dir)].version == k.version
    ensures Coherent(Entered(v, k, ino), dirs, caseless) <==>
            !Short(k) || ino == Directory.Answer(dirs[(k.dev, k.dir)].blocks, k.name, caseless)
  {
    hide Says, Directory.Answer;
    var w := Entered(v, k, ino);
    EnteredThere(v, k, ino);
    hide Entered;
    forall j, n | Says(w, j, n)
      ensures Says(v, j, n) || (j == k && n == ino)
    {
      EnteredSays(v, k, ino, j, n);
    }
  }

  lemma EnteredThere(v: Levels, k: Key, ino: nat)
    requires LevelsOk(v)
    ensures Short(k) ==> Says(Entered(v, k, ino), k, ino)
    ensures !Short(k) ==> Entered(v, k, ino) == v
  {
    if On(v.two, k) {
      InRenewed(v.two, Place(v.two, k), Slot(k, ino, true));
    } else if Short(k) {
      InRenewed(v.one, if On(v.one, k) then Place(v.one, k) else 0, Slot(k, ino, true));
    }
  }

  /** A stamp not given out before makes everything cached for the directory unreachable. */
  lemma FreshStamp(v: Levels, dirs: Dirs, event: nat, d: (nat, nat), blocks: seq<Records.Block>, caseless: bool)
    requires Coherent(v, dirs, caseless) && Past(v, event)
    ensures Coherent(v, dirs[d := Dir(event + 1, blocks)], caseless)
  {
    hide Says, Directory.Answer;
  }

  lemma ConsultedCoherent(v: Levels, k: Key, dirs: Dirs, caseless: bool)
    requires Coherent(v, dirs, caseless) && (k.dev, k.dir) in dirs && dirs[(k.dev, k.dir)].version == k.version
    ensures var ino := Directory.Answer(dirs[(k.dev, k.dir)].blocks, k.name, caseless);
            && Coherent(Consulted(v, k, ino), dirs, caseless)
            && (Cached(v, k).Some? ==> Cached(v, k).value == ino)
  {
    var ino := Directory.Answer(dirs[(k.dev, k.dir)].blocks, k.name, caseless);
    hide Directory.Answer, Says, Consulted;
    CachedSays(v, k);
    forall j, n | Says(Consulted(v, k, ino), j, n)
      ensures Says(v, j, n) || (j == k && n == ino)
    {
      ConsultedSays(v, k, ino, j, n);
    }
  }

  /** The directories in core and the cache, in one of the two case modes. */
  class Lookups {
    const cache: NameCache
    const caseless: bool
    var dirs: Dirs
    var event: nat

    /** Everything but coherence: one operation can lose that. */
    ghost predicate Valid()
      reads this, cache
    {
      && cache.Valid() && Past(cache.View(), event)
      && forall d | d in dirs :: dirs[d].version <= event
    }

    ghost predicate InStep()
      requires Valid()
      reads this, cache
    {
      Coherent(cache.View(), dirs, caseless)
    }

    function KeyOf(d: (nat, nat), name: string): Key
      requires d in dirs
      reads this
    {
      Key(d.0, d.1, dirs[d].version, name)
    }

    ghost function Answer(d: (nat, nat), name: string): nat
      requires d in dirs
      reads this
    {
      Directory.Answer(dirs[d].blocks, name, caseless)
    }

    constructor (caseless: bool)
      ensures Valid() && InStep() && fresh(cache) && dirs == map[] && this.caseless == caseless
      ensures forall i | 0 <= i < SIZE :: !cache.View().one[i].hashed && !cache.View().two[i].hashed
    {
      cache := new NameCache();
      this.caseless := caseless;
      dirs := map[];
      event := 0;
    }

    /** A directory comes into core with a stamp of its own, in place of what was known of it. */
    method Load(d: (nat, nat), blocks: seq<Records.Block>)
      requires Valid()
      modifies this
      ensures Valid() && (old(InStep()) ==> InStep())
      ensures event == old(event) + 1 && dirs == old(dirs)[d := Dir(event, blocks)]
    {
      hide Directory.Answer;
      if InStep() {
        FreshStamp(cache.View(), dirs, event, d, blocks, caseless);
      }
      event := event + 1;
      dirs := dirs[d := Dir(event, blocks)];
    }

    /** ext2_lookup: the answer is that of the cache, if it has one, else that of the records; as
        long as the two are in step it is always that of the records, and they stay in step. */
    method Lookup(d: (nat, nat), name: string) returns (ino: nat)
      requires Valid() && d in dirs
      modifies this, cache
      ensures Valid() && dirs == old(dirs) && event == old(event)
      ensures cache.View() == Consulted(old(cache.View()), KeyOf(d, name), Answer(d, name))
      ensures ino == (var c := Cached(old(cache.View()), KeyOf(d, name)); if c.Some? then c.value else Answer(d, name))
      ensures old(InStep()) ==> InStep() && ino == Directory.Answer(dirs[d].blocks, name, caseless)
    {
      hide Directory.FirstMatch, Directory.Cut, Entered, LookedUp, Cached;
      var k := Key(d.0, d.1, dirs[d].version, name);
      assert d == (d.0, d.1);
      ConsultedPast(cache.View(), k, Answer(d, name), event);
      if InStep() {
        ConsultedCoherent(cache.View(), k, dirs, caseless);
      }
      var hit;
      hit, ino := cache.Lookup(k);
      if hit {
        return;
      }
      LookedUpMiss(old(cache.View()), k);
      var found, i, j := Directory.FindIn(dirs[d].blocks, Directory.Cut(name), caseless);
      ino := if found then dirs[d].blocks[i][j].ino else 0;
      cache.Add(k, ino);
    }

    /** ext2_readdir enters each record it lists. The cache stays in step exactly when a search
        for the name would find that record. */
    method List(d: (nat, nat), k: nat, i: nat)
      requires Valid() && d in dirs && Directory.At(dirs[d].blocks, k, i) && dirs[d].blocks[k][i].ino != 0
      modifies this, cache
      ensures Valid() && dirs == old(dirs) && event == old(event)
      ensures var r := dirs[d].blocks[k][i];
              && cache.View() == Entered(old(cache.View()), KeyOf(d, r.name), r.ino)
              && (old(InStep()) ==> (InStep() <==> |r.name| > NAME_MAX || Answer(d, r.name) == r.ino))
    {
      hide Directory.Answer, Entered;
      assert d == (d.0, d.1);
      var r := dirs[d].blocks[k][i];
      Enter(d, r.name, r.ino);
    }

    method Enter(d: (nat, nat), name: string, ino: nat)
      requires Valid() && d in dirs
      modifies cache
      ensures Valid() && cache.View() == Entered(old(cache.View()), KeyOf(d, name), ino)
      ensures old(InStep()) ==> (InStep() <==> |name| > NAME_MAX || Answer(d, name) == ino)
    {
      hide Directory.Answer, Entered;
      assert d == (d.0, d.1);
      var k := Key(d.0, d.1, dirs[d].version, name);
      cache.ViewOk();
      EnteredPast(cache.View(), k, ino, event);
      if InStep() {
        EnteredCoherent(cache.View(), k, ino, dirs, caseless);
      }
      cache.Add(k, ino);
    }

    /** create, link, mkdir and the new name of a rename: the records change, the directory gets a
        new stamp, and the binding is entered under it. The cache stays in step exactly when a
        search of the new records for that name finds that binding. */
    method Bind(d: (nat, nat), blocks: seq<Records.Block>, name: string, ino: nat)
      requires Valid() && d in dirs
      modifies this, cache
      ensures Valid() && event == old(event) + 1 && dirs == old(dirs)[d := Dir(event, blocks)]
      ensures cache.View() == Entered(old(cache.View()), KeyOf(d, name), ino)
      ensures old(InStep()) ==> (InStep() <==> |name| > NAME_MAX || Directory.Answer(blocks, name, caseless) == ino)
    {
      hide Directory.Answer, Entered;
      Load(d, blocks);
      Enter(d, name, ino);
    }

    /** unlink, rmdir and the old name of a rename: the records change under a new stamp. */
    method Unbind(d: (nat, nat), blocks: seq<Records.Block>)
      requires Valid() && d in dirs
      modifies this
      ensures Valid() && (old(InStep()) ==> InStep())
      ensures event == old(event) + 1 && dirs == old(dirs)[d := Dir(event, blocks)]
    {
      Load(d, blocks);
    }

    /** The end of a rename of a directory changes what ".." binds under the same stamp. The
        cache stays in step exactly unless both levels had ".." and the parent is another one:
        then only the level 2 copy is corrected. */
    method Reparent(d: (nat, nat), parent: nat)
      requires Valid() && d in dirs && Directory.StartsWithDots(dirs[d].blocks, d.1) && d.1 > 0 && parent > 0
      modifies this, cache
      ensures Valid() && event == old(event)
      ensures dirs == old(dirs)[d := Dir(old(dirs[d].version), Directory.Reparented(old(dirs[d].blocks), parent))]
      ensures cache.View() == Entered(old(cache.View()), old(KeyOf(d, "..")), parent)
      ensures old(InStep()) ==>
                (InStep() <==> parent == old(Answer(d, "..")) || !(old(On(cache.View().one, KeyOf(d, "..")))
                                                                  && old(On(cache.View().two, KeyOf(d, "..")))))
    {
      hide Directory.Answer, Entered;
      assert d == (d.0, d.1);
      var k := Key(d.0, d.1, dirs[d].version, "..");
      cache.ViewOk();
      EnteredPast(cache.View(), k, parent, event);
      ghost var was := dirs;
      ghost var v := cache.View();
      dirs := dirs[d := dirs[d].(blocks := Directory.Reparented(dirs[d].blocks, parent))];
      cache.Add(k, parent);
      if old(InStep()) {
        ReparentedCoherent(v, was, dirs, d, parent, caseless);
      }
    }
  }

  lemma LookedUpMiss(v: Levels, k: Key)
    requires Cached(v, k) == None
    ensures LookedUp(v, k) == v
  {
  }

  /** Correcting ".." in the records changes no other answer. */
  lemma ReparentedAnswers(blocks: seq<Records.Block>, ino: nat, parent: nat, name: string, caseless: bool)
    requires Directory.StartsWithDots(blocks, ino) && ino > 0 && parent > 0
    ensures Directory.Answer(blocks, "..", caseless) == blocks[0][1].ino
    ensures Directory.Answer(Directory.Reparented(blocks, parent), name, caseless)
            == if name == ".." then parent else Directory.Answer(blocks, name, caseless)
  {
    var b := blocks[0];
    var c := b[1 := b[1].(ino := parent)];
    var rest := Records.Flat(blocks[1..]);
    assert Directory.Reparented(blocks, parent)[1..] == blocks[1..];
    assert Records.Flat(blocks) == b + rest && Records.Flat(Directory.Reparented(blocks, parent)) == c + rest;
    assert b + rest == [b[0]] + ([b[1]] + (b[2..] + rest)) && c + rest == [b[0]] + ([c[1]] + (b[2..] + rest));
    TwoFirst(b[0], b[1], b[2..] + rest, Directory.Cut(name), caseless);
    TwoFirst(b[0], c[1], b[2..] + rest, Directory.Cut(name), caseless);
    TwoFirst(b[0], b[1], b[2..] + rest, "..", caseless);
    DotsFold(name, caseless);
    DotsFold(Directory.Cut(name), caseless);
    hide Directory.FirstMatch, Directory.Cut, Directory.SameName;
  }

  lemma TwoFirst(x: Records.Rec, y: Records.Rec, rest: seq<Records.Rec>, name: string, caseless: bool)
    ensures Directory.FirstMatch([x] + ([y] + rest), name, caseless)
            == if Directory.Matches(name, x, caseless) then x.ino
               else if Directory.Matches(name, y, caseless) then y.ino else Directory.FirstMatch(rest, name, caseless)
  {
    var rs := [x] + ([y] + rest);
    assert rs[1..] == [y] + rest && rs[1..][1..] == rest;
  }

  lemma DotsFold(name: string, caseless: bool)
    ensures Directory.SameName(name, "..", caseless) <==> name == ".."
    ensures Directory.Cut("..") == ".." && !Directory.SameName("..", ".", caseless)
    ensures Directory.Cut(name) == ".." <==> name == ".."
  {
    if caseless && Directory.Lower(name) == ".." {
      assert Directory.Lower("..") == "..";
      forall i | 0 <= i < 2
        ensures name[i] == '.'
      {
        assert Directory.Lower(name)[i] == Directory.LowerChar(name[i]) == '.';
      }
    }
  }

  lemma ReparentedCoherent(v: Levels, was: Dirs, dirs: Dirs, d: (nat, nat), parent: nat, caseless: bool)
    requires LevelsOk(v) && Coherent(v, was, caseless)
    requires d in was && Directory.StartsWithDots(was[d].blocks, d.1) && d.1 > 0 && parent > 0
    requires dirs == was[d := was[d].(blocks := Directory.Reparented(was[d].blocks, parent))]
    ensures var k := Key(d.0, d.1, was[d].version, "..");
            Coherent(Entered(v, k, parent), dirs, caseless) <==>
            parent == Directory.Answer(was[d].blocks, "..", caseless) || !(On(v.one, k) && On(v.two, k))
  {
    hide Directory.Answer, Says, Directory.Reparented, On, Place;
    var k := Key(d.0, d.1, was[d].version, "..");
    var w := Entered(v, k, parent);
    EnteredThere(v, k, parent);
    forall j, n | Says(w, j, n)
      ensures Says(v, j, n) || (j == k && n == parent)
    {
      EnteredSays(v, k, parent, j, n);
    }
    forall n
      ensures !(On(v.one, k) && On(v.two, k)) && Says(w, k, n) ==> n == parent
    {
      EnteredAlone(v, k, parent, n);
    }
    forall name
      ensures Directory.Answer(dirs[d].blocks, name, caseless)
              == if name == ".." then parent else Directory.Answer(was[d].blocks, name, caseless)
    {
      ReparentedAnswers(was[d].blocks, d.1, parent, name, caseless);
    }
    if On(v.one, k) && On(v.two, k) {
      OldCopyStays(v, k, parent);
    }
    hide Entered;
  }

  lemma OldCopyStays(v: Levels, k: Key, ino: nat)
    requires LevelsOk(v) && Short(k) && On(v.one, k) && On(v.two, k)
    ensures exists n :: Says(v, k, n) && Says(Entered(v, k, ino), k, n) && Slot(k, n, true) in v.one
  {
    EnteredAlone(v, k, ino, ino);
    var n := v.one[Place(v.one, k)].ino;
    assert v.one[Place(v.one, k)] == Slot(k, n, true);
    assert Says(v, k, n) && Says(Entered(v, k, ino), k, n);
  }

  // ----- how a copy on level 2 is driven out while one on level 1 stays

  /** Searches for keys the records answer with 0. */
  function ConsultedAll(v: Levels, keys: seq<Key>): Levels {
    if keys == [] then v else Consulted(ConsultedAll(v, keys[..|keys| - 1]), keys[|keys| - 1], 0)
  }

  /** The key is in the first m places, if at all. */
  ghost predicate Early(q: seq<Slot>, k: Key, m: nat) {
    forall i | m <= i < |q| :: !(q[i].hashed && q[i].key == k)
  }

  /** The slot is in place m or later. */
  ghost predicate Late(q: seq<Slot>, x: Slot, m: nat) {
    exists i :: m <= i < |q| && q[i] == x
  }

  /** Every copy of the key has the inode number. */
  ghost predicate AllSay(v: Levels, k: Key, ino: nat) {
    forall n | Says(v, k, n) :: n == ino
  }

  /** Replacing another slot moves one at most one place forward. */
  lemma LateRenewed(q: seq<Slot>, i: nat, x: Slot, y: Slot, m: nat)
    requires i < |q| && Late(q, y, m) && m > 0 && (i == 0 || q[i] != y)
    ensures Late(Renewed(q, i, x), y, m - 1)
  {
    InRenewed(q, i, x);
    var p :| m <= p < |q| && q[p] == y;
    hide Renewed;
    if p < i {
      assert Renewed(q, i, x)[p] == y;
    } else {
      assert Renewed(q, i, x)[p - 1] == y;
    }
  }

  lemma LateEntered(v: Levels, j: Key, ino: nat, y: Slot, m: nat)
    requires j != y.key && m > 0
    ensures Late(v.one, y, m) ==> Late(Entered(v, j, ino).one, y, m - 1)
    ensures Late(v.two, y, m) ==> Late(Entered(v, j, ino).two, y, m - 1)
  {
    hide Renewed;
    var x := Slot(j, ino, true);
    if Late(v.two, y, m) && On(v.two, j) {
      LateRenewed(v.two, Place(v.two, j), x, y, m);
    }
    if Late(v.one, y, m) {
      LateRenewed(v.one, if On(v.one, j) then Place(v.one, j) else 0, x, y, m);
    }
  }

  lemma LateLookedUp(v: Levels, j: Key, y: Slot, m: nat)
    requires j != y.key && m > 0
    ensures Late(v.two, y, m) ==> Late(LookedUp(v, j).two, y, m - 1)
  {
    hide Renewed;
    if Late(v.two, y, m) {
      if On(v.two, j) {
        LateRenewed(v.two, Place(v.two, j), v.two[Place(v.two, j)], y, m);
      } else if On(v.one, j) {
        LateRenewed(v.two, 0, v.one[Place(v.one, j)], y, m);
      }
    }
  }

  lemma LateConsulted(v: Levels, j: Key, ino: nat, y: Slot, m: nat)
    requires j != y.key && m > 0
    ensures Late(v.one, y, m) ==> Late(Consulted(v, j, ino).one, y, m - 1)
    ensures Late(v.two, y, m) ==> Late(Consulted(v, j, ino).two, y, m - 1)
  {
    LateEntered(v, j, ino, y, m);
    LateLookedUp(v, j, y, m);
    hide Renewed, Place;
  }

  lemma OnRenewed(q: seq<Slot>, i: nat, x: Slot, j: Key)
    requires i < |q| && x.hashed && On(Renewed(q, i, x), j)
    ensures On(q, j) || j == x.key
  {
    var r := Renewed(q, i, x);
    InRenewed(q, i, x);
    var p := Place(r, j);
    hide Renewed, Place;
    if p < |q| - 1 {
      OnAt(q, j, if p < i then p else p + 1);
    }
  }

  /** A hit on level 1 pushes everything on level 2 one place forward. */
  lemma MoveStep(v: Levels, k: Key, other: Key, m: nat)
    requires Short(k) && On(v.one, k) && !On(v.two, k) && k != other && |v.two| == SIZE && Early(v.two, other, m) && m > 0
    ensures var w := Consulted(v, k, 0);
            && w.one == v.one && |w.two| == SIZE && Early(w.two, other, m - 1)
            && forall j | On(w.two, j) :: On(v.two, j) || j == k
  {
    var x := v.one[Place(v.one, k)];
    InRenewed(v.two, 0, x);
    forall j | On(Renewed(v.two, 0, x), j)
      ensures On(v.two, j) || j == k
    {
      OnRenewed(v.two, 0, x, j);
    }
    hide Renewed, Place;
  }

  /** A miss pushes everything on level 1 one place forward. */
  lemma MissStep(v: Levels, k: Key, ino: nat, x: Slot, m: nat)
    requires Short(k) && !On(v.one, k) && !On(v.two, k) && |v.one| == SIZE && Late(v.one, x, m) && m > 0
    ensures var w := Consulted(v, k, ino);
            && w.two == v.two && |w.one| == SIZE && Late(w.one, x, m - 1) && On(w.one, k)
            && forall j | On(w.one, j) :: On(v.one, j) || j == k
  {
    var y := Slot(k, ino, true);
    InRenewed(v.one, 0, y);
    var i :| m <= i < SIZE && v.one[i] == x;
    assert Renewed(v.one, 0, y)[i - 1] == x;
    OnAt(Renewed(v.one, 0, y), k, SIZE - 1);
    forall j | On(Renewed(v.one, 0, y), j)
      ensures On(v.one, j) || j == k
    {
      OnRenewed(v.one, 0, y, j);
    }
    hide Renewed, Place;
  }

  ghost predicate AllShort(keys: seq<Key>) {
    forall i | 0 <= i < |keys| :: Short(keys[i])
  }

  ghost predicate NoTwo(keys: seq<Key>) {
    forall i, j | 0 <= i < j < |keys| :: keys[i] != keys[j]
  }

  lemma {:induction false} MoveAll(v: Levels, keys: seq<Key>, other: Key)
    requires AllShort(keys) && NoTwo(keys) && |v.two| == SIZE && |keys| <= SIZE && other !in keys
    requires forall i | 0 <= i < |keys| :: On(v.one, keys[i]) && !On(v.two, keys[i])
    ensures var w := ConsultedAll(v, keys);
            && w.one == v.one && |w.two| == SIZE && Early(w.two, other, SIZE - |keys|)
            && forall j | On(w.two, j) :: On(v.two, j) || j in keys
  {
    if keys != [] {
      var n := |keys| - 1;
      MoveAll(v, keys[..n], other);
      assert keys[n] !in keys[..n];
      hide Early, Consulted, On;
      MoveStep(ConsultedAll(v, keys[..n]), keys[n], other, SIZE - n);
    }
  }

  /** Each key of the list twice in a row. */
  function Twice(keys: seq<Key>): seq<Key> {
    if keys == [] then [] else Twice(keys[..|keys| - 1]) + [keys[|keys| - 1], keys[|keys| - 1]]
  }

  lemma ConsultedTwice(v: Levels, keys: seq<Key>, k: Key)
    ensures ConsultedAll(v, keys + [k, k]) == Consulted(Consulted(ConsultedAll(v, keys), k, 0), k, 0)
  {
    var all := keys + [k, k];
    assert all[..|all| - 1] == keys + [k] && (keys + [k])[..|keys|] == keys;
  }

  /** Short keys, each once, that neither level has. */
  ghost predicate Unknown(v: Levels, keys: seq<Key>) {
    AllShort(keys) && NoTwo(keys) && forall i | 0 <= i < |keys| :: !On(v.one, keys[i]) && !On(v.two, keys[i])
  }

  /** The queue r has no keys but those of q and the given ones. */
  ghost predicate Grown(q: seq<Slot>, r: seq<Slot>, keys: seq<Key>) {
    forall j | On(r, j) :: On(q, j) || j in keys
  }

  lemma LastUnknown(v: Levels, u: Levels, keys: seq<Key>)
    requires Unknown(v, keys) && keys != []
    ensures var n := |keys| - 1;
            && Unknown(v, keys[..n]) && Short(keys[n])
            && (Grown(v.one, u.one, keys[..n]) ==> !On(u.one, keys[n]))
            && (Grown(v.two, u.two, keys[..n]) ==> !On(u.two, keys[n]))
  {
  }

  lemma GrownMore(q: seq<Slot>, r: seq<Slot>, s: seq<Slot>, keys: seq<Key>)
    requires keys != [] && Grown(q, r, keys[..|keys| - 1])
    requires forall j | On(s, j) :: On(r, j) || j == keys[|keys| - 1]
    ensures Grown(q, s, keys)
  {
  }

  lemma {:induction false} TwiceAll(v: Levels, keys: seq<Key>, other: Key, m: nat, x: Slot, room: nat)
    requires Unknown(v, keys) && |v.two| == SIZE == |v.one| && |keys| <= m <= SIZE && other !in keys
    requires Early(v.two, other, m) && Late(v.one, x, room) && |keys| <= room
    ensures var w := ConsultedAll(v, Twice(keys));
            && |w.one| == SIZE == |w.two| && Early(w.two, other, m - |keys|) && Late(w.one, x, room - |keys|)
            && Grown(v.one, w.one, keys) && Grown(v.two, w.two, keys)
  {
    hide Early, Late, Consulted, On, Unknown;
    if keys != [] {
      var n := |keys| - 1;
      LastUnknown(v, v, keys);
      TwiceAll(v, keys[..n], other, m, x, room);
      var u := ConsultedAll(v, Twice(keys[..n]));
      LastUnknown(v, u, keys);
      ConsultedTwice(v, Twice(keys[..n]), keys[n]);
      hide Grown;
      TwiceStep(u, keys[n], other, m - n, x, room - n);
      GrownMore(v.one, u.one, ConsultedAll(v, Twice(keys)).one, keys);
      GrownMore(v.two, u.two, ConsultedAll(v, Twice(keys)).two, keys);
    }
  }

  lemma TwiceStep(v: Levels, k: Key, other: Key, m: nat, x: Slot, room: nat)
    requires Short(k) && k != other && |v.two| == SIZE == |v.one| && !On(v.one, k) && !On(v.two, k)
    requires Early(v.two, other, m) && Late(v.one, x, room) && m > 0 && room > 0
    ensures var w := Consulted(Consulted(v, k, 0), k, 0);
            && |w.one| == SIZE == |w.two| && Early(w.two, other, m - 1) && Late(w.one, x, room - 1)
            && (forall j | On(w.one, j) :: On(v.one, j) || j == k)
            && (forall j | On(w.two, j) :: On(v.two, j) || j == k)
  {
    hide Early, Late, Consulted, On;
    MissStep(v, k, 0, x, room);
    MoveStep(Consulted(v, k, 0), k, other, m);
  }

  /** Enough searches drive out the level 2 copy of a key and leave the level 1 copy, which is then
      what is found. */
  lemma Buried(v: Levels, known: seq<Key>, more: seq<Key>, k: Key, ino: nat)
    requires LevelsOk(v) && Short(k) && |known| + |more| == SIZE
    requires AllShort(known) && NoTwo(known) && k !in known && k !in more
    requires forall i | 0 <= i < |known| :: On(v.one, known[i]) && !On(v.two, known[i])
    requires Unknown(v, more) && forall i | 0 <= i < |more| :: more[i] !in known
    requires Late(v.one, Slot(k, ino, true), |more|)
    ensures Cached(ConsultedAll(ConsultedAll(v, known), Twice(more)), k) == Some(ino)
  {
    hide Consulted, On, Early, Late, ConsultedAll, Twice, LevelsOk, Cached;
    SizesAre(v);
    var u := ConsultedAll(v, known);
    MoveAll(v, known, k);
    StillUnknown(v, u, known, more);
    TwiceAll(u, more, k, |more|, Slot(k, ino, true), |more|);
    var w := ConsultedAll(u, Twice(more));
    ConsultedAllOk(v, known);
    ConsultedAllOk(u, Twice(more));
    OnlyOnOne(w, k, ino);
  }

  lemma StillUnknown(v: Levels, u: Levels, known: seq<Key>, more: seq<Key>)
    requires Unknown(v, more) && forall i | 0 <= i < |more| :: more[i] !in known
    requires u.one == v.one && forall j | On(u.two, j) :: On(v.two, j) || j in known
    ensures Unknown(u, more)
  {
    hide On;
  }

  lemma OnlyOnOne(w: Levels, k: Key, ino: nat)
    requires LevelsOk(w) && Short(k) && Early(w.two, k, 0) && Late(w.one, Slot(k, ino, true), 0)
    ensures Cached(w, k) == Some(ino)
  {
    var i :| 0 <= i < |w.one| && w.one[i] == Slot(k, ino, true);
    OnAt(w.one, k, i);
  }

  lemma {:induction false} ConsultedAllOk(v: Levels, keys: seq<Key>)
    requires LevelsOk(v)
    ensures LevelsOk(ConsultedAll(v, keys))
  {
    hide LevelsOk, Entered, LookedUp;
    if keys != [] {
      var n := |keys| - 1;
      ConsultedAllOk(v, keys[..n]);
      LookedUpOk(ConsultedAll(v, keys[..n]), keys[n]);
      EnteredOk(ConsultedAll(v, keys[..n]), keys[n], 0);
    }
  }

  // ----- a run that ends with a wrong answer

  /** Names that no directory of the runs below binds. */
  function Spare(i: nat): (s: string)
    requires i < 1000
    ensures |s| == 1 && s[0] == (200 + i) as char
  {
    [(200 + i) as char]
  }

  /** The keys of the spare names a, ..., b - 1 in one version of a directory. */
  function SpareKeys(dev: nat, dir: nat, version: nat, a: nat, b: nat): (keys: seq<Key>)
    requires a <= b <= 1000
    ensures |keys| == b - a && forall i | 0 <= i < b - a :: keys[i] == Key(dev, dir, version, Spare(a + i))
  {
    seq(b - a, i requires 0 <= i < b - a => Key(dev, dir, version, Spare(a + i)))
  }

  lemma SparesApart(dev: nat, dir: nat, version: nat, a: nat, b: nat)
    requires a <= b <= 1000
    ensures AllShort(SpareKeys(dev, dir, version, a, b)) && NoTwo(SpareKeys(dev, dir, version, a, b))
  {
    var keys := SpareKeys(dev, dir, version, a, b);
    forall i, j | 0 <= i < j < |keys|
      ensures keys[i] != keys[j]
    {
      assert Spare(a + i)[0] != Spare(a + j)[0];
    }
  }

  /** The queue ends with the keys, each with number 0. */
  ghost predicate EndsWith(q: seq<Slot>, keys: seq<Key>) {
    |keys| <= |q| == SIZE && forall i | 0 <= i < |keys| :: q[SIZE - |keys| + i] == Slot(keys[i], 0, true)
  }

  lemma NothingOn(q: seq<Slot>, k: Key)
    requires forall i | 0 <= i < |q| :: !q[i].hashed
    ensures !On(q, k)
  {
  }

  lemma EndsWithMore(q: seq<Slot>, keys: seq<Key>)
    requires keys != [] && EndsWith(q, keys[..|keys| - 1]) && |keys| <= SIZE
    ensures EndsWith(Renewed(q, 0, Slot(keys[|keys| - 1], 0, true)), keys)
  {
    InRenewed(q, 0, Slot(keys[|keys| - 1], 0, true));
    hide Renewed;
  }

  /** Searches for unknown names fill level 1 from the end. */
  lemma {:induction false} PushedIn(v: Levels, keys: seq<Key>)
    requires Unknown(v, keys) && |keys| <= SIZE == |v.one|
    ensures var w := ConsultedAll(v, keys);
            EndsWith(w.one, keys) && w.two == v.two && Grown(v.one, w.one, keys)
  {
    if keys != [] {
      var n := |keys| - 1;
      LastUnknown(v, v, keys);
      PushedIn(v, keys[..n]);
      var u := ConsultedAll(v, keys[..n]);
      LastUnknown(v, u, keys);
      EndsWithMore(u.one, keys);
      var x := Slot(keys[n], 0, true);
      forall j | On(Renewed(u.one, 0, x), j)
        ensures On(u.one, j) || j == keys[n]
      {
        OnRenewed(u.one, 0, x, j);
      }
      hide Renewed, EndsWith, On, Unknown, Place;
      GrownMore(v.one, u.one, ConsultedAll(v, keys).one, keys);
    }
  }

  /** The keys, then the ".." of some directory, listed after them. */
  lemma ListedLast(v: Levels, keys: seq<Key>, k: Key, ino: nat)
    requires EndsWith(v.one, keys) && |keys| == SIZE - 1 && Short(k) && !On(v.one, k) && !On(v.two, k)
    ensures var w := Entered(v, k, ino);
            && w.two == v.two && |w.one| == SIZE && w.one[SIZE - 1] == Slot(k, ino, true)
            && forall i | 0 <= i < SIZE - 1 :: w.one[i] == Slot(keys[i], 0, true)
  {
    InRenewed(v.one, 0, Slot(k, ino, true));
    forall i | 0 <= i < SIZE - 1
      ensures Renewed(v.one, 0, Slot(k, ino, true))[i] == Slot(keys[i], 0, true)
    {
      assert v.one[SIZE - |keys| + i] == v.one[i + 1];
    }
    hide Renewed, Place;
  }

  /** Looked up and then corrected: level 2 has the new number, level 1 still the old one. */
  lemma CorrectedOnTwo(v: Levels, k: Key, answer: nat, ino: nat)
    requires |v.two| == SIZE && Short(k) && On(v.one, k) && !On(v.two, k)
    ensures var w := Entered(Consulted(v, k, answer), k, ino);
            w.one == v.one && |w.two| == SIZE && On(w.two, k) && forall j | On(w.two, j) :: On(v.two, j) || j == k
  {
    var x := v.one[Place(v.one, k)];
    var u := Consulted(v, k, answer);
    InRenewed(v.two, 0, x);
    OnAt(u.two, k, SIZE - 1);
    InRenewed(u.two, Place(u.two, k), Slot(k, ino, true));
    var w := Entered(u, k, ino);
    OnAt(w.two, k, SIZE - 1);
    forall j | On(w.two, j)
      ensures On(v.two, j) || j == k
    {
      OnRenewed(u.two, Place(u.two, k), Slot(k, ino, true), j);
      OnlyMoved(v.two, x, j);
    }
    hide Renewed, Place;
  }

  lemma OnlyMoved(q: seq<Slot>, x: Slot, j: Key)
    requires q != [] && x.hashed
    ensures On(Renewed(q, 0, x), j) ==> On(q, j) || j == x.key
  {
    if On(Renewed(q, 0, x), j) {
      OnRenewed(q, 0, x, j);
    }
  }

  lemma StaleFound(v: Levels, keys: seq<Key>, more: Key, k: Key, ino: nat)
    requires LevelsOk(v) && Short(k) && |keys| == SIZE - 1
    requires AllShort(keys + [more]) && NoTwo(keys + [more]) && k !in keys + [more]
    requires v.one[SIZE - 1] == Slot(k, ino, true) && forall i | 0 <= i < SIZE - 1 :: v.one[i] == Slot(keys[i], 0, true)
    requires forall j | On(v.two, j) :: j == k
    ensures Cached(ConsultedAll(ConsultedAll(v, keys), Twice([more])), k) == Some(ino)
  {
    hide Consulted, On, ConsultedAll, Twice, LevelsOk;
    Split(keys, more);
    SizesAre(v);
    LevelOneIs(v.one, keys, k, ino, more);
    assert v.one[SIZE - 1] == Slot(k, ino, true);
    Buried(v, keys, [more], k, ino);
  }

  lemma SizesAre(v: Levels)
    requires LevelsOk(v)
    ensures |v.one| == SIZE == |v.two|
  {
  }

  lemma Split(keys: seq<Key>, more: Key)
    requires AllShort(keys + [more]) && NoTwo(keys + [more])
    ensures AllShort(keys) && NoTwo(keys) && Short(more) && more !in keys
    ensures forall k :: k !in keys + [more] ==> k !in keys && k != more
  {
    var all := keys + [more];
    assert all[|keys|] == more && forall i | 0 <= i < |keys| :: all[i] == keys[i];
    assert forall i | 0 <= i < |keys| :: keys[i] in all;
  }

  lemma LevelOneIs(q: seq<Slot>, keys: seq<Key>, k: Key, ino: nat, other: Key)
    requires |q| == SIZE && |keys| == SIZE - 1 && other !in keys && other != k
    requires q[SIZE - 1] == Slot(k, ino, true) && forall i | 0 <= i < SIZE - 1 :: q[i] == Slot(keys[i], 0, true)
    ensures (forall i | 0 <= i < SIZE - 1 :: On(q, keys[i])) && !On(q, other)
  {
    forall i | 0 <= i < SIZE - 1
      ensures On(q, keys[i])
    {
      OnAt(q, keys[i], i);
    }
    hide Place;
  }

  lemma ConsultedNext(v: Levels, keys: seq<Key>, n: nat)
    requires n < |keys|
    ensures ConsultedAll(v, keys[..n + 1]) == Consulted(ConsultedAll(v, keys[..n]), keys[n], 0)
  {
    assert keys[..n + 1][..n] == keys[..n];
  }

  lemma SpareFacts(l: Lookups, d: (nat, nat), i: nat)
    requires d in l.dirs && i < 1000
    ensures l.KeyOf(d, Spare(i)) == Key(d.0, d.1, l.dirs[d].version, Spare(i))
    ensures l.dirs[d].blocks == [] ==> l.Answer(d, Spare(i)) == 0
  {
  }

  /** Looks up the spare names a, ..., b - 1 of a directory that does not bind them. */
  method LookupSpares(l: Lookups, d: (nat, nat), a: nat, b: nat)
    requires l.Valid() && d in l.dirs && l.dirs[d].blocks == [] && a <= b <= 1000
    modifies l, l.cache
    ensures l.Valid() && l.dirs == old(l.dirs)
    ensures l.cache.View() == ConsultedAll(old(l.cache.View()), SpareKeys(d.0, d.1, l.dirs[d].version, a, b))
  {
    hide *;
    CacheValid(l);
    ghost var v, keys := l.cache.View(), SpareKeys(d.0, d.1, l.dirs[d].version, a, b);
    NoKeys(v);
    for i := a to b
      invariant l.Valid() && l.dirs == old(l.dirs)
      invariant l.cache.Valid()
      invariant l.cache.View() == ConsultedAll(v, keys[..i - a])
    {
      SpareFacts(l, d, i);
      ConsultedNext(v, keys, i - a);
      var ino := l.Lookup(d, Spare(i));
      CacheValid(l);
      SpareFacts(l, d, i);
    }
    assert keys[..b - a] == keys;
  }

  lemma NoKeys(v: Levels)
    ensures ConsultedAll(v, []) == v && forall keys: seq<Key> :: ConsultedAll(v, keys[..0]) == v
  {
  }

  lemma CacheValid(l: Lookups)
    requires l.Valid()
    ensures l.cache.Valid()
  {
  }

  lemma OneTwice(v: Levels, k: Key)
    ensures ConsultedAll(v, Twice([k])) == Consulted(Consulted(v, k, 0), k, 0)
  {
    assert [k][..0] == [] && Twice([k]) == [] + [k, k];
    ConsultedTwice(v, [], k);
  }

  /** The first directory of the run binds nothing; the second is x in its parent. */
  predicate Setting(dirs: Dirs, r: (nat, nat), d: (nat, nat), parent: nat) {
    && r in dirs && d in dirs && r != d && dirs[r].blocks == []
    && dirs[d].blocks == [[Records.Rec(d.1, 12, "."), Records.Rec(parent, 1012, "..")]]
  }

  lemma SettingFacts(dirs: Dirs, r: (nat, nat), d: (nat, nat), parent: nat, other: nat)
    requires Setting(dirs, r, d, parent) && d.1 > 0 && parent > 0 && other > 0
    ensures Directory.StartsWithDots(dirs[d].blocks, d.1) && Directory.At(dirs[d].blocks, 0, 1)
    ensures dirs[d].blocks[0][1] == Records.Rec(parent, 1012, "..")
    ensures Directory.Answer(dirs[d].blocks, "..", false) == parent
    ensures Setting(dirs[d := Dir(dirs[d].version, Directory.Reparented(dirs[d].blocks, other))], r, d, other)
  {
    ReparentedAnswers(dirs[d].blocks, d.1, other, "..", false);
    var b := dirs[d].blocks[0];
    assert b[1 := b[1].(ino := other)] == [b[0], b[1].(ino := other)];
  }

  /** What the cache goes through in the run below. */
  lemma StaleRun(v: Levels, keys: seq<Key>, more: Key, k: Key, was: nat, ino: nat)
    requires LevelsOk(v) && Short(k) && |keys| == SIZE - 1 && AllShort(keys + [more]) && NoTwo(keys + [more]) && k !in keys + [more]
    requires forall i | 0 <= i < SIZE :: !v.one[i].hashed && !v.two[i].hashed
    ensures var w := Entered(Consulted(Entered(ConsultedAll(v, keys), k, was), k, was), k, ino);
            Cached(ConsultedAll(ConsultedAll(w, keys), Twice([more])), k) == Some(was)
  {
    hide Consulted, Entered, ConsultedAll, Twice, On;
    Split(keys, more);
    forall j
      ensures !On(v.one, j) && !On(v.two, j)
    {
      NothingOn(v.one, j);
      NothingOn(v.two, j);
    }
    PushedIn(v, keys);
    var v1 := ConsultedAll(v, keys);
    assert k !in keys && !On(v1.one, k);
    ListedLast(v1, keys, k, was);
    var v2 := Entered(v1, k, was);
    OnAt(v2.one, k, SIZE - 1);
    CorrectedOnTwo(v2, k, was, ino);
    ConsultedAllOk(v, keys);
    EnteredOk(v1, k, was);
    ConsultedOk(v2, k, was);
    EnteredOk(Consulted(v2, k, was), k, ino);
    StaleFound(Entered(Consulted(v2, k, was), k, ino), keys, more, k, was);
  }

  lemma ConsultedOk(v: Levels, k: Key, ino: nat)
    requires LevelsOk(v)
    ensures LevelsOk(Consulted(v, k, ino))
  {
    LookedUpOk(v, k);
    EnteredOk(v, k, ino);
    hide LevelsOk, LookedUp, Entered;
  }

  lemma SparesAre(dev: nat, dir: nat, version: nat, k: Key, n: nat)
    requires n < 1000 && |k.name| == 2
    ensures var keys, more := SpareKeys(dev, dir, version, 0, n), Key(dev, dir, version, Spare(n));
            AllShort(keys + [more]) && NoTwo(keys + [more]) && k !in keys + [more]
  {
    SparesApart(dev, dir, version, 0, n + 1);
    assert SpareKeys(dev, dir, version, 0, n) + [Key(dev, dir, version, Spare(n))] == SpareKeys(dev, dir, version, 0, n + 1);
  }

  /** A run after which a lookup of ".." gives the former parent: the directory is listed and ".."
      looked up, it moves from directory 2 to directory 13, and other lookups drive out the copy on
      level 2, the only one that was corrected. */
  method StaleParent() returns (l: Lookups, d: (nat, nat), ino: nat)
    ensures fresh(l) && fresh(l.cache) && l.Valid() && d in l.dirs
    ensures ino == 2 && Directory.Answer(l.dirs[d].blocks, "..", l.caseless) == 13
  {
    hide *;
    Sizes();
    l := new Lookups(false);
    CacheValid(l);
    l.cache.ViewOk();
    ghost var v := l.cache.View();
    var r: (nat, nat);
    r, d := (0, 2), (0, 12);
    l.Load(r, []);
    l.Load(d, [[Records.Rec(12, 12, "."), Records.Rec(2, 1012, "..")]]);
    SettingIs(l.dirs, r, d, 2);
    SettingFacts(l.dirs, r, d, 2, 13);
    ghost var k := l.KeyOf(d, "..");
    KeyIs(l, d, "..");
    ghost var keys, more := SpareKeys(0, 2, l.dirs[r].version, 0, SIZE - 1), Key(0, 2, l.dirs[r].version, Spare(SIZE - 1));
    SparesAre(0, 2, l.dirs[r].version, k, SIZE - 1);
    StaleRun(v, keys, more, k, 2, 13);
    LookupSpares(l, r, 0, SIZE - 1);
    l.List(d, 0, 1);
    KeyIs(l, d, "..");
    ino := l.Lookup(d, "..");
    KeyIs(l, d, "..");
    AnswerIs(l, d, "..");
    l.Reparent(d, 13);
    SettingFacts(l.dirs, r, d, 13, 13);
    LookupSpares(l, r, 0, SIZE - 1);
    ino := l.Lookup(r, Spare(SIZE - 1));
    SpareFacts(l, r, SIZE - 1);
    ino := l.Lookup(r, Spare(SIZE - 1));
    SpareFacts(l, r, SIZE - 1);
    OneTwice(ConsultedAll(Entered(Consulted(Entered(ConsultedAll(v, keys), k, 2), k, 2), k, 13), keys), more);
    ino := l.Lookup(d, "..");
    KeyIs(l, d, "..");
  }

  lemma Sizes()
    ensures SIZE == 128 && NAME_MAX == 15
  {
  }

  lemma KeyIs(l: Lookups, d: (nat, nat), name: string)
    requires d in l.dirs
    ensures l.KeyOf(d, name) == Key(d.0, d.1, l.dirs[d].version, name) && (|name| <= NAME_MAX ==> Short(l.KeyOf(d, name)))
  {
  }

  lemma AnswerIs(l: Lookups, d: (nat, nat), name: string)
    requires d in l.dirs
    ensures l.Answer(d, name) == Directory.Answer(l.dirs[d].blocks, name, l.caseless)
  {
  }

  lemma SettingIs(dirs: Dirs, r: (nat, nat), d: (nat, nat), parent: nat)
    requires r in dirs && d in dirs && r != d && dirs[r].blocks == []
    requires dirs[d].blocks == [[Records.Rec(d.1, 12, "."), Records.Rec(parent, 1012, "..")]]
    ensures Setting(dirs, r, d, parent)
  {
  }
}
