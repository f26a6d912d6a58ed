/** When the walk of subdir ends. It reads ".." through the cache, and each reading changes the
    cache; still, as long as it has been at no more directories than a level has slots, it reads the
    same at each of them again. So once it comes back to one of them it goes round for ever. */
module WalkEnds {
  import opened DirTree
  import opened Namei
  import Dcache

  /** Where the walk is, and what the cache is by then. */
  datatype Stage = Stage(at: nat, view: Dcache.Levels)

  /** After n steps of the walk, or where it cannot go on. */
  ghost function StageOf(t: Nodes, versions: Versions, dev: nat, v: Dcache.Levels, cur: nat, n: nat): Stage
    requires AllStamped(t, versions)
    decreases n
  {
    if n == 0 || !IsDir(t, cur) then Stage(cur, v)
    else
      var k, told := ParentKey(dev, versions, cur), ToldParent(t, cur);
      StageOf(t, versions, dev, Dcache.Consulted(v, k, told), SeenParent(v, k, told), n - 1)
  }

  /** The walk is still going on after n steps. */
  ghost predicate Goes(t: Nodes, versions: Versions, dev: nat, v: Dcache.Levels, cur: nat, a: nat, n: nat)
    requires AllStamped(t, versions)
  {
    Walk(t, versions, dev, v, cur, a, n).0 == Walking
  }

  ghost predicate NeverEnds(t: Nodes, versions: Versions, dev: nat, v: Dcache.Levels, cur: nat, a: nat)
    requires AllStamped(t, versions)
  {
    forall n: nat :: Goes(t, versions, dev, v, cur, a, n)
  }

  /** What of the cache makes sure that the next answer for d is x: a copy on level 2 that is not
      about to be replaced, or that everything says x. age is how long ago d was asked for. */
  ghost predicate Holds(t: Nodes, versions: Versions, dev: nat, v: Dcache.Levels, d: nat, x: nat, age: nat)
    requires AllStamped(t, versions) && IsDir(t, d)
  {
    var k := ParentKey(dev, versions, d);
    || (age <= Dcache.SIZE && Dcache.Late(v.two, Dcache.Slot(k, x, true), Dcache.SIZE - age))
    || (ToldParent(t, d) == x && Dcache.AllSay(v, k, x))
  }

  /** A copy on level 2 is what a search finds and moves to the end. */
  lemma TopCopy(v: Dcache.Levels, k: Dcache.Key, x: nat, told: nat)
    requires Dcache.LevelsOk(v) && Dcache.Late(v.two, Dcache.Slot(k, x, true), 0) && Dcache.Short(k)
    ensures Dcache.Cached(v, k) == Dcache.Some(x)
    ensures Dcache.Late(Dcache.Consulted(v, k, told).two, Dcache.Slot(k, x, true), Dcache.SIZE - 1)
  {
    var i :| 0 <= i < |v.two| && v.two[i] == Dcache.Slot(k, x, true);
    Dcache.OnAt(v.two, k, i);
    assert Dcache.Place(v.two, k) == i;
    LastOnTwo(v, k, told, x);
    hide Dcache.Consulted, Dcache.Place, Dcache.Cached;
  }

  lemma AllSayKept(v: Dcache.Levels, j: Dcache.Key, ino: nat, k: Dcache.Key, x: nat)
    requires Dcache.AllSay(v, k, x) && (j == k ==> ino == x)
    ensures Dcache.AllSay(Dcache.Consulted(v, j, ino), k, x) && Dcache.AllSay(Dcache.Entered(v, j, ino), k, x)
  {
    hide Dcache.Says, Dcache.Consulted, Dcache.Entered;
    forall n
      ensures Dcache.Says(Dcache.Consulted(v, j, ino), k, n) ==> n == x
      ensures Dcache.Says(Dcache.Entered(v, j, ino), k, n) ==> n == x
    {
      if Dcache.Says(Dcache.Consulted(v, j, ino), k, n) {
        Dcache.ConsultedSays(v, j, ino, k, n);
      }
      if Dcache.Says(Dcache.Entered(v, j, ino), k, n) {
        Dcache.EnteredSays(v, j, ino, k, n);
      }
    }
  }

  lemma AllSaySeen(v: Dcache.Levels, k: Dcache.Key, x: nat)
    requires Dcache.AllSay(v, k, x)
    ensures SeenParent(v, k, x) == x
  {
    hide Dcache.Says, Dcache.Cached;
    Dcache.CachedSays(v, k);
  }

  /** What was read just now is held. */
  lemma FirstRead(t: Nodes, versions: Versions, dev: nat, v: Dcache.Levels, d: nat)
    requires AllStamped(t, versions) && IsDir(t, d) && Dcache.LevelsOk(v)
    ensures var k, told := ParentKey(dev, versions, d), ToldParent(t, d);
            Holds(t, versions, dev, Dcache.Consulted(v, k, told), d, SeenParent(v, k, told), 1)
  {
    hide Dcache.Consulted, Dcache.Cached, Dcache.Says, ToldParent;
    var k, told := ParentKey(dev, versions, d), ToldParent(t, d);
    match Dcache.Cached(v, k) {
      case Some(x) =>
        LastOnTwo(v, k, told, x);
      case None =>
        Dcache.CachedSays(v, k);
        AllSayKept(v, k, told, k, told);
    }
  }

  /** Reading ".." of e keeps what is held of d, one step older. */
  lemma HoldsOn(t: Nodes, versions: Versions, dev: nat, v: Dcache.Levels, d: nat, x: nat, age: nat, e: nat)
    requires AllStamped(t, versions) && IsDir(t, d) && IsDir(t, e) && Dcache.LevelsOk(v)
    requires Holds(t, versions, dev, v, d, x, age) && (d == e || age < Dcache.SIZE)
    ensures var k, told := ParentKey(dev, versions, e), ToldParent(t, e);
            && Holds(t, versions, dev, Dcache.Consulted(v, k, told), d, x, if d == e then 1 else age + 1)
            && (d == e ==> SeenParent(v, k, told) == x)
  {
    hide Dcache.Consulted, Dcache.Cached, Dcache.AllSay, ToldParent, Dcache.Late, Dcache.LevelsOk;
    var k, told := ParentKey(dev, versions, e), ToldParent(t, e);
    var j := ParentKey(dev, versions, d);
    var y := Dcache.Slot(j, x, true);
    if ToldParent(t, d) == x && Dcache.AllSay(v, j, x) {
      AllSayKept(v, k, told, j, x);
      AllSaySeen(v, j, x);
    } else if d == e {
      LateAnyway(v.two, y, Dcache.SIZE - age);
      TopCopy(v, j, x, told);
    } else {
      Dcache.LateConsulted(v, k, told, y, Dcache.SIZE - age);
    }
  }

  lemma LateAnyway(q: seq<Dcache.Slot>, x: Dcache.Slot, m: nat)
    requires Dcache.Late(q, x, m)
    ensures Dcache.Late(q, x, 0)
  {
  }

  /** Directories with what was read at each, the one asked for longest ago first. */
  type Trail = seq<(nat, nat)>

  ghost predicate Held(t: Nodes, versions: Versions, dev: nat, v: Dcache.Levels, trail: Trail)
    requires AllStamped(t, versions)
  {
    forall r | 0 <= r < |trail| ::
      IsDir(t, trail[r].0) && Holds(t, versions, dev, v, trail[r].0, trail[r].1, |trail| - r)
  }

  /** Each reading led to the next directory, the last to cur, and the walk does not stop there. */
  ghost predicate LeadsTo(trail: Trail, cur: nat, a: nat) {
    forall r {:trigger trail[r]} | 0 <= r < |trail| ::
      && trail[r].0 != a && trail[r].1 != 0 && trail[r].1 != trail[r].0
      && trail[r].1 == if r + 1 < |trail| then trail[r + 1].0 else cur
  }

  /** One more reading is held, and what was held before is if it is not too old, or is the one
      asked for again. */
  lemma HeldOn(t: Nodes, versions: Versions, dev: nat, v: Dcache.Levels, trail: Trail, e: nat)
    requires AllStamped(t, versions) && IsDir(t, e) && Dcache.LevelsOk(v)
    requires Held(t, versions, dev, v, trail) && |trail| < Dcache.SIZE
    ensures var k, told := ParentKey(dev, versions, e), ToldParent(t, e);
            Held(t, versions, dev, Dcache.Consulted(v, k, told), trail + [(e, SeenParent(v, k, told))])
  {
    hide Dcache.Consulted, SeenParent, ToldParent, Holds, Dcache.LevelsOk;
    var k, told := ParentKey(dev, versions, e), ToldParent(t, e);
    var w, more := Dcache.Consulted(v, k, told), trail + [(e, SeenParent(v, k, told))];
    FirstRead(t, versions, dev, v, e);
    forall r | 0 <= r < |trail|
      ensures Holds(t, versions, dev, w, trail[r].0, trail[r].1, |more| - r)
    {
      HoldsOn(t, versions, dev, v, trail[r].0, trail[r].1, |trail| - r, e);
      if trail[r].0 == e {
        HoldsLonger(t, versions, dev, w, e, trail[r].1, 1, |more| - r);
      }
    }
  }

  lemma HoldsLonger(t: Nodes, versions: Versions, dev: nat, v: Dcache.Levels, d: nat, x: nat, age: nat, more: nat)
    requires AllStamped(t, versions) && IsDir(t, d) && Holds(t, versions, dev, v, d, x, age) && age <= more <= Dcache.SIZE
    ensures Holds(t, versions, dev, v, d, x, more)
  {
  }

  /** A walk along a ring of at most as many directories as a level has slots goes on for ever. */
  lemma {:induction false} RoundForEver(t: Nodes, versions: Versions, dev: nat, v: Dcache.Levels, trail: Trail, a: nat, n: nat)
    requires AllStamped(t, versions) && Dcache.LevelsOk(v) && 0 < |trail| <= Dcache.SIZE
    requires Held(t, versions, dev, v, trail) && LeadsTo(trail, trail[0].0, a)
    ensures Goes(t, versions, dev, v, trail[0].0, a, n)
    decreases n
  {
    hide Dcache.Consulted, SeenParent, ToldParent, Holds, Dcache.LevelsOk;
    if n > 0 {
      var (d, x) := trail[0];
      var k, told := ParentKey(dev, versions, d), ToldParent(t, d);
      var w, rest := Dcache.Consulted(v, k, told), trail[1..];
      HoldsOn(t, versions, dev, v, d, x, |trail|, d);
      Dcache.ConsultedOk(v, k, told);
      assert Held(t, versions, dev, v, rest) by {
        assert forall r | 0 <= r < |rest| :: rest[r] == trail[r + 1];
      }
      HeldOn(t, versions, dev, v, rest, d);
      Turned(trail, a);
      RoundForEver(t, versions, dev, w, rest + [(d, x)], a, n - 1);
    }
  }

  lemma Turned(trail: Trail, a: nat)
    requires trail != [] && LeadsTo(trail, trail[0].0, a)
    ensures var ring := trail[1..] + [trail[0]];
            LeadsTo(ring, ring[0].0, a) && ring[0].0 == trail[0].1
  {
  }

  /** A walk that goes on until it is at home again, where it was before, goes on for ever. */
  lemma {:induction false} ComesHome(t: Nodes, versions: Versions, dev: nat, v: Dcache.Levels, trail: Trail, cur: nat, a: nat,
                                     home: nat, n: nat, m: nat)
    requires AllStamped(t, versions) && Dcache.LevelsOk(v) && |trail| + n <= Dcache.SIZE && 0 !in t
    requires Held(t, versions, dev, v, trail) && LeadsTo(trail, cur, a)
    requires if trail == [] then cur == home && n > 0 else trail[0].0 == home
    requires Goes(t, versions, dev, v, cur, a, n) && StageOf(t, versions, dev, v, cur, n).at == home
    ensures Goes(t, versions, dev, v, cur, a, m)
    decreases n
  {
    hide Dcache.Consulted, SeenParent, ToldParent, Holds, Dcache.LevelsOk;
    if trail != [] && cur == home {
      RoundForEver(t, versions, dev, v, trail, a, m);
    } else {
      var k, told := ParentKey(dev, versions, cur), ToldParent(t, cur);
      var w, up := Dcache.Consulted(v, k, told), SeenParent(v, k, told);
      Dcache.ConsultedOk(v, k, told);
      HeldOn(t, versions, dev, v, trail, cur);
      LeadsOn(trail, cur, up, a);
      var p: nat := if m == 0 then 0 else m - 1;
      ComesHome(t, versions, dev, w, trail + [(cur, up)], up, a, home, n - 1, p);
    }
  }

  lemma LeadsOn(trail: Trail, cur: nat, up: nat, a: nat)
    requires LeadsTo(trail, cur, a) && cur != a && up != 0 && up != cur
    ensures LeadsTo(trail + [(cur, up)], up, a)
  {
  }

  /** What comes after n steps of a walk is a walk from there. */
  lemma {:induction false} WalkFrom(t: Nodes, versions: Versions, dev: nat, v: Dcache.Levels, cur: nat, a: nat, n: nat, m: nat)
    requires AllStamped(t, versions) && Goes(t, versions, dev, v, cur, a, n)
    ensures var s := StageOf(t, versions, dev, v, cur, n);
            && Goes(t, versions, dev, v, cur, a, n + m) == Goes(t, versions, dev, s.view, s.at, a, m)
            && StageOf(t, versions, dev, v, cur, n + m) == StageOf(t, versions, dev, s.view, s.at, m)
            && IsDir(t, s.at) && (Dcache.LevelsOk(v) ==> Dcache.LevelsOk(s.view))
    decreases n
  {
    hide Dcache.Consulted, SeenParent, ToldParent, Dcache.LevelsOk;
    if n > 0 {
      var k, told := ParentKey(dev, versions, cur), ToldParent(t, cur);
      if Dcache.LevelsOk(v) {
        Dcache.ConsultedOk(v, k, told);
      }
      WalkFrom(t, versions, dev, Dcache.Consulted(v, k, told), SeenParent(v, k, told), a, n - 1, m);
    }
  }

  lemma {:induction false} GoesBefore(t: Nodes, versions: Versions, dev: nat, v: Dcache.Levels, cur: nat, a: nat, n: nat, m: nat)
    requires AllStamped(t, versions) && Goes(t, versions, dev, v, cur, a, n) && m <= n
    ensures Goes(t, versions, dev, v, cur, a, m)
    decreases n
  {
    hide Dcache.Consulted, SeenParent, ToldParent;
    if m > 0 {
      var k, told := ParentKey(dev, versions, cur), ToldParent(t, cur);
      GoesBefore(t, versions, dev, Dcache.Consulted(v, k, told), SeenParent(v, k, told), a, n - 1, m - 1);
    }
  }

  /** The walk is at the same directory after i and after j steps. */
  ghost predicate ComesBack(t: Nodes, versions: Versions, dev: nat, v: Dcache.Levels, cur: nat, a: nat, i: nat, j: nat)
    requires AllStamped(t, versions)
  {
    && i < j && Goes(t, versions, dev, v, cur, a, j)
    && StageOf(t, versions, dev, v, cur, i).at == StageOf(t, versions, dev, v, cur, j).at
  }

  /** A walk that comes back to a directory within as many steps as a level has slots never ends. */
  lemma ComesBackForEver(t: Nodes, versions: Versions, dev: nat, v: Dcache.Levels, cur: nat, a: nat, i: nat, j: nat)
    requires AllStamped(t, versions) && Dcache.LevelsOk(v) && 0 !in t
    requires ComesBack(t, versions, dev, v, cur, a, i, j) && j - i <= Dcache.SIZE
    ensures NeverEnds(t, versions, dev, v, cur, a)
  {
    hide Walk, Dcache.LevelsOk;
    GoesBefore(t, versions, dev, v, cur, a, j, i);
    WalkFrom(t, versions, dev, v, cur, a, i, j - i);
    var s := StageOf(t, versions, dev, v, cur, i);
    forall n: nat
      ensures Goes(t, versions, dev, v, cur, a, n)
    {
      if n <= i {
        GoesBefore(t, versions, dev, v, cur, a, j, n);
      } else {
        WalkFrom(t, versions, dev, v, cur, a, i, n - i);
        ComesHome(t, versions, dev, s.view, [], s.at, a, s.at, j - i, n - i);
      }
    }
  }

  ghost function Dirs(t: Nodes): set<nat> {
    set d | d in t && t[d].isDir
  }

  /** Of more numbers than a set has, two are the same. */
  lemma {:induction false} Pigeons<T(!new)>(s: seq<T>, u: set<T>) returns (i: nat, j: nat)
    requires |s| > |u| && forall i | 0 <= i < |s| :: s[i] in u
    ensures i < j < |s| && s[i] == s[j]
    decreases |s|
  {
    j := |s| - 1;
    if x :| 0 <= x < j && s[x] == s[j] {
      i := x;
    } else {
      i, j := Pigeons(s[..j], u - {s[j]});
    }
  }

  /** With at most as many directories as a level has slots the walk ends exactly if it comes back to
      none of them, and then it takes fewer steps than there are directories. */
  lemma EndsIff(t: Nodes, versions: Versions, dev: nat, v: Dcache.Levels, cur: nat, a: nat)
    requires AllStamped(t, versions) && Dcache.LevelsOk(v) && 0 !in t && |Dirs(t)| <= Dcache.SIZE
    ensures NeverEnds(t, versions, dev, v, cur, a) <==> Goes(t, versions, dev, v, cur, a, |Dirs(t)|)
    ensures NeverEnds(t, versions, dev, v, cur, a) <==> exists i: nat, j: nat :: ComesBack(t, versions, dev, v, cur, a, i, j)
  {
    hide Walk, Dcache.LevelsOk;
    var n := |Dirs(t)|;
    if Goes(t, versions, dev, v, cur, a, n) {
      var i, j := Returns(t, versions, dev, v, cur, a);
      ComesBackForEver(t, versions, dev, v, cur, a, i, j);
    } else if i: nat, j: nat :| ComesBack(t, versions, dev, v, cur, a, i, j) {
      if j <= n {
        ComesBackForEver(t, versions, dev, v, cur, a, i, j);
      } else {
        GoesBefore(t, versions, dev, v, cur, a, j, n);
      }
    }
  }

  lemma Returns(t: Nodes, versions: Versions, dev: nat, v: Dcache.Levels, cur: nat, a: nat) returns (i: nat, j: nat)
    requires AllStamped(t, versions) && Goes(t, versions, dev, v, cur, a, |Dirs(t)|)
    ensures j <= |Dirs(t)| && ComesBack(t, versions, dev, v, cur, a, i, j)
  {
    hide Walk, StageOf;
    var n := |Dirs(t)|;
    var s := seq(n + 1, i requires 0 <= i <= n => StageOf(t, versions, dev, v, cur, i).at);
    forall i | 0 <= i <= n
      ensures s[i] in Dirs(t)
    {
      GoesBefore(t, versions, dev, v, cur, a, n, i);
      WalkFrom(t, versions, dev, v, cur, a, i, 0);
    }
    i, j := Pigeons(s, Dirs(t));
    GoesBefore(t, versions, dev, v, cur, a, n, j);
  }

  // ----- any number of directories

  /** Everything a slot of the cache can hold during the walk. */
  ghost function Holdings(t: Nodes, versions: Versions, dev: nat, v: Dcache.Levels): set<Dcache.Slot>
    requires AllStamped(t, versions)
  {
    (set x | x in v.one :: x) + (set x | x in v.two :: x)
    + (set d | d in Dirs(t) :: Dcache.Slot(ParentKey(dev, versions, d), ToldParent(t, d), true))
  }

  ghost predicate Within(v: Dcache.Levels, f: set<Dcache.Slot>) {
    (forall x | x in v.one :: x in f) && (forall x | x in v.two :: x in f)
  }

  /** A lookup brings in nothing but what it is told. */
  lemma StaysWithin(v: Dcache.Levels, k: Dcache.Key, told: nat, f: set<Dcache.Slot>)
    requires Within(v, f) && Dcache.Slot(k, told, true) in f
    ensures Within(Dcache.Consulted(v, k, told), f)
  {
    var x := Dcache.Slot(k, told, true);
    if Dcache.On(v.two, k) {
      Dcache.InRenewed(v.two, Dcache.Place(v.two, k), v.two[Dcache.Place(v.two, k)]);
      Dcache.InRenewed(v.two, Dcache.Place(v.two, k), x);
    } else if Dcache.On(v.one, k) {
      Dcache.InRenewed(v.one, Dcache.Place(v.one, k), x);
      if v.two != [] {
        Dcache.InRenewed(v.two, 0, v.one[Dcache.Place(v.one, k)]);
      }
    } else if v.one != [] {
      Dcache.InRenewed(v.one, 0, x);
    }
    hide Dcache.Renewed;
  }

  /** All lists of n elements of a set. */
  ghost function Lists<T(!new)>(f: set<T>, n: nat): set<seq<T>> {
    if n == 0 then {[]} else set q, x | q in Lists(f, n - 1) && x in f :: q + [x]
  }

  lemma {:induction false} InLists<T(!new)>(q: seq<T>, f: set<T>)
    requires forall x | x in q :: x in f
    ensures q in Lists(f, |q|)
    decreases |q|
  {
    if q != [] {
      var n := |q| - 1;
      InLists(q[..n], f);
      assert q == q[..n] + [q[n]];
    }
  }

  /** All stages there can be. */
  ghost function Stages(t: Nodes, f: set<Dcache.Slot>): set<Stage> {
    set d, one, two | d in Dirs(t) && one in Lists(f, Dcache.SIZE) && two in Lists(f, Dcache.SIZE) ::
      Stage(d, Dcache.Levels(one, two))
  }

  lemma {:induction false} StageWithin(t: Nodes, versions: Versions, dev: nat, v: Dcache.Levels, cur: nat, a: nat, n: nat,
                                       f: set<Dcache.Slot>)
    requires AllStamped(t, versions) && Dcache.LevelsOk(v) && Within(v, f) && Goes(t, versions, dev, v, cur, a, n)
    requires forall d | d in Dirs(t) :: Dcache.Slot(ParentKey(dev, versions, d), ToldParent(t, d), true) in f
    ensures StageOf(t, versions, dev, v, cur, n) in Stages(t, f)
    decreases n
  {
    hide Dcache.Consulted, SeenParent, ToldParent, Dcache.LevelsOk, Lists, Within, Stages;
    assert cur in Dirs(t);
    if n == 0 {
      OneStage(t, v, cur, f);
    } else {
      var k, told := ParentKey(dev, versions, cur), ToldParent(t, cur);
      StaysWithin(v, k, told, f);
      Dcache.ConsultedOk(v, k, told);
      StageWithin(t, versions, dev, Dcache.Consulted(v, k, told), SeenParent(v, k, told), a, n - 1, f);
    }
  }

  lemma OneStage(t: Nodes, v: Dcache.Levels, cur: nat, f: set<Dcache.Slot>)
    requires Dcache.LevelsOk(v) && Within(v, f) && cur in Dirs(t)
    ensures Stage(cur, v) in Stages(t, f)
  {
    hide Lists;
    InLists(v.one, f);
    InLists(v.two, f);
    assert v == Dcache.Levels(v.one, v.two);
  }

  /** The walk is at the same directory with the same cache after i and after j steps. */
  ghost predicate Repeats(t: Nodes, versions: Versions, dev: nat, v: Dcache.Levels, cur: nat, a: nat, i: nat, j: nat)
    requires AllStamped(t, versions)
  {
    && i < j && Goes(t, versions, dev, v, cur, a, j)
    && StageOf(t, versions, dev, v, cur, i) == StageOf(t, versions, dev, v, cur, j)
  }

  /** What happens from a stage on happens again from the same stage. */
  lemma {:induction false} RepeatsForEver(t: Nodes, versions: Versions, dev: nat, v: Dcache.Levels, cur: nat, a: nat, i: nat, j: nat,
                                          n: nat)
    requires AllStamped(t, versions) && Repeats(t, versions, dev, v, cur, a, i, j)
    ensures Goes(t, versions, dev, v, cur, a, n)
    decreases n
  {
    hide Walk, StageOf, Dcache.LevelsOk;
    if n <= j {
      GoesBefore(t, versions, dev, v, cur, a, j, n);
    } else {
      var m: nat := n - j;
      GoesBefore(t, versions, dev, v, cur, a, j, i);
      WalkFrom(t, versions, dev, v, cur, a, j, m);
      WalkFrom(t, versions, dev, v, cur, a, i, m);
      RepeatsForEver(t, versions, dev, v, cur, a, i, j, i + m);
    }
  }

  /** However many directories there are, the walk goes on for ever exactly if it is at the same
      directory with the same cache twice, and exactly if it is still going on after as many steps as
      there can be different stages. */
  lemma EndsExactly(t: Nodes, versions: Versions, dev: nat, v: Dcache.Levels, cur: nat, a: nat)
    requires AllStamped(t, versions) && Dcache.LevelsOk(v)
    ensures NeverEnds(t, versions, dev, v, cur, a) <==>
            Goes(t, versions, dev, v, cur, a, |Stages(t, Holdings(t, versions, dev, v))|)
    ensures NeverEnds(t, versions, dev, v, cur, a) <==> exists i: nat, j: nat :: Repeats(t, versions, dev, v, cur, a, i, j)
  {
    hide Walk, StageOf, Dcache.LevelsOk, Stages, Holdings;
    var all := Stages(t, Holdings(t, versions, dev, v));
    if Goes(t, versions, dev, v, cur, a, |all|) {
      var i, j := SomeRepeat(t, versions, dev, v, cur, a);
      assert Repeats(t, versions, dev, v, cur, a, i, j);
    }
    if i: nat, j: nat :| Repeats(t, versions, dev, v, cur, a, i, j) {
      forall n: nat
        ensures Goes(t, versions, dev, v, cur, a, n)
      {
        RepeatsForEver(t, versions, dev, v, cur, a, i, j, n);
      }
    }
  }

  lemma SomeRepeat(t: Nodes, versions: Versions, dev: nat, v: Dcache.Levels, cur: nat, a: nat) returns (i: nat, j: nat)
    requires AllStamped(t, versions) && Dcache.LevelsOk(v)
    requires Goes(t, versions, dev, v, cur, a, |Stages(t, Holdings(t, versions, dev, v))|)
    ensures Repeats(t, versions, dev, v, cur, a, i, j)
  {
    hide Walk, StageOf, Stages, Dcache.LevelsOk;
    var f := Holdings(t, versions, dev, v);
    var n := |Stages(t, f)|;
    var s := seq(n + 1, m requires 0 <= m <= n => StageOf(t, versions, dev, v, cur, m));
    forall m | 0 <= m <= n
      ensures s[m] in Stages(t, f)
    {
      GoesBefore(t, versions, dev, v, cur, a, n, m);
      StageWithin(t, versions, dev, v, cur, a, m, f);
    }
    i, j := Pigeons(s, Stages(t, f));
    GoesBefore(t, versions, dev, v, cur, a, n, j);
  }
}
