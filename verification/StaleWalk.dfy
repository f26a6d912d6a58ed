/** Two runs in which a rename corrects only one of two cached copies of "..", and other lookups then
    drive that one out. In the first the walk of the next rename goes past the directory it looks for,
    and the directories are no tree any more; in the second the walk goes round for ever. */
module StaleWalk {
  import opened DirTree
  import opened TreeDirs
  import opened Namei
  import opened WalkEnds
  import Dcache

  const ROOT: nat := 2
  const A: nat := 11
  const B: nat := 12
  const X: nat := 13
  const Y: nat := 14
  const C: nat := 15

  /** The root with directories a, b and c, x in a, and y in x. */
  function Before(): Nodes {
    map[ROOT := Node(true, 5, map["." := ROOT, ".." := ROOT, "a" := A, "b" := B, "c" := C], false),
        A := Node(true, 3, map["." := A, ".." := ROOT, "x" := X], false),
        B := FreshDir(B, ROOT),
        C := FreshDir(C, ROOT),
        X := Node(true, 3, map["." := X, ".." := A, "y" := Y], false),
        Y := FreshDir(Y, X)]
  }

  /** The same with x in b. */
  function After(): Nodes {
    Before()[A := FreshDir(A, ROOT)][B := Node(true, 3, map["." := B, ".." := ROOT, "x" := X], false)]
    [X := Node(true, 3, map["." := X, ".." := B, "y" := Y], false)]
  }

  /** And then with a in y. */
  function Deeper(): Nodes {
    After()[ROOT := Node(true, 4, map["." := ROOT, ".." := ROOT, "b" := B, "c" := C], false)]
    [Y := Node(true, 3, map["." := Y, ".." := X, "a" := A], false)][A := FreshDir(A, Y)]
  }

  const STAMPS_BEFORE: Versions := map[ROOT := 10, A := 13, B := 5, C := 8, X := 16, Y := 14]
  const STAMPS_AFTER: Versions := map[ROOT := 10, A := 19, B := 18, C := 8, X := 16, Y := 14]
  const STAMPS_DEEPER: Versions := map[ROOT := 22, A := 19, B := 18, C := 8, X := 16, Y := 21]

  /** The ".." of x, whose stamp stays, and the ".." of the others under the stamps that matter. */
  const UP: Dcache.Key := Dcache.Key(0, X, 16, "..")
  const UP_Y: Dcache.Key := Dcache.Key(0, Y, 14, "..")
  const UP_B: Dcache.Key := Dcache.Key(0, B, 18, "..")
  const UP_ROOT: Dcache.Key := Dcache.Key(0, ROOT, 10, "..")
  const UP_A: Dcache.Key := Dcache.Key(0, A, 19, "..")
  const UP_Y_LATER: Dcache.Key := Dcache.Key(0, Y, 21, "..")

  function Tree1(): Nodes {
    DirAdded(map[ROOT := FreshDir(ROOT, ROOT)], ROOT, "a", A)
  }

  function Tree2(): Nodes {
    DirAdded(Tree1(), ROOT, "b", B)
  }

  function Tree3(): Nodes {
    DirAdded(Tree2(), ROOT, "c", C)
  }

  function Tree4(): Nodes {
    DirAdded(Tree3(), A, "x", X)
  }

  function ThreeMade(): Nodes {
    map[ROOT := Node(true, 5, map["." := ROOT, ".." := ROOT, "a" := A, "b" := B, "c" := C], false),
        A := FreshDir(A, ROOT), B := FreshDir(B, ROOT), C := FreshDir(C, ROOT)]
  }

  lemma ThreeMadeIs()
    ensures Tree3() == ThreeMade()
  {
    assert Tree1()[ROOT].entries == map["." := ROOT, ".." := ROOT, "a" := A];
    assert Tree2()[ROOT].entries == map["." := ROOT, ".." := ROOT, "a" := A, "b" := B];
    assert Tree3()[ROOT].entries == ThreeMade()[ROOT].entries;
  }

  lemma BeforeIs()
    ensures DirAdded(Tree4(), X, "y", Y) == Before()
  {
    hide Tree3;
    ThreeMadeIs();
    assert Tree4()[A].entries == Before()[A].entries;
    assert DirAdded(Tree4(), X, "y", Y)[X].entries == Before()[X].entries;
  }

  lemma MovesX()
    ensures MoveMakesSense(Before(), A, "x", B, "x") && Renamed(Before(), A, "x", B, "x") == After()
    ensures Movable(Before(), A, "x", B, "x", false, true) && !SameInode(Before(), A, "x", B, "x")
  {
    var t := Before();
    assert t[A].entries - {"x"} == FreshDir(A, ROOT).entries;
    assert t[B].entries["x" := X] == After()[B].entries;
    assert t[X].entries[".." := B] == After()[X].entries;
  }

  lemma MovesA()
    ensures MoveMakesSense(After(), ROOT, "a", Y, "a") && Renamed(After(), ROOT, "a", Y, "a") == Deeper()
    ensures Movable(After(), ROOT, "a", Y, "a", false, true) && !SameInode(After(), ROOT, "a", Y, "a")
  {
    var t := After();
    assert t[ROOT].entries - {"a"} == Deeper()[ROOT].entries;
    assert t[Y].entries["a" := A] == Deeper()[Y].entries;
    assert t[A].entries[".." := Y] == FreshDir(A, Y).entries;
  }

  lemma BNotBelowX()
    ensures Up(Before(), B, 1) == ROOT && !Under(Before(), B, X) && !BelowItself(Before(), A, "x", B)
  {
    var t := Before();
    assert Up(t, B, 1) == Up(t, ROOT, 0) == ROOT;
    assert Up(t, B, 0) == B;
    NeverAbove(t, B, X, 1);
  }

  lemma ANotAboveY()
    ensures !BelowItself(After(), ROOT, "a", Y)
  {
    var t := After();
    assert Up(t, Y, 0) == Y;
    assert Up(t, Y, 1) == Up(t, X, 0) == X;
    assert Up(t, Y, 2) == Up(t, X, 1) == Up(t, B, 0) == B;
    assert Up(t, Y, 3) == Up(t, X, 2) == Up(t, B, 1) == Up(t, ROOT, 0) == ROOT;
    NeverAbove(t, Y, A, 3);
  }

  lemma CNotAboveX()
    ensures !Under(Deeper(), X, C)
  {
    var t := Deeper();
    assert Up(t, X, 0) == X;
    assert Up(t, X, 1) == Up(t, B, 0) == B;
    assert Up(t, X, 2) == Up(t, B, 1) == Up(t, ROOT, 0) == ROOT;
    NeverAbove(t, X, C, 2);
  }

  lemma BelowB()
    ensures Movable(After(), ROOT, "b", X, "b", false, true) && !SameInode(After(), ROOT, "b", X, "b")
    ensures BelowItself(After(), ROOT, "b", X)
  {
    assert Up(After(), X, 1) == Up(After(), B, 0) == B;
    Meets(After(), X, B, 1);
  }

  // ----- what the cache holds on the way

  /** The spare names of c, which stay apart from everything else, and so can drive out other keys. */
  function Names(): seq<Dcache.Key> {
    Dcache.SpareKeys(0, C, 8, 0, Dcache.SIZE - 1)
  }

  function MoreNames(): seq<Dcache.Key> {
    Dcache.SpareKeys(0, C, 8, Dcache.SIZE - 1, Dcache.SIZE + SPENT)
  }

  predicate Plain(name: string) {
    name == "a" || name == "b" || name == "c" || name == "x" || name == "y" || name == ".."
  }

  /** At most so many other lookups and bindings come between. */
  const SPENT: nat := 16

  /** Level 2 has only keys with plain names, level 1 those and the given ones. */
  ghost predicate Origins(v: Dcache.Levels, keys: seq<Dcache.Key>) {
    && (forall j | Dcache.On(v.one, j) :: Plain(j.name) || j in keys)
    && (forall j | Dcache.On(v.two, j) :: Plain(j.name))
  }

  /** After p such lookups and bindings level 1 still has its copy of ".." of x, and all but p of the
      names. */
  ghost predicate Intact(v: Dcache.Levels, p: nat) {
    && Dcache.LevelsOk(v) && Origins(v, Names()) && p <= SPENT
    && Dcache.Late(v.one, Dcache.Slot(UP, A, true), Dcache.SIZE - 1 - p)
    && forall i | p <= i < Dcache.SIZE - 1 :: Dcache.Late(v.one, Dcache.Slot(Names()[i], 0, true), i - p)
  }

  lemma LateLess(q: seq<Dcache.Slot>, x: Dcache.Slot, m: nat, n: nat)
    requires Dcache.Late(q, x, m) && n <= m
    ensures Dcache.Late(q, x, n)
  {
  }

  lemma IntactLess(v: Dcache.Levels, p: nat, q: nat)
    requires Intact(v, p) && p <= q <= SPENT
    ensures Intact(v, q)
  {
    hide Dcache.Late, Dcache.LevelsOk, Origins;
    LateLess(v.one, Dcache.Slot(UP, A, true), Dcache.SIZE - 1 - p, Dcache.SIZE - 1 - q);
    forall i | q <= i < Dcache.SIZE - 1
      ensures Dcache.Late(v.one, Dcache.Slot(Names()[i], 0, true), i - q)
    {
      LateLess(v.one, Dcache.Slot(Names()[i], 0, true), i - p, i - q);
    }
  }

  lemma OriginsKept(v: Dcache.Levels, k: Dcache.Key, ino: nat, keys: seq<Dcache.Key>)
    requires Origins(v, keys) && Plain(k.name)
    ensures Origins(Dcache.Entered(v, k, ino), keys) && Origins(Dcache.Consulted(v, k, ino), keys)
  {
    hide Dcache.On, Dcache.Entered, Dcache.Consulted;
    forall j | j != k
      ensures Dcache.On(Dcache.Entered(v, k, ino).one, j) ==> Dcache.On(v.one, j)
      ensures Dcache.On(Dcache.Entered(v, k, ino).two, j) ==> Dcache.On(v.two, j)
      ensures Dcache.On(Dcache.Consulted(v, k, ino).one, j) ==> Dcache.On(v.one, j)
      ensures Dcache.On(Dcache.Consulted(v, k, ino).two, j) ==> Dcache.On(v.two, j)
    {
      EnteredElsewhere(v, k, ino, j);
      ConsultedElsewhere(v, k, ino, j);
    }
  }

  /** A lookup that hits changes only level 2, and so does a binding over a copy there. */
  lemma OneKept(v: Dcache.Levels, k: Dcache.Key, ino: nat, x: nat)
    requires Dcache.Late(v.one, Dcache.Slot(k, x, true), 0) && Dcache.Short(k)
    ensures Dcache.Consulted(v, k, ino).one == v.one
    ensures Dcache.On(v.two, k) ==> Dcache.Entered(v, k, ino).one == v.one
  {
    var i :| 0 <= i < |v.one| && v.one[i] == Dcache.Slot(k, x, true);
    Dcache.OnAt(v.one, k, i);
  }

  lemma NamesFacts()
    ensures |Names()| == Dcache.SIZE - 1 && |MoreNames()| == SPENT + 1
    ensures Dcache.AllShort(Names()) && Dcache.NoTwo(Names()) && Dcache.AllShort(MoreNames()) && Dcache.NoTwo(MoreNames())
    ensures forall j | j in Names() || j in MoreNames() :: !Plain(j.name)
    ensures forall i | 0 <= i <= SPENT :: MoreNames()[i] !in Names()
  {
    Dcache.SparesApart(0, C, 8, 0, Dcache.SIZE - 1);
    Dcache.SparesApart(0, C, 8, Dcache.SIZE - 1, Dcache.SIZE + SPENT);
    forall i | 0 <= i < 1000
      ensures !Plain(Dcache.Spare(i))
    {
      assert Dcache.Spare(i)[0] != 'a' && Dcache.Spare(i)[0] != 'b' && Dcache.Spare(i)[0] != 'c';
    }
    forall i, m | 0 <= i <= SPENT && 0 <= m < Dcache.SIZE - 1
      ensures MoreNames()[i] != Names()[m]
    {
      assert Dcache.Spare(Dcache.SIZE - 1 + i)[0] != Dcache.Spare(m)[0];
    }
  }

  lemma IntactStep(v: Dcache.Levels, p: nat, k: Dcache.Key, ino: nat)
    requires Intact(v, p) && p < SPENT && Plain(k.name)
    ensures Intact(Dcache.Consulted(v, k, ino), p + 1)
    ensures k != UP || Dcache.On(v.two, UP) ==> Intact(Dcache.Entered(v, k, ino), p + 1)
  {
    hide Dcache.Late, Dcache.LevelsOk, Dcache.Consulted, Dcache.Entered, Origins, Dcache.On;
    NamesFacts();
    Dcache.ConsultedOk(v, k, ino);
    Dcache.EnteredOk(v, k, ino);
    OriginsKept(v, k, ino, Names());
    IntactLess(v, p, p + 1);
    var w, u, y := Dcache.Consulted(v, k, ino), Dcache.Entered(v, k, ino), Dcache.Slot(UP, A, true);
    if k == UP {
      LateAnyway(v.one, y, Dcache.SIZE - 1 - p);
      OneKept(v, k, ino, A);
    } else {
      Dcache.LateConsulted(v, k, ino, y, Dcache.SIZE - 1 - p);
      Dcache.LateEntered(v, k, ino, y, Dcache.SIZE - 1 - p);
    }
    forall i | p + 1 <= i < Dcache.SIZE - 1
      ensures Dcache.Late(w.one, Dcache.Slot(Names()[i], 0, true), i - p - 1)
      ensures Dcache.Late(u.one, Dcache.Slot(Names()[i], 0, true), i - p - 1)
    {
      assert Names()[i] in Names();
      Dcache.LateConsulted(v, k, ino, Dcache.Slot(Names()[i], 0, true), i - p);
      Dcache.LateEntered(v, k, ino, Dcache.Slot(Names()[i], 0, true), i - p);
    }
  }

  /** A walk of n steps leaves a copy on level 2 of something else at most n places nearer to its end. */
  lemma {:induction false} IntactWalk(t: Nodes, versions: Versions, v: Dcache.Levels, cur: nat, a: nat, n: nat, p: nat, x: nat)
    requires AllStamped(t, versions) && Intact(v, p) && p + n <= SPENT && Dcache.Late(v.two, Dcache.Slot(UP, x, true), SPENT - p)
    ensures var w := Walk(t, versions, 0, v, cur, a, n).1;
            Intact(w, p + n) && Dcache.Late(w.two, Dcache.Slot(UP, x, true), SPENT - p - n)
    decreases n
  {
    hide Dcache.Late, Dcache.Consulted, SeenParent, ToldParent, Dcache.On, Intact;
    IntactLess(v, p, p + n);
    LateLess(v.two, Dcache.Slot(UP, x, true), SPENT - p, SPENT - p - n);
    if cur != a && IsDir(t, cur) && n > 0 {
      var k, told := ParentKey(0, versions, cur), ToldParent(t, cur);
      var w, up := Dcache.Consulted(v, k, told), SeenParent(v, k, told);
      IntactStep(v, p, k, told);
      IntactOk(v, p);
      if k == UP {
        LateAnyway(v.two, Dcache.Slot(UP, x, true), SPENT - p);
        TopCopy(v, UP, x, told);
        LateLess(w.two, Dcache.Slot(UP, x, true), Dcache.SIZE - 1, SPENT - p - 1);
      } else {
        Dcache.LateConsulted(v, k, told, Dcache.Slot(UP, x, true), SPENT - p);
      }
      IntactLess(w, p + 1, p + n);
      LateLess(w.two, Dcache.Slot(UP, x, true), SPENT - p - 1, SPENT - p - n);
      if up != 0 && up != cur {
        IntactWalk(t, versions, w, up, a, n - 1, p + 1, x);
      }
    }
  }

  lemma IntactOk(v: Dcache.Levels, p: nat)
    requires Intact(v, p)
    ensures Dcache.LevelsOk(v) && |v.one| == Dcache.SIZE == |v.two|
  {
  }

  /** The other lookups. */
  ghost function AfterLookups(v: Dcache.Levels): Dcache.Levels {
    Dcache.ConsultedAll(Dcache.ConsultedAll(v, Names()[SPENT..]), Dcache.Twice(MoreNames()))
  }

  /** After the other lookups a search for ".." of x finds the old copy. */
  lemma BuriedIs(v: Dcache.Levels, p: nat)
    requires Intact(v, p)
    ensures Dcache.LevelsOk(AfterLookups(v)) && Dcache.Cached(AfterLookups(v), UP) == Dcache.Some(A)
  {
    hide Dcache.Consulted, Dcache.Late, Dcache.Cached, Dcache.On, Dcache.ConsultedAll, Dcache.Twice, Dcache.LevelsOk;
    IntactLess(v, p, SPENT);
    NamesFacts();
    var known, more := Names()[SPENT..], MoreNames();
    forall i | 0 <= i < |known|
      ensures Dcache.On(v.one, known[i]) && !Dcache.On(v.two, known[i]) && Dcache.Short(known[i]) && known[i] in Names()
    {
      assert known[i] == Names()[i + SPENT] && Names()[i + SPENT] in Names();
      LateIsOn(v.one, known[i], 0, i);
    }
    KnownApart();
    forall i | 0 <= i <= SPENT
      ensures !Dcache.On(v.one, more[i]) && !Dcache.On(v.two, more[i]) && more[i] !in known
    {
      assert more[i] in more;
    }
    LateLess(v.one, Dcache.Slot(UP, A, true), Dcache.SIZE - 1 - SPENT, SPENT + 1);
    Dcache.Buried(v, known, more, UP, A);
    Dcache.ConsultedAllOk(v, known);
    Dcache.ConsultedAllOk(Dcache.ConsultedAll(v, known), Dcache.Twice(more));
  }

  lemma LateIsOn(q: seq<Dcache.Slot>, k: Dcache.Key, x: nat, m: nat)
    requires Dcache.Late(q, Dcache.Slot(k, x, true), m)
    ensures Dcache.On(q, k)
  {
    var i :| m <= i < |q| && q[i] == Dcache.Slot(k, x, true);
    Dcache.OnAt(q, k, i);
  }

  lemma KnownApart()
    ensures Dcache.AllShort(Names()[SPENT..]) && Dcache.NoTwo(Names()[SPENT..])
  {
    NamesFacts();
    var known := Names()[SPENT..];
    forall i, j | 0 <= i < j < |known|
      ensures known[i] != known[j]
    {
      assert known[i] == Names()[i + SPENT] && known[j] == Names()[j + SPENT];
    }
  }

  ghost predicate Absent(v: Dcache.Levels, k: Dcache.Key) {
    !Dcache.On(v.one, k) && !Dcache.On(v.two, k)
  }

  lemma AbsentAfter(v: Dcache.Levels, k: Dcache.Key, ino: nat, j: Dcache.Key)
    requires Absent(v, j) && j != k
    ensures Absent(Dcache.Entered(v, k, ino), j)
  {
    EnteredElsewhere(v, k, ino, j);
  }

  lemma AbsentSays(v: Dcache.Levels, k: Dcache.Key, x: nat)
    requires Absent(v, k)
    ensures Dcache.AllSay(v, k, x)
  {
    forall n
      ensures !Dcache.Says(v, k, n)
    {
      Dcache.NotIn(v.one, k, n);
      Dcache.NotIn(v.two, k, n);
    }
  }

  /** Nothing is cached under a stamp to come. */
  lemma NotYet(v: Dcache.Levels, event: nat, k: Dcache.Key)
    requires Dcache.Past(v, event) && k.version > event
    ensures Absent(v, k)
  {
    if Dcache.On(v.one, k) {
      assert v.one[Dcache.Place(v.one, k)] == Dcache.Slot(k, v.one[Dcache.Place(v.one, k)].ino, true);
      assert Dcache.Says(v, k, v.one[Dcache.Place(v.one, k)].ino);
    }
    if Dcache.On(v.two, k) {
      assert v.two[Dcache.Place(v.two, k)] == Dcache.Slot(k, v.two[Dcache.Place(v.two, k)].ino, true);
      assert Dcache.Says(v, k, v.two[Dcache.Place(v.two, k)].ino);
    }
  }

  lemma {:induction false} AllSayThrough(v: Dcache.Levels, keys: seq<Dcache.Key>, k: Dcache.Key, x: nat)
    requires Dcache.AllSay(v, k, x) && k !in keys
    ensures Dcache.AllSay(Dcache.ConsultedAll(v, keys), k, x)
  {
    hide Dcache.AllSay, Dcache.Consulted;
    if keys != [] {
      var n := |keys| - 1;
      AllSayThrough(v, keys[..n], k, x);
      AllSayKept(Dcache.ConsultedAll(v, keys[..n]), keys[n], 0, k, x);
    }
  }

  lemma {:induction false} InTwice(keys: seq<Dcache.Key>, k: Dcache.Key)
    requires k !in keys
    ensures k !in Dcache.Twice(keys)
  {
    if keys != [] {
      InTwice(keys[..|keys| - 1], k);
    }
  }

  lemma StillSaid(v: Dcache.Levels, k: Dcache.Key, x: nat)
    requires Dcache.AllSay(v, k, x) && Plain(k.name)
    ensures Dcache.AllSay(AfterLookups(v), k, x)
  {
    hide Dcache.AllSay, Dcache.ConsultedAll, Dcache.Twice;
    NamesFacts();
    assert forall j | j in Names()[SPENT..] :: j in Names();
    InTwice(MoreNames(), k);
    AllSayThrough(v, Names()[SPENT..], k, x);
    AllSayThrough(Dcache.ConsultedAll(v, Names()[SPENT..]), Dcache.Twice(MoreNames()), k, x);
  }

  // ----- the states of the runs

  /** Both levels have the ".." of x, and both say a. */
  ghost predicate CopiedTwice(v: Dcache.Levels) {
    Intact(v, 0) && Dcache.Late(v.two, Dcache.Slot(UP, A, true), SPENT)
  }

  /** x has moved to b, and level 2 says so. */
  ghost predicate Corrected(v: Dcache.Levels) {
    && Intact(v, 4) && Dcache.Late(v.two, Dcache.Slot(UP, B, true), SPENT)
    && Dcache.AllSay(v, UP_Y, X) && Dcache.AllSay(v, UP_B, ROOT) && Dcache.AllSay(v, UP_ROOT, ROOT) && Absent(v, UP_A)
  }

  /** a has moved to y. */
  ghost predicate Nested(v: Dcache.Levels) {
    Intact(v, 10) && Dcache.AllSay(v, UP_Y_LATER, X) && Dcache.AllSay(v, UP_A, Y)
  }

  /** The lookups and the listing that come first, on a cache that has none of the keys. */
  lemma CopiesMade(v: Dcache.Levels)
    requires Dcache.LevelsOk(v) && Origins(v, []) && Absent(v, UP)
    ensures CopiedTwice(Dcache.Consulted(Dcache.Entered(Dcache.ConsultedAll(v, Names()), UP, A), UP, A))
  {
    hide Dcache.Consulted, Dcache.Entered, Dcache.ConsultedAll, Dcache.LevelsOk, Dcache.Unknown, Dcache.EndsWith, Origins;
    SizesOk(v);
    var keys := Names();
    NamesFacts();
    NamesUnknown(v);
    Dcache.PushedIn(v, keys);
    var v1 := Dcache.ConsultedAll(v, keys);
    OriginsAll(v, v1, keys);
    assert UP !in keys && Absent(v1, UP);
    Dcache.ListedLast(v1, keys, UP, A);
    var v2 := Dcache.Entered(v1, UP, A);
    assert Dcache.Late(v2.one, Dcache.Slot(UP, A, true), Dcache.SIZE - 1);
    forall i | 0 <= i < Dcache.SIZE - 1
      ensures Dcache.Late(v2.one, Dcache.Slot(keys[i], 0, true), i)
    {
      assert v2.one[i] == Dcache.Slot(keys[i], 0, true);
    }
    AbsentSays(v1, UP, A);
    AllSayKept(v1, UP, A, UP, A);
    Dcache.ConsultedAllOk(v, keys);
    Dcache.EnteredOk(v1, UP, A);
    CopyMade(v2);
    Dcache.ConsultedOk(v2, UP, A);
    OriginsKept(v1, UP, A, keys);
    OriginsKept(v2, UP, A, keys);
    hide Absent, Dcache.Late;
  }

  lemma SizesOk(v: Dcache.Levels)
    requires Dcache.LevelsOk(v)
    ensures |v.one| == Dcache.SIZE == |v.two|
  {
  }

  lemma NamesUnknown(v: Dcache.Levels)
    requires Origins(v, [])
    ensures Dcache.Unknown(v, Names())
  {
    hide Dcache.On;
    NamesFacts();
    forall i | 0 <= i < |Names()|
      ensures !Dcache.On(v.one, Names()[i]) && !Dcache.On(v.two, Names()[i])
    {
      assert Names()[i] in Names();
    }
  }

  lemma OriginsAll(v: Dcache.Levels, w: Dcache.Levels, keys: seq<Dcache.Key>)
    requires Origins(v, []) && w.two == v.two && Dcache.Grown(v.one, w.one, keys)
    ensures Origins(w, keys)
  {
    hide Dcache.On;
  }

  /** Looking up what level 1 has last copies it to level 2. */
  lemma CopyMade(v: Dcache.Levels)
    requires |v.two| == Dcache.SIZE == |v.one| && v.one[Dcache.SIZE - 1] == Dcache.Slot(UP, A, true)
    requires Dcache.LevelsOk(v) && Dcache.AllSay(v, UP, A)
    ensures var w := Dcache.Consulted(v, UP, A); w.one == v.one && Dcache.Late(w.two, Dcache.Slot(UP, A, true), SPENT)
  {
    hide Dcache.Consulted;
    assert Dcache.Late(v.one, Dcache.Slot(UP, A, true), Dcache.SIZE - 1);
    LateAnyway(v.one, Dcache.Slot(UP, A, true), Dcache.SIZE - 1);
    OneKept(v, UP, A, A);
    Dcache.OnAt(v.one, UP, Dcache.SIZE - 1);
    Dcache.CachedSays(v, UP);
    LastOnTwo(v, UP, A, A);
  }

  /** What the first rename makes of the cache: the walk up from b, the new name, and "..". */
  lemma XMoved(v: Dcache.Levels)
    requires Tree(Before(), ROOT) && CopiedTwice(v) && Dcache.Past(v, 16) && ParentsRight(Before(), STAMPS_BEFORE, 0, v)
    ensures AllStamped(Before(), STAMPS_BEFORE)
    ensures Corrected(NewEntries(0, STAMPS_BEFORE, Walked(Before(), STAMPS_BEFORE, 0, v, B, X, false, 2), B, 18, "x", X, true))
  {
    hide Tree, Dcache.Late, Dcache.Says, Walk, Dcache.Past, Intact, Before, Dcache.Entered, Dcache.On, Dcache.AllSay;
    BeforeFacts();
    var t, vers := Before(), STAMPS_BEFORE;
    IntactWalk(t, vers, v, B, X, 2, 0, A);
    WalkEnters(t, vers, 0, v, B, X, 2, 16);
    WalkRight(t, ROOT, vers, 0, v, B, X, 2);
    var w := Walk(t, vers, 0, v, B, X, 2).1;
    RightSays(w);
    NotYet(w, 16, UP_B);
    AbsentSays(w, UP_B, ROOT);
    NotYet(w, 16, UP_A);
    var k := Dcache.Key(0, B, 18, "x");
    var u := Dcache.Entered(w, k, X);
    TopOn(w, SPENT - 2, A);
    IntactStep(w, 2, k, X);
    Dcache.LateEntered(w, k, X, Dcache.Slot(UP, A, true), SPENT - 2);
    TopOn(u, SPENT - 3, A);
    IntactOk(u, 3);
    IntactStep(u, 3, UP, B);
    TopEntered(u, B);
    AllSayKept(w, k, X, UP_Y, X);
    AllSayKept(w, k, X, UP_B, ROOT);
    AllSayKept(w, k, X, UP_ROOT, ROOT);
    AllSayKept(u, UP, B, UP_Y, X);
    AllSayKept(u, UP, B, UP_B, ROOT);
    AllSayKept(u, UP, B, UP_ROOT, ROOT);
    AbsentAfter(w, k, X, UP_A);
    AbsentAfter(u, UP, B, UP_A);
  }

  lemma TopOn(v: Dcache.Levels, m: nat, x: nat)
    requires Dcache.Late(v.two, Dcache.Slot(UP, x, true), m)
    ensures Dcache.On(v.two, UP)
  {
    LateIsOn(v.two, UP, x, m);
  }

  /** A binding over a copy on level 2 is then the last there. */
  lemma TopEntered(v: Dcache.Levels, x: nat)
    requires Dcache.On(v.two, UP) && |v.two| == Dcache.SIZE
    ensures Dcache.Late(Dcache.Entered(v, UP, x).two, Dcache.Slot(UP, x, true), SPENT)
  {
    Dcache.InRenewed(v.two, Dcache.Place(v.two, UP), Dcache.Slot(UP, x, true));
    hide Dcache.Renewed, Dcache.Place;
  }

  lemma BeforeFacts()
    ensures AllStamped(Before(), STAMPS_BEFORE) && IsDir(Before(), B) && 0 !in Before()
    ensures X in STAMPS_BEFORE && forall d | IsDir(Before(), d) :: STAMPS_BEFORE[d] <= 16
    ensures ParentKey(0, STAMPS_BEFORE, X) == UP
  {
  }

  lemma RightSays(v: Dcache.Levels)
    requires ParentsRight(Before(), STAMPS_BEFORE, 0, v)
    ensures Dcache.AllSay(v, UP_Y, X) && Dcache.AllSay(v, UP_ROOT, ROOT)
  {
    hide Dcache.Says;
  }

  lemma AfterFacts()
    ensures AllStamped(After(), STAMPS_AFTER) && A in STAMPS_AFTER && forall d | IsDir(After(), d) :: STAMPS_AFTER[d] <= 19
    ensures forall d | d == ROOT || d == A || d == B || d == X || d == Y :: IsDir(After(), d)
    ensures ToldParent(After(), Y) == X && ToldParent(After(), X) == B && ToldParent(After(), A) == ROOT
    ensures ToldParent(After(), B) == ROOT && ToldParent(After(), ROOT) == ROOT
    ensures ParentKey(0, STAMPS_AFTER, Y) == UP_Y && ParentKey(0, STAMPS_AFTER, X) == UP && ParentKey(0, STAMPS_AFTER, A) == UP_A
    ensures ParentKey(0, STAMPS_AFTER, B) == UP_B && ParentKey(0, STAMPS_AFTER, ROOT) == UP_ROOT
  {
  }

  /** The walk of the second rename, from y: it reads the corrected ".." of x and does not meet a. */
  lemma SecondWalk(v: Dcache.Levels)
    requires Corrected(v)
    ensures AllStamped(After(), STAMPS_AFTER) && Walk(After(), STAMPS_AFTER, 0, v, Y, A, 4).0 == Passed
  {
    hide Dcache.Consulted, After, Dcache.AllSay, Dcache.Late, SeenParent, ToldParent, Dcache.LevelsOk, Intact, Absent;
    AfterFacts();
    IntactOk(v, 4);
    var t := After();
    var w1 := Dcache.Consulted(v, UP_Y, X);
    AllSaySeen(v, UP_Y, X);
    AllSayKept(v, UP_Y, X, UP_B, ROOT);
    AllSayKept(v, UP_Y, X, UP_ROOT, ROOT);
    Dcache.ConsultedOk(v, UP_Y, X);
    Dcache.LateConsulted(v, UP_Y, X, Dcache.Slot(UP, B, true), SPENT);
    LateAnyway(w1.two, Dcache.Slot(UP, B, true), SPENT - 1);
    TopCopy(w1, UP, B, B);
    SeenIs(w1, UP, B, B);
    var w2 := Dcache.Consulted(w1, UP, B);
    AllSayKept(w1, UP, B, UP_B, ROOT);
    AllSayKept(w1, UP, B, UP_ROOT, ROOT);
    AllSaySeen(w2, UP_B, ROOT);
    AllSayKept(w2, UP_B, ROOT, UP_ROOT, ROOT);
    var w3 := Dcache.Consulted(w2, UP_B, ROOT);
    AllSaySeen(w3, UP_ROOT, ROOT);
    assert Walk(t, STAMPS_AFTER, 0, w3, ROOT, A, 1).0 == Passed;
    assert Walk(t, STAMPS_AFTER, 0, w2, B, A, 2) == Walk(t, STAMPS_AFTER, 0, w3, ROOT, A, 1);
    assert Walk(t, STAMPS_AFTER, 0, w1, X, A, 3) == Walk(t, STAMPS_AFTER, 0, w2, B, A, 2);
    assert Walk(t, STAMPS_AFTER, 0, v, Y, A, 4) == Walk(t, STAMPS_AFTER, 0, w1, X, A, 3);
  }

  lemma SeenIs(v: Dcache.Levels, k: Dcache.Key, x: nat, told: nat)
    requires Dcache.Cached(v, k) == Dcache.Some(x)
    ensures SeenParent(v, k, told) == x
  {
  }

  /** What the second rename makes of the cache. */
  lemma AMoved(v: Dcache.Levels)
    requires Corrected(v) && Dcache.Past(v, 19)
    ensures AllStamped(After(), STAMPS_AFTER)
    ensures Nested(NewEntries(0, STAMPS_AFTER, Walked(After(), STAMPS_AFTER, 0, v, Y, A, false, 4), Y, 21, "a", A, true))
  {
    hide Dcache.Late, Dcache.Says, Walk, Dcache.Past, Intact, After, Dcache.Entered, Dcache.On, Dcache.AllSay, ToldParent;
    AfterFacts();
    IntactWalk(After(), STAMPS_AFTER, v, Y, A, 4, 4, B) by { LateLess(v.two, Dcache.Slot(UP, B, true), SPENT, SPENT - 4); }
    WalkEnters(After(), STAMPS_AFTER, 0, v, Y, A, 4, 19);
    var w := Walk(After(), STAMPS_AFTER, 0, v, Y, A, 4).1;
    NotYet(w, 19, UP_Y_LATER);
    AbsentSays(w, UP_Y_LATER, X);
    AbsentSays(w, UP_A, Y);
    var k := Dcache.Key(0, Y, 21, "a");
    var u := Dcache.Entered(w, k, A);
    IntactStep(w, 8, k, A);
    IntactStep(u, 9, UP_A, Y);
    AllSayKept(w, k, A, UP_Y_LATER, X);
    AllSayKept(w, k, A, UP_A, Y);
    AllSayKept(u, UP_A, Y, UP_Y_LATER, X);
    AllSayKept(u, UP_A, Y, UP_A, Y);
  }

  /** The walk from x, when its old ".." is found: on to a and to the root, past b. */
  lemma PastB(v: Dcache.Levels)
    requires Dcache.Cached(v, UP) == Dcache.Some(A) && Dcache.AllSay(v, UP_A, ROOT) && Dcache.AllSay(v, UP_ROOT, ROOT)
    ensures AllStamped(After(), STAMPS_AFTER) && Walk(After(), STAMPS_AFTER, 0, v, X, B, 3).0 == Passed
  {
    hide Dcache.Consulted, After, Dcache.AllSay, SeenParent, ToldParent, Dcache.Cached;
    AfterFacts();
    var t := After();
    SeenIs(v, UP, A, B);
    var w1 := Dcache.Consulted(v, UP, B);
    AllSayKept(v, UP, B, UP_A, ROOT);
    AllSayKept(v, UP, B, UP_ROOT, ROOT);
    AllSaySeen(w1, UP_A, ROOT);
    var w2 := Dcache.Consulted(w1, UP_A, ROOT);
    AllSayKept(w1, UP_A, ROOT, UP_ROOT, ROOT);
    AllSaySeen(w2, UP_ROOT, ROOT);
    assert Walk(t, STAMPS_AFTER, 0, w2, ROOT, B, 1).0 == Passed;
    assert Walk(t, STAMPS_AFTER, 0, w1, A, B, 2) == Walk(t, STAMPS_AFTER, 0, w2, ROOT, B, 1);
    assert Walk(t, STAMPS_AFTER, 0, v, X, B, 3) == Walk(t, STAMPS_AFTER, 0, w1, A, B, 2);
  }

  lemma DeeperFacts()
    ensures AllStamped(Deeper(), STAMPS_DEEPER) && 0 !in Deeper()
    ensures forall d | d == A || d == X || d == Y :: IsDir(Deeper(), d)
    ensures ToldParent(Deeper(), Y) == X && ToldParent(Deeper(), X) == B && ToldParent(Deeper(), A) == Y
    ensures ParentKey(0, STAMPS_DEEPER, Y) == UP_Y_LATER && ParentKey(0, STAMPS_DEEPER, X) == UP
    ensures ParentKey(0, STAMPS_DEEPER, A) == UP_A
  {
  }

  /** With a in y the same walk goes from x to a, to y and back to x, and so for ever. */
  lemma RoundXAY(v: Dcache.Levels, z: nat)
    requires Dcache.LevelsOk(v) && Dcache.Cached(v, UP) == Dcache.Some(A)
    requires Dcache.AllSay(v, UP_A, Y) && Dcache.AllSay(v, UP_Y_LATER, X) && z != X && z != A && z != Y
    ensures AllStamped(Deeper(), STAMPS_DEEPER) && NeverEnds(Deeper(), STAMPS_DEEPER, 0, v, X, z)
  {
    hide Dcache.Consulted, Deeper, Dcache.AllSay, SeenParent, ToldParent, Dcache.Cached, Dcache.LevelsOk, NeverEnds;
    DeeperFacts();
    var t, vers := Deeper(), STAMPS_DEEPER;
    SeenIs(v, UP, A, B);
    var w1 := Dcache.Consulted(v, UP, B);
    AllSayKept(v, UP, B, UP_A, Y);
    AllSayKept(v, UP, B, UP_Y_LATER, X);
    AllSaySeen(w1, UP_A, Y);
    var w2 := Dcache.Consulted(w1, UP_A, Y);
    AllSayKept(w1, UP_A, Y, UP_Y_LATER, X);
    AllSaySeen(w2, UP_Y_LATER, X);
    var w3 := Dcache.Consulted(w2, UP_Y_LATER, X);
    assert Goes(t, vers, 0, w3, X, z, 0) && StageOf(t, vers, 0, w3, X, 0).at == X;
    assert Goes(t, vers, 0, w2, Y, z, 1) && StageOf(t, vers, 0, w2, Y, 1).at == X;
    assert Goes(t, vers, 0, w1, A, z, 2) && StageOf(t, vers, 0, w1, A, 2).at == X;
    assert Goes(t, vers, 0, v, X, z, 3) && StageOf(t, vers, 0, v, X, 3).at == X;
    assert StageOf(t, vers, 0, v, X, 0).at == X;
    ComesBackForEver(t, vers, 0, v, X, z, 0, 3);
  }

  // ----- the runs

  /** Nothing that matters is cached. */
  ghost predicate Blank(v: Dcache.Levels) {
    Dcache.LevelsOk(v) && Origins(v, []) && Absent(v, UP)
  }

  lemma BlankKept(v: Dcache.Levels, k: Dcache.Key, ino: nat)
    requires Blank(v) && Plain(k.name) && k != UP
    ensures Blank(Dcache.Entered(v, k, ino))
  {
    hide Dcache.Entered, Absent, Dcache.LevelsOk, Origins;
    Dcache.EnteredOk(v, k, ino);
    OriginsKept(v, k, ino, []);
    AbsentAfter(v, k, ino, UP);
  }

  lemma BlankAtFirst(v: Dcache.Levels)
    requires Dcache.LevelsOk(v) && |v.one| == Dcache.SIZE == |v.two|
    requires forall i | 0 <= i < Dcache.SIZE :: !v.one[i].hashed && !v.two[i].hashed
    ensures Blank(v)
  {
    hide Dcache.LevelsOk;
    forall j
      ensures Absent(v, j)
    {
      Dcache.NothingOn(v.one, j);
      Dcache.NothingOn(v.two, j);
    }
    hide Dcache.Place;
  }

  // ----- requests with their trace

  /** The requests so far and the states between them. */
  datatype Trace = Trace(requests: seq<Request>, scenes: seq<Scene>)

  /** A volume with nothing but its root, and nothing cached. */
  ghost predicate Beginning(s: Scene) {
    && s.nodes == map[ROOT := FreshDir(ROOT, ROOT)] && s.versions == map[ROOT := 1] && s.event == 1
    && forall k :: Absent(s.view, k)
  }

  /** The trace is a run from the beginning to the present state. */
  ghost predicate Traced(ns: Namespace, t: Trace)
    requires ns.cache.Valid()
    reads ns, ns.cache
  {
    && ns.IsRun(t.requests, |t.requests|, t.scenes) && |t.scenes| == |t.requests| + 1
    && Beginning(t.scenes[0]) && t.scenes[|t.requests|] == ns.Now()
  }

  /** One request more. */
  method Ask(ns: Namespace, q: Request, ghost t: Trace) returns (s: Status, ghost u: Trace)
    requires ns.Valid() && Traced(ns, t)
    modifies ns, ns.cache
    ensures ns.Sound() && Traced(ns, u) && u.requests == t.requests + [q]
    ensures (s == Done <==> old(Grants(ns.dev, ns.Now(), q))) && Leads(ns.dev, old(ns.Now()), q, ns.Now())
    ensures Tree(ns.nodes, ns.root) <==> !old(Swallows(ns.dev, ns.Now(), q))
    ensures old(ns.InStep()) ==> Tree(ns.nodes, ns.root) && (old(Guarded(ns.dev, ns.Now(), q)) ==> ns.InStep())
  {
    hide *;
    ValidSound(ns);
    SoundParts(ns);
    TracedParts(ns, t);
    s := ns.Serve(q);
    SoundParts(ns);
    Longer(ns, t, q);
    ns.OneMore(t.requests + [q], |t.requests|, t.scenes, ns.Now());
    u := Trace(t.requests + [q], t.scenes + [ns.Now()]);
    TracedIs(ns, t, u);
  }

  lemma SoundParts(ns: Namespace)
    requires ns.Sound()
    ensures ns.cache.Valid() && AllStamped(ns.nodes, ns.versions)
    ensures ns.Now() == Scene(ns.nodes, ns.versions, ns.event, ns.cache.View())
    ensures ns.Valid() <==> Tree(ns.nodes, ns.root)
  {
  }

  lemma TracedParts(ns: Namespace, t: Trace)
    requires ns.cache.Valid() && Traced(ns, t)
    ensures ns.IsRun(t.requests, |t.requests|, t.scenes) && |t.scenes| == |t.requests| + 1
    ensures Beginning(t.scenes[0]) && t.scenes[|t.requests|] == ns.Now()
  {
  }

  lemma TracedIs(ns: Namespace, t: Trace, u: Trace)
    requires ns.cache.Valid() && |t.scenes| > 0 && Beginning(t.scenes[0]) && t.scenes <= u.scenes
    requires ns.IsRun(u.requests, |u.requests|, u.scenes) && |u.scenes| == |u.requests| + 1 && u.scenes[|u.requests|] == ns.Now()
    ensures Traced(ns, u)
  {
  }

  lemma Longer(ns: Namespace, t: Trace, q: Request)
    requires ns.IsRun(t.requests, |t.requests|, t.scenes)
    ensures ns.IsRun(t.requests + [q], |t.requests|, t.scenes)
  {
    hide Leads, Swallows, Tree, AllStamped;
    var more := t.requests + [q];
    assert forall i | 0 <= i < |t.requests| :: more[i] == t.requests[i];
  }

  lemma Started(ns: Namespace)
    requires ns.Sound() && ns.nodes == map[ROOT := FreshDir(ROOT, ROOT)] && ns.versions == map[ROOT := 1] && ns.event == 1
    requires forall i | 0 <= i < Dcache.SIZE :: !ns.cache.View().one[i].hashed && !ns.cache.View().two[i].hashed
    ensures Traced(ns, Trace([], [ns.Now()])) && Blank(ns.cache.View())
  {
    hide Dcache.NameCache.Valid, Clocked, Dcache.LevelsOk;
    ns.cache.ViewOk();
    SizesOk(ns.cache.View());
    BlankAtFirst(ns.cache.View());
    forall k
      ensures Absent(ns.cache.View(), k)
    {
      Dcache.NothingOn(ns.cache.View().one, k);
      Dcache.NothingOn(ns.cache.View().two, k);
    }
  }

  /** The directories are made. */
  method Build() returns (ns: Namespace, ghost t: Trace)
    ensures fresh(ns) && fresh(ns.cache) && ns.Valid() && ns.InStep() && ns.root == ROOT && ns.dev == 0
    ensures ns.nodes == Before() && ns.versions == STAMPS_BEFORE && ns.event == 16 && Blank(ns.cache.View()) && Traced(ns, t)
  {
    hide Tree, Clocked, Dcache.NameCache.Valid, Blank, Dcache.Entered, Before, Tree1, Tree2, Tree3, Tree4, DirAdded, FreshDir,
         ParentsRight, Traced;
    ns := new Namespace(ROOT);
    Started(ns);
    BeforeIs();
    SmallDirs();
    StampsGrow();
    t := MakeOne(ns, ROOT, "a", A, Trace([], [ns.Now()]));
    t := MakeOne(ns, ROOT, "b", B, t);
    t := MakeOne(ns, ROOT, "c", C, t);
    t := MakeOne(ns, A, "x", X, t);
    t := MakeOne(ns, X, "y", Y, t);
  }

  method MakeOne(ns: Namespace, d: nat, name: Name, x: nat, ghost t: Trace) returns (ghost u: Trace)
    requires ns.Valid() && ns.InStep() && ns.dev == 0 && IsDir(ns.nodes, d) && !Bound(ns.nodes, d, name) && ns.nodes[d].nlink < LINK_MAX
    requires x !in ns.nodes && x != 0 && Key(name) == name && Plain(name) && name != ".." && Blank(ns.cache.View()) && Traced(ns, t)
    modifies ns, ns.cache
    ensures ns.Valid() && ns.InStep() && ns.nodes == DirAdded(old(ns.nodes), d, name, x) && ns.event == old(ns.event) + 3
    ensures ns.versions == old(ns.versions)[x := old(ns.event) + 1][d := old(ns.event) + 3] && Blank(ns.cache.View())
    ensures Traced(ns, u)
  {
    hide Tree, Clocked, Dcache.NameCache.Valid, Blank, Dcache.Entered, DirAdded, ParentsRight, Traced, Leads, Grants, Swallows;
    SoundParts(ns);
    BlankKept(ns.cache.View(), Dcache.Key(0, d, ns.event + 3, name), x);
    MakeLeads(ns.Now(), d, name, x);
    ghost var was := ns.Now();
    var s;
    s, u := Ask(ns, MakeDir(d, name, Some(x), true, true), t);
    SoundParts(ns);
  }

  /** What making a directory leads to. */
  lemma MakeLeads(s: Scene, d: nat, name: Name, x: nat)
    requires AllStamped(s.nodes, s.versions) && IsDir(s.nodes, d) && !Bound(s.nodes, d, name) && s.nodes[d].nlink < LINK_MAX
    requires x !in s.nodes && x != 0 && Key(name) == name
    ensures var q := MakeDir(d, name, Some(x), true, true);
            && !Swallows(0, s, q)
            && forall u | Leads(0, s, q, u) ::
                 u == Scene(DirAdded(s.nodes, d, name, x), s.versions[x := s.event + 1][d := s.event + 3], s.event + 3,
                            Dcache.Entered(s.view, Dcache.Key(0, d, s.event + 3, name), x))
  {
    hide DirAdded, Dcache.Entered;
  }

  /** What a lookup and a listing lead to. */
  lemma LookLeads(s: Scene, d: nat, name: Name)
    requires AllStamped(s.nodes, s.versions) && IsDir(s.nodes, d)
    ensures !Swallows(0, s, Look(d, name)) && Guarded(0, s, Look(d, name))
    ensures forall u | Leads(0, s, Look(d, name), u) ::
              u == s.(view := Dcache.Consulted(s.view, Dcache.Key(0, d, s.versions[d], name), Told(s.nodes, d, name)))
  {
    hide Dcache.Consulted, Told;
  }

  lemma ListLeads(s: Scene, d: nat, name: Name)
    requires AllStamped(s.nodes, s.versions) && Bound(s.nodes, d, name) && IsDir(s.nodes, d)
    ensures !Swallows(0, s, ListOne(d, name)) && Guarded(0, s, ListOne(d, name))
    ensures forall u | Leads(0, s, ListOne(d, name), u) ::
              u == s.(view := Dcache.Entered(s.view, Dcache.Key(0, d, s.versions[d], name), s.nodes[d].entries[name]))
  {
    hide Dcache.Entered;
  }

  /** What a rename leads to when the records allow it but for the walk, and the walk passes. */
  lemma MoveLeads(s: Scene, od: nat, on: Name, nd: nat, nn: Name, n: nat)
    requires AllStamped(s.nodes, s.versions) && IsDir(s.nodes, od) && IsDir(s.nodes, nd)
    requires MayBeRenamed(on) && MayBeRenamed(nn) && Key(on) == on && Key(nn) == nn
    requires Movable(s.nodes, od, on, nd, nn, false, true) && !SameInode(s.nodes, od, on, nd, nn)
    requires WalkMisses(0, s, od, on, nd, nn, n)
    ensures var q := Move(od, on, nd, nn, false, true, n);
            && (Swallows(0, s, q) <==> BelowItself(s.nodes, od, on, nd))
            && forall u | Leads(0, s, q, u) ::
                 && MoveMakesSense(s.nodes, od, on, nd, nn)
                 && u == Shifted(0, s, Renamed(s.nodes, od, on, nd, nn), od, on, nd, nn, n)
  {
    hide Movable, SameInode, WalkMisses, BelowItself, MoveMakesSense, Renamed, Shifted, Key, MayBeRenamed;
    assert Grants(0, s, Move(od, on, nd, nn, false, true, n));
  }

  lemma StampsGrow()
    ensures map[ROOT := 1][A := 2][ROOT := 4][B := 5][ROOT := 7][C := 8][ROOT := 10][X := 11][A := 13][Y := 14][X := 16] == STAMPS_BEFORE
  {
  }

  lemma SmallDirs()
    ensures Key("a") == "a" && Key("b") == "b" && Key("c") == "c" && Key("x") == "x" && Key("y") == "y"
    ensures var t := map[ROOT := FreshDir(ROOT, ROOT)];
            IsDir(t, ROOT) && !Bound(t, ROOT, "a") && t[ROOT].nlink < LINK_MAX && A !in t && Tree1() == DirAdded(t, ROOT, "a", A)
    ensures IsDir(Tree1(), ROOT) && !Bound(Tree1(), ROOT, "b") && Tree1()[ROOT].nlink < LINK_MAX && B !in Tree1()
    ensures IsDir(Tree2(), ROOT) && !Bound(Tree2(), ROOT, "c") && Tree2()[ROOT].nlink < LINK_MAX && C !in Tree2()
    ensures IsDir(Tree3(), A) && !Bound(Tree3(), A, "x") && Tree3()[A].nlink < LINK_MAX && X !in Tree3()
    ensures IsDir(Tree4(), X) && !Bound(Tree4(), X, "y") && Tree4()[X].nlink < LINK_MAX && Y !in Tree4()
    ensures Tree2() == DirAdded(Tree1(), ROOT, "b", B) && Tree3() == DirAdded(Tree2(), ROOT, "c", C)
    ensures Tree4() == DirAdded(Tree3(), A, "x", X)
  {
  }

  /** c is as it was made. */
  predicate HasC(t: Nodes, versions: Versions) {
    C in t && t[C] == FreshDir(C, ROOT) && C in versions && versions[C] == 8
  }

  /** Looks up a spare name of c, which does not bind it. */
  method LookupName(ns: Namespace, i: nat, ghost t: Trace) returns (ghost u: Trace)
    requires ns.Valid() && ns.dev == 0 && HasC(ns.nodes, ns.versions) && i < 1000 && Traced(ns, t)
    modifies ns, ns.cache
    ensures ns.Valid() && (old(ns.InStep()) ==> ns.InStep()) && Traced(ns, u)
    ensures ns.nodes == old(ns.nodes) && ns.versions == old(ns.versions) && ns.event == old(ns.event)
    ensures ns.cache.View() == Dcache.Consulted(old(ns.cache.View()), Dcache.Key(0, C, 8, Dcache.Spare(i)), 0)
  {
    hide *;
    ValidSound(ns);
    SoundParts(ns);
    CKnown(ns);
    SpareUnbound(ns.nodes, i);
    LookLeads(ns.Now(), C, Dcache.Spare(i));
    var s;
    s, u := Ask(ns, Look(C, Dcache.Spare(i)), t);
    SoundParts(ns);
  }

  lemma ValidSound(ns: Namespace)
    requires ns.Valid()
    ensures ns.Sound() && ns.cache.Valid()
  {
  }

  /** Looks up the spare names a, ..., b - 1. */
  method LookupNames(ns: Namespace, a: nat, b: nat, ghost t: Trace) returns (ghost u: Trace)
    requires ns.Valid() && ns.dev == 0 && HasC(ns.nodes, ns.versions) && a <= b <= 1000 && Traced(ns, t)
    modifies ns, ns.cache
    ensures ns.Valid() && (old(ns.InStep()) ==> ns.InStep()) && Traced(ns, u)
    ensures ns.nodes == old(ns.nodes) && ns.versions == old(ns.versions) && ns.event == old(ns.event)
    ensures ns.cache.View() == Dcache.ConsultedAll(old(ns.cache.View()), Dcache.SpareKeys(0, C, 8, a, b))
  {
    hide *;
    ValidSound(ns);
    ghost var v, keys := ns.cache.View(), Dcache.SpareKeys(0, C, 8, a, b);
    Dcache.NoKeys(v);
    u := t;
    for i := a to b
      invariant ns.Valid() && ns.Sound() && ns.cache.Valid() && (old(ns.InStep()) ==> ns.InStep()) && Traced(ns, u)
      invariant ns.nodes == old(ns.nodes) && ns.versions == old(ns.versions) && ns.event == old(ns.event)
      invariant ns.cache.View() == Dcache.ConsultedAll(v, keys[..i - a])
    {
      Dcache.ConsultedNext(v, keys, i - a);
      u := LookupName(ns, i, u);
      ValidSound(ns);
    }
    assert keys[..b - a] == keys;
  }

  /** The same with each name looked up twice. */
  method LookupTwice(ns: Namespace, a: nat, b: nat, ghost t: Trace) returns (ghost u: Trace)
    requires ns.Valid() && ns.dev == 0 && HasC(ns.nodes, ns.versions) && a <= b <= 1000 && Traced(ns, t)
    modifies ns, ns.cache
    ensures ns.Valid() && Traced(ns, u)
    ensures ns.nodes == old(ns.nodes) && ns.versions == old(ns.versions) && ns.event == old(ns.event)
    ensures ns.cache.View() == Dcache.ConsultedAll(old(ns.cache.View()), Dcache.Twice(Dcache.SpareKeys(0, C, 8, a, b)))
  {
    hide *;
    ValidSound(ns);
    ghost var v, keys := ns.cache.View(), Dcache.SpareKeys(0, C, 8, a, b);
    Dcache.NoKeys(v);
    NothingTwice(keys);
    u := t;
    for i := a to b
      invariant ns.Valid() && ns.Sound() && ns.cache.Valid() && Traced(ns, u)
      invariant ns.nodes == old(ns.nodes) && ns.versions == old(ns.versions) && ns.event == old(ns.event)
      invariant ns.cache.View() == Dcache.ConsultedAll(v, Dcache.Twice(keys[..i - a]))
    {
      TwiceNext(v, keys, i - a);
      u := LookupName(ns, i, u);
      ValidSound(ns);
      u := LookupName(ns, i, u);
      ValidSound(ns);
    }
    assert keys[..b - a] == keys;
  }

  lemma NothingTwice(keys: seq<Dcache.Key>)
    ensures Dcache.Twice(keys[..0]) == []
  {
  }

  lemma TwiceNext(v: Dcache.Levels, keys: seq<Dcache.Key>, n: nat)
    requires n < |keys|
    ensures Dcache.ConsultedAll(v, Dcache.Twice(keys[..n + 1]))
            == Dcache.Consulted(Dcache.Consulted(Dcache.ConsultedAll(v, Dcache.Twice(keys[..n])), keys[n], 0), keys[n], 0)
  {
    assert keys[..n + 1][..n] == keys[..n];
    Dcache.ConsultedTwice(v, Dcache.Twice(keys[..n]), keys[n]);
  }

  lemma CKnown(ns: Namespace)
    requires ns.Sound() && HasC(ns.nodes, ns.versions)
    ensures ns.cache.Valid() && C in ns.versions && ns.versions[C] == 8 && IsDir(ns.nodes, C) && Bound(ns.nodes, C, "..")
    ensures ns.nodes[C] == FreshDir(C, ROOT)
  {
  }

  lemma SpareUnbound(t: Nodes, i: nat)
    requires i < 1000 && C in t && t[C] == FreshDir(C, ROOT)
    ensures Told(t, C, Dcache.Spare(i)) == 0
  {
  }

  /** The first half: names looked up, x listed and its ".." looked up. */
  method MakeCopies(ns: Namespace, ghost t: Trace) returns (ghost u: Trace)
    requires ns.Valid() && ns.InStep() && ns.dev == 0 && ns.nodes == Before() && ns.versions == STAMPS_BEFORE && Blank(ns.cache.View())
    requires Traced(ns, t)
    modifies ns, ns.cache
    ensures ns.Valid() && ns.InStep() && CopiedTwice(ns.cache.View()) && Traced(ns, u)
    ensures ns.nodes == old(ns.nodes) && ns.versions == old(ns.versions) && ns.event == old(ns.event)
  {
    hide Tree, Clocked, Dcache.NameCache.Valid, Dcache.Entered, Dcache.Consulted, Dcache.ConsultedAll, Dcache.Cached, CopiedTwice,
         ParentsRight, Origins, Dcache.LevelsOk, Absent, Traced, Leads, Grants, Swallows, Guarded;
    CopiesMade(ns.cache.View());
    u := LookupNames(ns, 0, Dcache.SIZE - 1, t);
    SoundParts(ns);
    ListLeads(ns.Now(), X, "..");
    var s;
    s, u := Ask(ns, ListOne(X, ".."), u);
    SoundParts(ns);
    LookLeads(ns.Now(), X, "..");
    s, u := Ask(ns, Look(X, ".."), u);
    SoundParts(ns);
  }

  lemma PlainKeys()
    ensures Key("x") == "x" && Key("b") == "b" && Key("a") == "a" && MayBeRenamed("x") && MayBeRenamed("b") && MayBeRenamed("a")
  {
  }

  /** What the first rename leads to. */
  lemma XLeads(s: Scene)
    requires s.nodes == Before() && s.versions == STAMPS_BEFORE && s.event == 16 && Tree(Before(), ROOT) && CopiedTwice(s.view)
    requires AllStamped(s.nodes, s.versions) && Dcache.Past(s.view, 16) && Right(0, s) && MoveGoes(0, s, A, "x", B, "x", false, true, 2)
    ensures var q := Move(A, "x", B, "x", false, true, 2);
            && !Swallows(0, s, q)
            && forall u | Leads(0, s, q, u) ::
                 u.nodes == After() && u.versions == STAMPS_AFTER && u.event == 19 && Corrected(u.view)
  {
    hide Tree, Walked, Movable, MoveMakesSense, Renamed, BelowItself, CopiedTwice, Corrected, After, MoveGoes, NewEntries, Leads,
         Swallows, WalkMisses, SameInode, ParentsRight, Dcache.Past, Guarded, Grants;
    BNotBelowX();
    MovesX();
    PlainKeys();
    XStamps();
    GoesMisses(s, A, "x", B, "x", 2);
    MoveLeads(s, A, "x", B, "x", 2);
    XMoved(s.view);
  }

  lemma XStamps()
    ensures STAMPS_BEFORE[B := 18][A := 19] == STAMPS_AFTER
    ensures Bound(Before(), A, "x") && Before()[A].entries["x"] == X && IsDir(Before(), X) && !Bound(Before(), B, "x")
  {
  }

  /** x moves from a to b. */
  method MoveX(ns: Namespace, ghost t: Trace) returns (ghost u: Trace)
    requires ns.Valid() && ns.InStep() && ns.dev == 0 && ns.root == ROOT && ns.nodes == Before() && ns.versions == STAMPS_BEFORE
    requires ns.event == 16 && CopiedTwice(ns.cache.View()) && Traced(ns, t)
    modifies ns, ns.cache
    ensures ns.Valid() && ns.nodes == After() && ns.versions == STAMPS_AFTER && ns.event == 19
    ensures Corrected(ns.cache.View()) && Traced(ns, u)
  {
    hide Tree, Clocked, Dcache.NameCache.Valid, Movable, BelowItself, ParentsRight, CopiedTwice, Corrected, After, MoveGoes,
         Traced, Leads, Grants, Swallows, Guarded, SameInode, Dcache.Past, MayRename, Under, Up;
    ns.Opened();
    SoundParts(ns);
    MovesX();
    BNotBelowX();
    XMay();
    ns.InStepGoesThrough(A, "x", B, "x", false, true, 2);
    XLeads(ns.Now());
    var s;
    s, u := Ask(ns, Move(A, "x", B, "x", false, true, 2), t);
    SoundParts(ns);
  }

  lemma XMay()
    ensures MayRename(Before(), A, "x", B, "x", false, true) && IsDir(Before(), B)
  {
    MovesX();
    BNotBelowX();
    hide Movable, BelowItself;
  }

  lemma GoesMisses(s: Scene, od: nat, on: Name, nd: nat, nn: Name, n: nat)
    requires AllStamped(s.nodes, s.versions) && MoveGoes(0, s, od, on, nd, nn, false, true, n) && !SameInode(s.nodes, od, on, nd, nn)
    ensures WalkMisses(0, s, od, on, nd, nn, n)
  {
    hide SameInode, WalkMisses, Movable;
  }

  /** Other lookups drive the corrected copy out. */
  method Bury(ns: Namespace, ghost t: Trace) returns (ghost u: Trace)
    requires ns.Valid() && ns.dev == 0 && HasC(ns.nodes, ns.versions) && Traced(ns, t)
    modifies ns, ns.cache
    ensures ns.Valid() && ns.cache.View() == AfterLookups(old(ns.cache.View())) && Traced(ns, u)
    ensures ns.nodes == old(ns.nodes) && ns.versions == old(ns.versions) && ns.event == old(ns.event)
  {
    hide Tree, Clocked, Dcache.NameCache.Valid, Dcache.ConsultedAll, Dcache.Twice, Traced, HasC;
    NamesRest();
    u := LookupNames(ns, SPENT, Dcache.SIZE - 1, t);
    u := LookupTwice(ns, Dcache.SIZE - 1, Dcache.SIZE + SPENT, u);
  }

  lemma NamesRest()
    ensures Names()[SPENT..] == Dcache.SpareKeys(0, C, 8, SPENT, Dcache.SIZE - 1)
  {
  }

  lemma AfterHasA()
    ensures Bound(After(), ROOT, "a") && After()[ROOT].entries["a"] == A && IsDir(After(), A) && !Bound(After(), Y, "a")
    ensures IsDir(After(), ROOT) && IsDir(After(), Y)
  {
  }

  lemma StampsOfA()
    ensures STAMPS_AFTER[Y := 21][ROOT := 22] == STAMPS_DEEPER
  {
  }

  /** What the second rename leads to. */
  lemma ALeads(s: Scene)
    requires s.nodes == After() && s.versions == STAMPS_AFTER && s.event == 19 && Corrected(s.view)
    requires AllStamped(s.nodes, s.versions) && Dcache.Past(s.view, 19)
    ensures var q := Move(ROOT, "a", Y, "a", false, true, 4);
            && !Swallows(0, s, q)
            && forall u | Leads(0, s, q, u) :: u.nodes == Deeper() && u.versions == STAMPS_DEEPER && Nested(u.view)
  {
    hide Walk, Movable, MoveMakesSense, Renamed, BelowItself, Corrected, Nested, After, Deeper, NewEntries, SameInode, Leads, Grants,
         Swallows, Dcache.Past;
    ANotAboveY();
    MovesA();
    AfterHasA();
    StampsOfA();
    PlainKeys();
    SecondWalk(s.view);
    AMoved(s.view);
    MoveLeads(s, ROOT, "a", Y, "a", 4);
  }

  /** a moves into y. */
  method MoveA(ns: Namespace, ghost t: Trace) returns (ghost u: Trace)
    requires ns.Valid() && ns.dev == 0 && ns.root == ROOT && ns.nodes == After() && ns.versions == STAMPS_AFTER
    requires ns.event == 19 && Corrected(ns.cache.View()) && Traced(ns, t)
    modifies ns, ns.cache
    ensures ns.Valid() && ns.nodes == Deeper() && ns.versions == STAMPS_DEEPER && Nested(ns.cache.View()) && Traced(ns, u)
  {
    hide Tree, Clocked, Dcache.NameCache.Valid, Corrected, Nested, After, Deeper, Traced, Leads, Grants, Swallows, Dcache.Past;
    ns.Opened();
    SoundParts(ns);
    ALeads(ns.Now());
    var s;
    s, u := Ask(ns, Move(ROOT, "a", Y, "a", false, true, 4), t);
    SoundParts(ns);
  }

  /** The first run: b moves into x, which is in b. The rename goes through, and what is left is no
      tree. */
  method LostTree() returns (ns: Namespace, ghost t: Trace)
    ensures fresh(ns) && ns.Sound() && Traced(ns, t) && !Tree(ns.nodes, ns.root)
  {
    hide Tree, Clocked, Dcache.NameCache.Valid, Blank, CopiedTwice, Corrected, AfterLookups, Movable, MoveMakesSense, Renamed,
         BelowItself, Walk, ParentsRight, Traced, Leads, Grants, Swallows, SameInode;
    ns, t := Build();
    t := MakeCopies(ns, t);
    t := MoveX(ns, t);
    BuriedThen(ns.cache.View());
    t := Bury(ns, t);
    SoundParts(ns);
    BLeads(ns.Now());
    var s;
    s, t := Ask(ns, Move(ROOT, "b", X, "b", false, true, 3), t);
  }

  /** The walk misses b, which is above x. */
  lemma BLeads(s: Scene)
    requires s.nodes == After() && s.versions == STAMPS_AFTER && AllStamped(s.nodes, s.versions)
    requires Dcache.Cached(s.view, UP) == Dcache.Some(A) && Dcache.AllSay(s.view, UP_A, ROOT) && Dcache.AllSay(s.view, UP_ROOT, ROOT)
    ensures Swallows(0, s, Move(ROOT, "b", X, "b", false, true, 3))
  {
    hide Walk, Movable, BelowItself, SameInode, Leads, Swallows, Dcache.AllSay, Dcache.Cached;
    PastB(s.view);
    BelowB();
    PlainKeys();
    MoveLeads(s, ROOT, "b", X, "b", 3);
  }

  lemma BuriedThen(v: Dcache.Levels)
    requires Corrected(v)
    ensures Dcache.Cached(AfterLookups(v), UP) == Dcache.Some(A)
    ensures Dcache.AllSay(AfterLookups(v), UP_A, ROOT) && Dcache.AllSay(AfterLookups(v), UP_ROOT, ROOT)
  {
    hide AfterLookups, Intact, Dcache.AllSay, Absent, Dcache.Late, Dcache.Cached, Dcache.LevelsOk;
    BuriedIs(v, 4);
    AbsentSays(v, UP_A, ROOT);
    StillSaid(v, UP_A, ROOT);
    StillSaid(v, UP_ROOT, ROOT);
  }

  /** The second run: a has moved into y. Then c may move into x as far as the records go, but the walk
      before that does not end, and neither does one that looks for any other directory but x, a
      and y. */
  method EndlessWalk() returns (ns: Namespace, ghost t: Trace)
    ensures fresh(ns) && ns.Valid() && Traced(ns, t) && MayRename(ns.nodes, ROOT, "c", X, "c", false, true)
    ensures forall z | z != X && z != A && z != Y :: NeverEnds(ns.nodes, ns.versions, ns.dev, ns.cache.View(), X, z)
    ensures forall n: nat :: !MoveGoes(ns.dev, ns.Now(), ROOT, "c", X, "c", false, true, n)
  {
    hide Tree, Clocked, Dcache.NameCache.Valid, Blank, CopiedTwice, Corrected, Nested, AfterLookups, ParentsRight, NeverEnds, MoveGoes,
         Dcache.Cached, MayRename, Deeper, Dcache.AllSay, Dcache.LevelsOk, Traced;
    ns, t := Build();
    t := MakeCopies(ns, t);
    t := MoveX(ns, t);
    t := MoveA(ns, t);
    NestedThen(ns.cache.View());
    t := Bury(ns, t);
    ghost var v := ns.cache.View();
    DeeperFacts();
    forall z | z != X && z != A && z != Y
      ensures NeverEnds(ns.nodes, ns.versions, ns.dev, v, X, z)
    {
      RoundXAY(v, z);
    }
    MovesC();
    forall n: nat
      ensures !MoveGoes(ns.dev, ns.Now(), ROOT, "c", X, "c", false, true, n)
    {
      NeverGoes(ns.Now(), n);
    }
  }

  lemma NestedThen(v: Dcache.Levels)
    requires Nested(v)
    ensures Dcache.LevelsOk(AfterLookups(v)) && Dcache.Cached(AfterLookups(v), UP) == Dcache.Some(A)
    ensures Dcache.AllSay(AfterLookups(v), UP_A, Y) && Dcache.AllSay(AfterLookups(v), UP_Y_LATER, X)
    ensures HasC(Deeper(), STAMPS_DEEPER)
  {
    hide AfterLookups, Intact, Dcache.AllSay, Dcache.Cached, Dcache.LevelsOk;
    BuriedIs(v, 10);
    StillSaid(v, UP_A, Y);
    StillSaid(v, UP_Y_LATER, X);
  }

  lemma MovesC()
    ensures MayRename(Deeper(), ROOT, "c", X, "c", false, true)
  {
    CNotAboveX();
    hide Under;
  }

  lemma NeverGoes(s: Scene, n: nat)
    requires s.nodes == Deeper() && AllStamped(s.nodes, s.versions) && NeverEnds(s.nodes, s.versions, 0, s.view, X, C)
    ensures !MoveGoes(0, s, ROOT, "c", X, "c", false, true, n)
  {
    hide Walk;
    assert Goes(s.nodes, s.versions, 0, s.view, X, C, n);
  }
}
