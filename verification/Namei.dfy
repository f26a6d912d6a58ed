/** The name operations of namei.c: create, link, unlink, mkdir, rmdir and rename, run on the
    directory tree in place, beside the name cache that answers lookups. Names are in the form that
    is compared; what a directory binds is then Directory.Names of its records. */
module Namei {
  import opened DirTree
  import opened TreeOps
  import opened TreeDirs
  import Dcache
  import Directory
  import Records

  const NAME_LEN: nat := 255
  const LINK_MAX: nat := 32000

  datatype Status = Done | NoEntry | NotPermitted | Exists | TooManyLinks | NoSpace
                  | NotDir | IsADir | Invalid | NotEmpty | Busy | Stuck

  datatype Option = None | Some(ino: nat)

  /** What a search looks for: long names are cut, the empty name stands for ".". */
  function Key(name: Name): (k: Name)
    ensures k != ""
  {
    if |name| > NAME_LEN then name[..NAME_LEN] else if name == "" then "." else name
  }

  lemma KeyMeans(name: Name)
    ensures 0 < |name| <= 255 ==> Key(name) == name
    ensures |name| > 255 ==> Key(name) == name[..255]
    ensures name == "" ==> Key(name) == "."
  {
  }

  /** d binds the searched name to x. */
  predicate Finds(t: Nodes, d: nat, name: Name, x: nat) {
    Bound(t, d, Key(name)) && t[d].entries[Key(name)] == x
  }

  // ----- what a rename does, as one value

  /** The inode a rename replaces loses the name, and a directory its own "." as well. */
  function Dropped(t: Nodes, x: nat): Nodes {
    if x !in t then t
    else
      var lost := if t[x].isDir then 2 else 1;
      if t[x].nlink <= lost then t - {x} else WithLinks(t, x, t[x].nlink - lost)
  }

  function Relinked(t: Nodes, od: nat, nd: nat, c: nat, instead: bool): Nodes
    requires od in t && nd in t && c in t && od != c && nd != c && t[od].nlink > 0
  {
    var t1 := WithEntry(t, c, "..", nd);
    var t2 := WithLinks(t1, od, t1[od].nlink - 1);
    if instead then t2 else WithLinks(t2, nd, t2[nd].nlink + 1)
  }

  /** Entry nn of nd becomes what on of od was, and on goes. */
  function Rebound(t: Nodes, od: nat, on: Name, nd: nat, nn: Name): Nodes
    requires Bound(t, od, on) && nd in t
  {
    WithoutEntry(WithEntry(t, nd, nn, t[od].entries[on]), od, on)
  }

  lemma NameNotEmpty(t: Nodes, root: nat, d: nat, name: Name)
    requires Shaped(t, root) && Bound(t, d, name)
    ensures name != "" && t[d].entries[name] in t
  {
    hide BoundOnce, Rooted;
    assert NodeShaped(t, d);
  }

  /** Without the empty directory x the walks up from elsewhere are the same. */
  lemma UnderWithout(t: Nodes, u: Nodes, root: nat, d: nat, name: Name, x: nat, e: nat, a: nat)
    requires Shaped(t, root) && Removed(t, u, d, name, x) && IsDir(t, x) && Empty(t, x) && x != root
    requires IsDir(t, e) && e != x
    ensures Under(u, e, a) <==> Under(t, e, a)
  {
    hide BoundOnce, Rooted;
    NoChildren(t, root, x);
    RemovedParents(t, u, root, d, name, x);
    forall n: nat
      ensures Up(u, e, n) == Up(t, e, n)
    {
      forall m: nat | m < n
        ensures Parent(u, Up(t, e, m)) == Parent(t, Up(t, e, m))
      {
        UpDirs(t, root, e, m);
        UpAvoids(t, root, e, x, m);
      }
      UpSame(t, u, e, n);
    }
  }

  lemma RemovedIs(t: Nodes, d: nat, name: Name)
    requires Bound(t, d, name) && !Dots(name) && t[d].nlink > 0 && t[d].entries[name] != d
    ensures Removed(t, DirRemoved(t, d, name), d, name, t[d].entries[name])
  {
  }

  lemma EmptyBindsDots(t: Nodes, x: nat, d: nat, name: Name)
    requires Empty(t, x) && Bound(t, d, name) && !Dots(name)
    ensures d != x
  {
    assert name in t[d].entries.Keys;
  }

  /** An empty directory has exactly two links. */
  lemma EmptyLinks(t: Nodes, root: nat, x: nat)
    requires Tree(t, root) && IsDir(t, x) && Empty(t, x) && x != root
    ensures t[x].nlink == 2
  {
    hide Shaped, Empty;
    NoChildren(t, root, x);
    assert SubDirs(t, root, x) == {};
  }

  /** "." and ".." never name an empty directory other than where the search starts. */
  lemma DotsNotEmpty(t: Nodes, root: nat, d: nat, name: Name)
    requires Shaped(t, root) && IsDir(t, d) && Dots(name) && Bound(t, d, name) && t[d].entries[name] != d
    ensures !Empty(t, t[d].entries[name])
  {
    hide Shaped, Empty;
    DotsBound(t, root, d);
    assert name == "..";
    var p := Parent(t, d);
    if p == root {
      RootHolds(t, root, d);
    } else {
      assert Up(t, d, 1) == Up(t, p, 0) == p;
      UnderHasChild(t, root, d, p, 1);
    }
  }

  lemma RootHolds(t: Nodes, root: nat, d: nat)
    requires Shaped(t, root) && IsDir(t, d) && d != root && Parent(t, d) == root
    ensures !Empty(t, root)
  {
    hide Rooted;
    assert HasName(t, root, d);
    var m :| Bound(t, root, m) && !Dots(m) && t[root].entries[m] == d;
    assert m in t[root].entries.Keys;
  }

  // ----- what a rename is for

  /** A move over an existing name is the removal of that name followed by a move to a free one. */
  function Renamed(t: Nodes, od: nat, on: Name, nd: nat, nn: Name): Nodes
    requires MoveMakesSense(t, od, on, nd, nn)
  {
    var c := t[od].entries[on];
    var u := if !Bound(t, nd, nn) then t
             else if IsDir(t, c) then DirRemoved(t, nd, nn) else FileRemoved(t, nd, nn);
    if IsDir(t, c) then DirMoved(u, od, on, nd, nn) else FileMoved(u, od, on, nd, nn)
  }

  /** The removal and the move apply. */
  predicate MoveMakesSense(t: Nodes, od: nat, on: Name, nd: nat, nn: Name) {
    && Bound(t, od, on) && IsDir(t, od) && IsDir(t, nd) && t[od].entries[on] in t
    && var c := t[od].entries[on];
    && c != od && c != nd && t[od].nlink > 1 && t[nd].nlink > 1
    && (Bound(t, nd, nn) ==>
          && var x := t[nd].entries[nn];
          && x in t && x != c && x != od && x != nd && t[x].nlink > 0 && IsDir(t, x) == IsDir(t, c))
  }

  /** What a rename asks for, apart from where the new directory lies, for names already cut to
      length. */
  ghost predicate Movable(t: Nodes, od: nat, on: Name, nd: nat, nn: Name, busy: bool, room: bool) {
    && Bound(t, od, on) && !Dots(on) && IsDir(t, nd)
    && var c := t[od].entries[on];
    && c in t && !t[c].frozen
    && (IsDir(t, c) ==> c != nd)
    && if Bound(t, nd, nn) then
         && var x := t[nd].entries[nn];
         && x != nd && IsDir(t, x) == IsDir(t, c)
         && (IsDir(t, x) ==> Empty(t, x) && !busy)
       else room && (IsDir(t, c) ==> t[nd].nlink < LINK_MAX)
  }

  /** The new directory is the moved one or lies below it. */
  ghost predicate BelowItself(t: Nodes, od: nat, on: Name, nd: nat) {
    Bound(t, od, on) && IsDir(t, t[od].entries[on]) && Under(t, nd, t[od].entries[on])
  }

  /** Exactly when a rename goes through as long as lookups answer what the records say. */
  ghost predicate MayRename(t: Nodes, od: nat, on: Name, nd: nat, nn: Name, busy: bool, room: bool) {
    Movable(t, od, on, nd, nn, busy, room) && !BelowItself(t, od, on, nd)
  }

  /** Both names bind the same inode, so there is nothing to do. */
  predicate SameInode(t: Nodes, od: nat, on: Name, nd: nat, nn: Name) {
    && Bound(t, od, on) && Bound(t, nd, nn) && t[od].entries[on] == t[nd].entries[nn]
    && t[od].entries[on] in t && !t[t[od].entries[on]].frozen
  }

  lemma MovableMakesSense(t: Nodes, root: nat, od: nat, on: Name, nd: nat, nn: Name, busy: bool, room: bool)
    requires Tree(t, root) && IsDir(t, od) && Movable(t, od, on, nd, nn, busy, room)
    requires !SameInode(t, od, on, nd, nn)
    ensures MoveMakesSense(t, od, on, nd, nn)
    ensures Bound(t, nd, nn) ==> !Dots(nn)
  {
    hide Shaped, Counted, Under;
    var c := t[od].entries[on];
    LinksPositive(t, root, od, c);
    LinksPositive(t, root, nd, c);
    if IsDir(t, c) {
      ChildOf(t, root, od, on);
    }
    if Bound(t, nd, nn) {
      TargetMakesSense(t, root, od, on, nd, nn);
    }
  }

  lemma TargetMakesSense(t: Nodes, root: nat, od: nat, on: Name, nd: nat, nn: Name)
    requires Tree(t, root) && IsDir(t, od) && IsDir(t, nd) && Bound(t, od, on) && !Dots(on) && Bound(t, nd, nn)
    requires t[nd].entries[nn] != nd && (IsDir(t, t[nd].entries[nn]) ==> Empty(t, t[nd].entries[nn]))
    ensures !Dots(nn)
    ensures var x := t[nd].entries[nn]; x in t && x != od && x != nd && t[x].nlink > 0
  {
    hide Shaped, Counted, Empty;
    var x := t[nd].entries[nn];
    NameNotEmpty(t, root, nd, nn);
    if IsDir(t, x) {
      EmptyBindsDots(t, x, od, on);
      if Dots(nn) {
        DotsNotEmpty(t, root, nd, nn);
      }
      LinksPositive(t, root, x, x);
    } else {
      FileFacts(t, root, x);
      if Dots(nn) {
        DotsBound(t, root, nd);
      }
    }
  }

  /** A rename leaves a tree exactly when it does not move a directory below itself. */
  lemma RenamedTree(t: Nodes, root: nat, od: nat, on: Name, nd: nat, nn: Name, busy: bool, room: bool)
    requires Tree(t, root) && IsDir(t, od) && Movable(t, od, on, nd, nn, busy, room)
    requires !SameInode(t, od, on, nd, nn) && nn != ""
    ensures MoveMakesSense(t, od, on, nd, nn)
    ensures Tree(Renamed(t, od, on, nd, nn), root) <==> !BelowItself(t, od, on, nd)
  {
    hide Shaped, Counted, Under, Dots, Empty;
    var c := t[od].entries[on];
    MovableMakesSense(t, root, od, on, nd, nn, busy, room);
    if !Bound(t, nd, nn) {
      if IsDir(t, c) {
        DirMovedIff(t, root, od, on, nd, nn);
      } else {
        FileMovedTree(t, root, od, on, nd, nn);
      }
    } else if IsDir(t, c) {
      DirReplacedTree(t, root, od, on, nd, nn);
    } else {
      FileRemovedTree(t, root, nd, nn);
      FileMovedTree(FileRemoved(t, nd, nn), root, od, on, nd, nn);
    }
  }

  lemma DirMovedIff(t: Nodes, root: nat, od: nat, on: Name, nd: nat, nn: Name)
    requires Tree(t, root) && Bound(t, od, on) && !Dots(on) && IsDir(t, t[od].entries[on])
    requires IsDir(t, nd) && !Bound(t, nd, nn) && nn != "" && nd != t[od].entries[on]
    ensures t[od].nlink > 0 && (Tree(DirMoved(t, od, on, nd, nn), root) <==> !Under(t, nd, t[od].entries[on]))
  {
    hide Shaped, Counted, Under;
    if Under(t, nd, t[od].entries[on]) {
      DirMovedCycle(t, root, od, on, nd, nn);
    } else {
      DirMovedTree(t, root, od, on, nd, nn);
    }
  }

  lemma DirReplacedTree(t: Nodes, root: nat, od: nat, on: Name, nd: nat, nn: Name)
    requires Tree(t, root) && MoveMakesSense(t, od, on, nd, nn) && Bound(t, nd, nn) && !Dots(on) && !Dots(nn)
    requires IsDir(t, t[od].entries[on]) && Empty(t, t[nd].entries[nn]) && nn != ""
    ensures Tree(Renamed(t, od, on, nd, nn), root) <==> !Under(t, nd, t[od].entries[on])
  {
    hide Shaped, Counted, Under, Empty, Removed;
    var x := t[nd].entries[nn];
    DirRemovedTree(t, root, nd, nn);
    var u := DirRemoved(t, nd, nn);
    RemovedIs(t, nd, nn);
    UnderWithout(t, u, root, nd, nn, x, nd, t[od].entries[on]);
    DirMovedIff(u, root, od, on, nd, nn);
  }

  /** What the names are after a rename: the new name has the inode, the old one is gone, every
      other binding of a directory is as it was, except ".." of a moved directory. */
  lemma RenamedNames(t: Nodes, od: nat, on: Name, nd: nat, nn: Name, d: nat, m: Name)
    requires MoveMakesSense(t, od, on, nd, nn) && !Dots(on)
    requires od != nd || on != nn
    ensures var u, c := Renamed(t, od, on, nd, nn), t[od].entries[on];
            && Bound(u, nd, nn) && u[nd].entries[nn] == c && !Bound(u, od, on)
            && (d in u && (d, m) != (nd, nn) && (d, m) != (od, on) && !(d == c && m == ".." && IsDir(t, c)) ==>
                  d in t && (Bound(u, d, m) <==> Bound(t, d, m)) && (Bound(t, d, m) ==> u[d].entries[m] == t[d].entries[m]))
            && (IsDir(t, c) ==> Bound(u, c, "..") && u[c].entries[".."] == nd)
            && u.Keys >= t.Keys - (if Bound(t, nd, nn) then {t[nd].entries[nn]} else {})
  {
  }

  lemma OnlyRootTree(r: nat)
    ensures Tree(map[r := FreshDir(r, r)], r)
  {
    var t: Nodes := map[r := FreshDir(r, r)];
    assert Up(t, r, 0) == r;
    assert SubDirs(t, r, r) == {};
  }

  lemma ShapedDots(t: Nodes, root: nat, d: nat)
    requires Tree(t, root) && IsDir(t, d)
    ensures Bound(t, d, "..") && IsDir(t, t[d].entries[".."]) && Parent(t, root) == root
  {
    hide Counted;
    DotsBound(t, root, d);
  }

  lemma RootAbove(t: Nodes, root: nat, d: nat) returns (n: nat)
    requires Tree(t, root) && IsDir(t, d)
    ensures Up(t, d, n) == root
  {
    hide Counted, BoundOnce;
    assert Rooted(t, root, d);
    n :| Up(t, d, n) == root;
  }

  lemma Meets(t: Nodes, d: nat, a: nat, k: nat)
    requires Up(t, d, k) == a
    ensures Under(t, d, a)
  {
  }

  /** A walk that stops without meeting a never meets it. */
  lemma NeverAbove(t: Nodes, d: nat, a: nat, k: nat)
    requires Parent(t, Up(t, d, k)) == Up(t, d, k)
    requires forall m: nat | m <= k :: Up(t, d, m) != a
    ensures !Under(t, d, a)
  {
    forall n: nat
      ensures Up(t, d, n) != a
    {
      if n > k {
        UpAdd(t, d, k, n - k);
        UpFixed(t, Up(t, d, k), n - k);
      }
    }
  }

  lemma DotsAreDirs(t: Nodes, root: nat, d: nat, name: Name)
    requires Tree(t, root) && Bound(t, d, name) && !IsDir(t, t[d].entries[name])
    ensures !Dots(name)
  {
    hide Counted;
    BoundMeansDir(t, root, d, name);
    DotsBound(t, root, d);
  }

  lemma EmptyNotByDots(t: Nodes, root: nat, d: nat, name: Name)
    requires Tree(t, root) && IsDir(t, d) && Bound(t, d, name) && t[d].entries[name] != d && Empty(t, t[d].entries[name])
    ensures !Dots(name)
  {
    hide Shaped, Counted, Empty;
    if Dots(name) {
      DotsNotEmpty(t, root, d, name);
    }
  }

  /** The checks of a rename let through what Movable says, apart from room for a new name, if the
      walk up has not met the moved directory. */
  lemma CheckedIsAllowed(t: Nodes, root: nat, od: nat, on: Name, nd: nat, nn: Name, busy: bool, room: bool, past: bool, ok: bool)
    requires Tree(t, root) && IsDir(t, od) && IsDir(t, nd) && Bound(t, od, on) && t[od].entries[on] in t && !Dots(on)
    requires !t[t[od].entries[on]].frozen && !SameInode(t, od, on, nd, nn) && (past ==> t[od].entries[on] != nd)
    requires var c := t[od].entries[on];
             ok == (
               && (IsDir(t, c) ==> past && Parent(t, c) == od)
               && (Bound(t, nd, nn) ==>
                     && var x := t[nd].entries[nn];
                     && IsDir(t, c) == IsDir(t, x)
                     && (IsDir(t, c) ==> Empty(t, x) && !busy && x != od && x != nd))
               && (!Bound(t, nd, nn) && IsDir(t, c) ==> t[nd].nlink < LINK_MAX))
    ensures Movable(t, od, on, nd, nn, busy, room) && (IsDir(t, t[od].entries[on]) ==> past)
            <==> ok && (Bound(t, nd, nn) || room)
  {
    hide Tree, Under, Empty;
    if IsDir(t, t[od].entries[on]) {
      ParentOfBound(t, root, od, on);
    }
    if Bound(t, nd, nn) && IsDir(t, t[nd].entries[nn]) && Empty(t, t[nd].entries[nn]) {
      EmptyBindsDots(t, t[nd].entries[nn], od, on);
    }
  }

  lemma ParentOfBound(t: Nodes, root: nat, d: nat, name: Name)
    requires Tree(t, root) && Bound(t, d, name) && !Dots(name) && IsDir(t, t[d].entries[name])
    ensures Parent(t, t[d].entries[name]) == d
  {
    hide Counted;
    ChildOf(t, root, d, name);
  }

  /** Even without the check of the caller "." and ".." could not be renamed: either the walk up
      meets them or their ".." is not od. */
  lemma DotsNeverMove(t: Nodes, root: nat, od: nat, on: Name, nd: nat)
    requires Tree(t, root) && IsDir(t, od) && IsDir(t, nd) && Dots(on) && Bound(t, od, on)
    ensures Under(t, nd, t[od].entries[on]) || Parent(t, t[od].entries[on]) != od
  {
    hide Counted, BoundOnce;
    var c := t[od].entries[on];
    DotsBound(t, root, od);
    DotsBound(t, root, c);
    if Parent(t, c) == od {
      if on == "." {
        SelfParentIsRoot(t, root, od);
      } else {
        NoTwoCycle(t, root, od);
      }
      assert c == root;
      assert Rooted(t, root, nd);
    }
  }

  /** Moving the entries and settling the links is the move Renamed describes. */
  lemma RenameResult(t: Nodes, root: nat, od: nat, on: Name, nd: nat, nn: Name, busy: bool, room: bool)
    requires Tree(t, root) && IsDir(t, od) && Movable(t, od, on, nd, nn, busy, room)
    requires !SameInode(t, od, on, nd, nn)
    ensures MoveMakesSense(t, od, on, nd, nn)
    ensures var c, u := t[od].entries[on], Rebound(t, od, on, nd, nn);
            && c in u && od in u && nd in u
            && var v := if IsDir(t, c) then Relinked(u, od, nd, c, Bound(t, nd, nn)) else u;
            && Renamed(t, od, on, nd, nn) == if Bound(t, nd, nn) then Dropped(v, t[nd].entries[nn]) else v
  {
    hide Tree, Under, Empty;
    var c := t[od].entries[on];
    MovableMakesSense(t, root, od, on, nd, nn, busy, room);
    if Bound(t, nd, nn) {
      if IsDir(t, c) {
        DirReplaced(t, root, od, on, nd, nn);
      } else {
        FileReplaced(t, od, on, nd, nn);
      }
    }
  }

  lemma FileReplaced(t: Nodes, od: nat, on: Name, nd: nat, nn: Name)
    requires MoveMakesSense(t, od, on, nd, nn) && !IsDir(t, t[od].entries[on]) && Bound(t, nd, nn)
    ensures Renamed(t, od, on, nd, nn) == Dropped(Rebound(t, od, on, nd, nn), t[nd].entries[nn])
  {
    assert (t[nd].entries - {nn})[nn := t[od].entries[on]] == t[nd].entries[nn := t[od].entries[on]];
  }

  lemma DirReplaced(t: Nodes, root: nat, od: nat, on: Name, nd: nat, nn: Name)
    requires MoveMakesSense(t, od, on, nd, nn) && IsDir(t, t[od].entries[on]) && Bound(t, nd, nn)
    requires Tree(t, root) && Empty(t, t[nd].entries[nn]) && !Dots(nn)
    ensures var c, u := t[od].entries[on], Rebound(t, od, on, nd, nn);
            && c in u
            && Renamed(t, od, on, nd, nn) == Dropped(Relinked(u, od, nd, c, true), t[nd].entries[nn])
  {
    hide Tree, Empty;
    var x := t[nd].entries[nn];
    TargetLinks(t, root, nd, nn);
    assert (t[nd].entries - {nn})[nn := t[od].entries[on]] == t[nd].entries[nn := t[od].entries[on]];
  }

  lemma TargetLinks(t: Nodes, root: nat, d: nat, name: Name)
    requires Tree(t, root) && Bound(t, d, name) && !Dots(name)
    requires IsDir(t, t[d].entries[name]) && Empty(t, t[d].entries[name])
    ensures t[t[d].entries[name]].nlink == 2
  {
    hide Shaped, Counted, Empty;
    ChildOf(t, root, d, name);
    EmptyLinks(t, root, t[d].entries[name]);
  }

  // ----- what the cache says of parents

  type Versions = map<nat, nat>

  /** The key under which ".." of a directory is cached. */
  function ParentKey(dev: nat, versions: Versions, d: nat): Dcache.Key
    requires d in versions
  {
    Dcache.Key(dev, d, versions[d], "..")
  }

  /** Every copy of ".." under the present version of a directory is right. */
  ghost predicate ParentsRight(t: Nodes, versions: Versions, dev: nat, v: Dcache.Levels) {
    forall k, n | Dcache.Says(v, k, n) && k.name == ".." && k.dev == dev && IsDir(t, k.dir)
                  && k.dir in versions && versions[k.dir] == k.version ::
      n == Parent(t, k.dir)
  }

  ghost predicate AllStamped(t: Nodes, versions: Versions) {
    forall d | IsDir(t, d) :: d in versions
  }

  /** Every directory has a stamp, and nothing carries a stamp not given out yet; 0 is no inode. */
  ghost predicate Clocked(t: Nodes, versions: Versions, event: nat, v: Dcache.Levels) {
    && 0 !in t && Dcache.Past(v, event)
    && forall d | IsDir(t, d) :: d in versions && versions[d] <= event
  }

  /** No copy of ".." is new. */
  ghost predicate NoNewParents(v: Dcache.Levels, w: Dcache.Levels) {
    forall k, n | Dcache.Says(w, k, n) && k.name == ".." :: Dcache.Says(v, k, n)
  }

  /** A directory that is new or has another parent has a new stamp. */
  ghost predicate Stamped(t: Nodes, versions: Versions, event: nat, u: Nodes, later: Versions) {
    forall x | IsDir(u, x) ::
      && x in later
      && (later[x] > event || (IsDir(t, x) && x in versions && later[x] == versions[x] && Parent(u, x) == Parent(t, x)))
  }

  lemma StampsKeepParents(t: Nodes, versions: Versions, event: nat, v: Dcache.Levels, u: Nodes, later: Versions,
                          w: Dcache.Levels, dev: nat)
    requires Dcache.Past(v, event) && Stamped(t, versions, event, u, later) && NoNewParents(v, w)
    ensures ParentsRight(t, versions, dev, v) ==> ParentsRight(u, later, dev, w)
  {
    hide Dcache.Says;
  }

  datatype Outcome = Met | Passed | Walking

  /** The walk of subdir from cur towards the root. It reads ".." with a lookup, so from the cache
      if a copy is there; a lookup in something that is no directory fails. The code has no bound on
      its steps: after `patience` of them the walk is still going on. */
  ghost function Walk(t: Nodes, versions: Versions, dev: nat, v: Dcache.Levels, cur: nat, a: nat, patience: nat)
    : (r: (Outcome, Dcache.Levels))
    requires forall d | IsDir(t, d) :: d in versions
    ensures r.0 == Passed ==> cur != a
    decreases patience
  {
    if cur == a then (Met, v)
    else if !IsDir(t, cur) then (Passed, v)
    else if patience == 0 then (Walking, v)
    else
      var k, told := ParentKey(dev, versions, cur), ToldParent(t, cur);
      var up := SeenParent(v, k, told);
      if up == 0 || up == cur then (Passed, Dcache.Consulted(v, k, told))
      else Walk(t, versions, dev, Dcache.Consulted(v, k, told), up, a, patience - 1)
  }

  /** What the records say of "..". */
  function ToldParent(t: Nodes, d: nat): nat {
    if Bound(t, d, "..") then t[d].entries[".."] else 0
  }

  /** What a lookup of ".." answers. */
  function SeenParent(v: Dcache.Levels, k: Dcache.Key, told: nat): nat {
    match Dcache.Cached(v, k)
    case Some(n) => n
    case None => told
  }

  /** The walk before a rename does not meet a; when a directory is replaced it is made twice. */
  ghost predicate WalksPast(t: Nodes, versions: Versions, dev: nat, v: Dcache.Levels, d: nat, a: nat, twice: bool, patience: nat)
    requires forall x | IsDir(t, x) :: x in versions
  {
    && Walk(t, versions, dev, v, d, a, patience).0 == Passed
    && (twice ==> Walk(t, versions, dev, Walk(t, versions, dev, v, d, a, patience).1, d, a, patience).0 == Passed)
  }

  /** What the walks of a rename leave of the cache. */
  ghost function Walked(t: Nodes, versions: Versions, dev: nat, v: Dcache.Levels, d: nat, a: nat, twice: bool, patience: nat)
    : Dcache.Levels
    requires forall x | IsDir(t, x) :: x in versions
  {
    var w := Walk(t, versions, dev, v, d, a, patience).1;
    if twice then Walk(t, versions, dev, w, d, a, patience).1 else w
  }

  /** What a rename that goes through enters: the new name, and ".." of a directory. */
  ghost function NewEntries(dev: nat, versions: Versions, v: Dcache.Levels, nd: nat, stamp: nat, nn: Name, c: nat, isDir: bool)
    : Dcache.Levels
    requires isDir ==> c in versions
  {
    var w := Dcache.Entered(v, Dcache.Key(dev, nd, stamp, nn), c);
    if isDir then Dcache.Entered(w, ParentKey(dev, versions, c), nd) else w
  }

  /** One step up: below a exactly when the parent is. */
  lemma UnderStep(t: Nodes, d: nat, a: nat)
    requires d != a
    ensures Under(t, d, a) <==> Under(t, Parent(t, d), a)
  {
    if Under(t, d, a) {
      var n: nat :| Up(t, d, n) == a;
      assert n > 0 && Up(t, Parent(t, d), n - 1) == a;
    }
    if Under(t, Parent(t, d), a) {
      var n: nat :| Up(t, Parent(t, d), n) == a;
      assert Up(t, d, n + 1) == a;
    }
  }

  /** With right copies a lookup of ".." gives the parent and leaves the copies right. */
  lemma SeenIsParent(t: Nodes, root: nat, versions: Versions, dev: nat, v: Dcache.Levels, d: nat)
    requires Tree(t, root) && ParentsRight(t, versions, dev, v) && IsDir(t, d) && d in versions && 0 !in t
    ensures var k, told := ParentKey(dev, versions, d), ToldParent(t, d);
            && told == Parent(t, d) == SeenParent(v, k, told) && IsDir(t, told) && told != 0
            && ParentsRight(t, versions, dev, Dcache.Consulted(v, k, told))
  {
    hide Counted, Dcache.Consulted, Dcache.Says, Dcache.Cached;
    var k, told := ParentKey(dev, versions, d), ToldParent(t, d);
    DotsBound(t, root, d);
    Dcache.CachedSays(v, k);
    forall j, n | Dcache.Says(Dcache.Consulted(v, k, told), j, n)
      ensures Dcache.Says(v, j, n) || (j == k && n == told)
    {
      Dcache.ConsultedSays(v, k, told, j, n);
    }
  }

  /** With right copies the walk meets a exactly when it should, and ends if it may go far enough. */
  lemma {:induction false} WalkRight(t: Nodes, root: nat, versions: Versions, dev: nat, v: Dcache.Levels,
                                     cur: nat, a: nat, patience: nat)
    requires Tree(t, root) && ParentsRight(t, versions, dev, v) && IsDir(t, cur) && 0 !in t
    requires forall d | IsDir(t, d) :: d in versions
    ensures var (o, w) := Walk(t, versions, dev, v, cur, a, patience);
            && ParentsRight(t, versions, dev, w)
            && (o == Met ==> Under(t, cur, a)) && (o == Passed ==> !Under(t, cur, a))
            && (patience > 0 && Up(t, cur, patience - 1) == root ==> o != Walking)
    decreases patience
  {
    hide Tree, Under, ParentsRight, Dcache.Consulted, SeenParent, ToldParent;
    if cur == a {
      Meets(t, cur, a, 0);
    } else if patience > 0 {
      SeenIsParent(t, root, versions, dev, v, cur);
      var k, told := ParentKey(dev, versions, cur), ToldParent(t, cur);
      if told == cur {
        NeverAbove(t, cur, a, 0);
      } else {
        UnderStep(t, cur, a);
        WalkRight(t, root, versions, dev, Dcache.Consulted(v, k, told), told, a, patience - 1);
        RootOnly(t, root, cur, patience);
      }
    }
  }

  lemma RootOnly(t: Nodes, root: nat, d: nat, n: nat)
    requires Tree(t, root) && Parent(t, d) != d && n > 0
    ensures Up(t, d, n - 1) == root ==> n > 1 && Up(t, Parent(t, d), n - 2) == root
  {
    hide Counted, BoundOnce;
  }

  /** What a lookup finds is then the last on level 2. */
  lemma LastOnTwo(v: Dcache.Levels, k: Dcache.Key, told: nat, a: nat)
    requires Dcache.LevelsOk(v) && Dcache.Cached(v, k) == Dcache.Some(a)
    ensures var w := Dcache.Consulted(v, k, told);
            |w.two| == Dcache.SIZE && w.two[Dcache.SIZE - 1] == Dcache.Slot(k, a, true)
  {
    if Dcache.On(v.two, k) {
      Dcache.InRenewed(v.two, Dcache.Place(v.two, k), v.two[Dcache.Place(v.two, k)]);
    } else {
      Dcache.InRenewed(v.two, 0, v.one[Dcache.Place(v.one, k)]);
    }
    hide Dcache.Renewed, Dcache.Place;
  }

  /** A walk enters no copy for the directory it is looking for, and none for a stamp to come. */
  lemma {:induction false} WalkEnters(t: Nodes, versions: Versions, dev: nat, v: Dcache.Levels, cur: nat, a: nat,
                                      patience: nat, event: nat)
    requires forall d | IsDir(t, d) :: d in versions && versions[d] <= event
    requires Dcache.Past(v, event) && a in versions
    ensures var k, w := ParentKey(dev, versions, a), Walk(t, versions, dev, v, cur, a, patience).1;
            && (Dcache.On(w.one, k) ==> Dcache.On(v.one, k)) && (Dcache.On(w.two, k) ==> Dcache.On(v.two, k))
            && Dcache.Past(w, event)
    decreases patience
  {
    hide Dcache.Consulted, SeenParent, ToldParent, Dcache.On, Dcache.Past;
    if cur != a && IsDir(t, cur) && patience > 0 {
      var k, told := ParentKey(dev, versions, cur), ToldParent(t, cur);
      var up, w := SeenParent(v, k, told), Dcache.Consulted(v, k, told);
      Dcache.ConsultedPast(v, k, told, event);
      ConsultedElsewhere(v, k, told, ParentKey(dev, versions, a));
      if up != 0 && up != cur {
        WalkEnters(t, versions, dev, w, up, a, patience - 1, event);
      }
    }
  }

  lemma ConsultedElsewhere(v: Dcache.Levels, k: Dcache.Key, ino: nat, j: Dcache.Key)
    requires j != k
    ensures var w := Dcache.Consulted(v, k, ino);
            (Dcache.On(w.one, j) ==> Dcache.On(v.one, j)) && (Dcache.On(w.two, j) ==> Dcache.On(v.two, j))
  {
    EnteredElsewhere(v, k, ino, j);
    if Dcache.On(v.two, k) && Dcache.On(Dcache.LookedUp(v, k).two, j) {
      if Dcache.Short(k) {
        Dcache.OnRenewed(v.two, Dcache.Place(v.two, k), v.two[Dcache.Place(v.two, k)], j);
      }
    } else if Dcache.Short(k) && Dcache.On(v.one, k) && v.two != [] && Dcache.On(Dcache.LookedUp(v, k).two, j) {
      Dcache.OnRenewed(v.two, 0, v.one[Dcache.Place(v.one, k)], j);
    }
    hide Dcache.Renewed, Dcache.Place;
  }

  lemma EnteredElsewhere(v: Dcache.Levels, k: Dcache.Key, ino: nat, j: Dcache.Key)
    requires j != k
    ensures var w := Dcache.Entered(v, k, ino);
            (Dcache.On(w.one, j) ==> Dcache.On(v.one, j)) && (Dcache.On(w.two, j) ==> Dcache.On(v.two, j))
  {
    var x, w := Dcache.Slot(k, ino, true), Dcache.Entered(v, k, ino);
    if Dcache.Short(k) && Dcache.On(v.two, k) {
      if Dcache.On(w.two, j) {
        Dcache.OnRenewed(v.two, Dcache.Place(v.two, k), x, j);
      }
    } else if Dcache.Short(k) && v.one != [] && Dcache.On(w.one, j) {
      Dcache.OnRenewed(v.one, if Dcache.On(v.one, k) then Dcache.Place(v.one, k) else 0, x, j);
    }
    hide Dcache.Renewed, Dcache.Place;
  }

  datatype Request =
    | Creat(d: nat, name: Name, inode: Option, room: bool)
    | Hard(x: nat, d: nat, name: Name, room: bool)
    | Remove(d: nat, name: Name)
    | MakeDir(d: nat, name: Name, inode: Option, block: bool, room: bool)
    | RemoveDir(d: nat, name: Name)
    | Move(od: nat, oldName: Name, nd: nat, newName: Name, busy: bool, room: bool, patience: nat)
    | Look(d: nat, name: Name)
    | ListOne(d: nat, name: Name)
    | Reload(d: nat)

  // ----- what a request does, as a step from one state to the next

  /** The tree, the stamps of the directories, the last stamp given out, and the cache. */
  datatype Scene = Scene(nodes: Nodes, versions: Versions, event: nat, view: Dcache.Levels)

  /** Whether what lookups of ".." are answered from the cache is right. */
  ghost predicate Right(dev: nat, s: Scene) {
    ParentsRight(s.nodes, s.versions, dev, s.view)
  }

  /** The walk of a rename of a directory passes. */
  ghost predicate WalkMisses(dev: nat, s: Scene, od: nat, on: Name, nd: nat, nn: Name, patience: nat)
    requires AllStamped(s.nodes, s.versions)
  {
    Bound(s.nodes, od, on) && IsDir(s.nodes, s.nodes[od].entries[on]) ==>
      WalksPast(s.nodes, s.versions, dev, s.view, nd, s.nodes[od].entries[on],
                Bound(s.nodes, nd, nn) && IsDir(s.nodes, s.nodes[nd].entries[nn]), patience)
  }

  /** A rename moves a directory of whose ".." both levels have a copy to another parent. */
  ghost predicate MovesCopiedTwice(dev: nat, s: Scene, od: nat, on: Name, nd: nat) {
    && Bound(s.nodes, od, on) && nd != od
    && var c := s.nodes[od].entries[on];
    && IsDir(s.nodes, c) && c in s.versions
    && Dcache.On(s.view.one, ParentKey(dev, s.versions, c)) && Dcache.On(s.view.two, ParentKey(dev, s.versions, c))
  }

  /** What can be checked before a request so that the copies of ".." stay right. */
  ghost predicate Guarded(dev: nat, s: Scene, q: Request) {
    q.Move? ==> !MovesCopiedTwice(dev, s, q.od, Key(q.oldName), q.nd)
  }

  predicate FreshInode(t: Nodes, inode: Option) {
    inode.Some? && inode.ino !in t && inode.ino != 0
  }

  /** mkdir gets as far as the new name. */
  predicate CanMake(t: Nodes, d: nat, name: Name, inode: Option, block: bool) {
    IsDir(t, d) && !Bound(t, d, Key(name)) && t[d].nlink < LINK_MAX && FreshInode(t, inode) && block
  }

  /** A rename goes through: both names bind the same inode, or the records allow it and the walk
      passes. */
  ghost predicate MoveGoes(dev: nat, s: Scene, od: nat, on: Name, nd: nat, nn: Name, busy: bool, room: bool, patience: nat)
    requires AllStamped(s.nodes, s.versions)
  {
    SameInode(s.nodes, od, on, nd, nn) || (Movable(s.nodes, od, on, nd, nn, busy, room) && WalkMisses(dev, s, od, on, nd, nn, patience))
  }

  /** Which requests are served. */
  ghost predicate Grants(dev: nat, s: Scene, q: Request)
    requires AllStamped(s.nodes, s.versions)
  {
    var t := s.nodes;
    match q
    case Creat(d, name, inode, room) => IsDir(t, d) && !Bound(t, d, Key(name)) && FreshInode(t, inode) && room
    case Hard(x, d, name, room) =>
      IsDir(t, d) && !Bound(t, d, Key(name)) && x in t && !t[x].isDir && !t[x].frozen && t[x].nlink < LINK_MAX && room
    case Remove(d, name) =>
      && IsDir(t, d) && Bound(t, d, Key(name))
      && var x := t[d].entries[Key(name)]; x in t && !t[x].isDir && !t[x].frozen
    case MakeDir(d, name, inode, block, room) => CanMake(t, d, name, inode, block) && room
    case RemoveDir(d, name) =>
      && IsDir(t, d) && Bound(t, d, Key(name))
      && var x := t[d].entries[Key(name)]; x != d && IsDir(t, x) && Empty(t, x)
    case Move(od, on, nd, nn, busy, room, patience) =>
      && IsDir(t, od) && IsDir(t, nd) && MayBeRenamed(on) && MayBeRenamed(nn)
      && MoveGoes(dev, s, od, Key(on), nd, Key(nn), busy, room, patience)
    case Look(d, name) => IsDir(t, d)
    case ListOne(d, name) => IsDir(t, d) && Bound(t, d, name)
    case Reload(d) => IsDir(t, d)
  }

  /** A rename that is served and moves a directory below itself. */
  ghost predicate Swallows(dev: nat, s: Scene, q: Request)
    requires AllStamped(s.nodes, s.versions)
  {
    && q.Move? && Grants(dev, s, q) && !SameInode(s.nodes, q.od, Key(q.oldName), q.nd, Key(q.newName))
    && BelowItself(s.nodes, q.od, Key(q.oldName), q.nd)
  }

  /** A new name of a file: two stamps for the directory, and the binding is entered under the later
      one. */
  ghost function WithName(dev: nat, s: Scene, nodes: Nodes, d: nat, name: Name, x: nat): Scene {
    Scene(nodes, s.versions[d := s.event + 2], s.event + 2,
          Dcache.Entered(s.view, Dcache.Key(dev, d, s.event + 2, name), x))
  }

  ghost function WithoutName(s: Scene, d: nat, name: Name): Scene
    requires Bound(s.nodes, d, name) && s.nodes[d].entries[name] in s.nodes && s.nodes[s.nodes[d].entries[name]].nlink > 0
  {
    Scene(FileRemoved(s.nodes, d, name), s.versions[d := s.event + 1], s.event + 1, s.view)
  }

  /** A directory goes: it and the one it was in get new stamps. */
  ghost function WithoutDir(s: Scene, d: nat, name: Name): Scene
    requires Bound(s.nodes, d, name) && s.nodes[d].nlink > 0
  {
    var x := s.nodes[d].entries[name];
    Scene(DirRemoved(s.nodes, d, name), s.versions[d := s.event + 1][x := s.event + 2], s.event + 2, s.view)
  }

  /** What the walks of a rename leave of the cache: there are none for a file, and the second one,
      after the checks of a replaced directory, is made if those go well. */
  ghost function Strolled(dev: nat, s: Scene, od: nat, c: nat, nd: nat, target: Option, busy: bool, patience: nat): Dcache.Levels
    requires AllStamped(s.nodes, s.versions)
  {
    if !IsDir(s.nodes, c) then s.view
    else if target.Some? && IsDir(s.nodes, target.ino) then
      var (o, w) := Walk(s.nodes, s.versions, dev, s.view, nd, c, patience);
      if o == Passed && Empty(s.nodes, target.ino) && !busy && target.ino != od && target.ino != nd then
        Walk(s.nodes, s.versions, dev, w, nd, c, patience).1
      else w
    else if target.Some? then s.view
    else Walk(s.nodes, s.versions, dev, s.view, nd, c, patience).1
  }

  /** What a rename that does not go through leaves of the cache. */
  ghost function Tried(dev: nat, s: Scene, od: nat, oldName: Name, nd: nat, newName: Name, busy: bool, patience: nat): Dcache.Levels
    requires AllStamped(s.nodes, s.versions)
  {
    var t, on, nn := s.nodes, Key(oldName), Key(newName);
    if && MayBeRenamed(oldName) && MayBeRenamed(newName) && IsDir(t, od) && IsDir(t, nd) && Bound(t, od, on)
       && t[od].entries[on] in t && !t[t[od].entries[on]].frozen
    then Strolled(dev, s, od, t[od].entries[on], nd, Target(t, nd, nn), busy, patience) else s.view
  }

  function Target(t: Nodes, d: nat, name: Name): Option {
    if Bound(t, d, name) then Some(t[d].entries[name]) else None
  }

  /** What a rename that goes through makes of stamps and cache. */
  ghost function Shifted(dev: nat, s: Scene, nodes: Nodes, od: nat, on: Name, nd: nat, nn: Name, patience: nat): Scene
    requires AllStamped(s.nodes, s.versions) && Bound(s.nodes, od, on)
  {
    var c, steps := s.nodes[od].entries[on], if Bound(s.nodes, nd, nn) then 2 else 3;
    var isDir, twice := IsDir(s.nodes, c), Bound(s.nodes, nd, nn) && IsDir(s.nodes, s.nodes[nd].entries[nn]);
    var v := if isDir then Walked(s.nodes, s.versions, dev, s.view, nd, c, twice, patience) else s.view;
    Scene(nodes, s.versions[nd := s.event + steps - 1][od := s.event + steps], s.event + steps,
          NewEntries(dev, s.versions, v, nd, s.event + steps - 1, nn, c, isDir))
  }

  /** What a request that is not served leaves: a walk has changed the cache, and a new directory that
      got no name has had its stamp. */
  ghost function Refused(dev: nat, s: Scene, q: Request): Scene
    requires AllStamped(s.nodes, s.versions)
  {
    match q
    case MakeDir(d, name, inode, block, room) =>
      if CanMake(s.nodes, d, name, inode, block) then s.(versions := s.versions[inode.ino := s.event + 1], event := s.event + 1)
      else s
    case Move(od, on, nd, nn, busy, room, patience) => s.(view := Tried(dev, s, od, on, nd, nn, busy, patience))
    case _ => s
  }

  /** The request leads from s to u: there is only one such u. */
  ghost predicate Leads(dev: nat, s: Scene, q: Request, u: Scene)
    requires AllStamped(s.nodes, s.versions)
  {
    if !Grants(dev, s, q) then u == Refused(dev, s, q)
    else
      match q
      case Creat(d, name, inode, room) =>
        u == WithName(dev, s, FileAdded(s.nodes, d, Key(name), inode.ino, Node(false, 1, map[], false)), d, Key(name), inode.ino)
      case Hard(x, d, name, room) =>
        u == WithName(dev, s, FileAdded(s.nodes, d, Key(name), x, s.nodes[x].(nlink := s.nodes[x].nlink + 1)), d, Key(name), x)
      case Remove(d, name) =>
        && s.nodes[s.nodes[d].entries[Key(name)]].nlink > 0
        && u == WithoutName(s, d, Key(name))
      case MakeDir(d, name, inode, block, room) =>
        u == Scene(DirAdded(s.nodes, d, Key(name), inode.ino), s.versions[inode.ino := s.event + 1][d := s.event + 3], s.event + 3,
                   Dcache.Entered(s.view, Dcache.Key(dev, d, s.event + 3, Key(name)), inode.ino))
      case RemoveDir(d, name) =>
        && s.nodes[d].nlink > 0
        && u == WithoutDir(s, d, Key(name))
      case Move(od, on, nd, nn, busy, room, patience) =>
        if SameInode(s.nodes, od, Key(on), nd, Key(nn)) then u == s
        else
          && MoveMakesSense(s.nodes, od, Key(on), nd, Key(nn))
          && u == Shifted(dev, s, Renamed(s.nodes, od, Key(on), nd, Key(nn)), od, Key(on), nd, Key(nn), patience)
      case Look(d, name) =>
        u == s.(view := Dcache.Consulted(s.view, Dcache.Key(dev, d, s.versions[d], name), Told(s.nodes, d, name)))
      case ListOne(d, name) =>
        u == s.(view := Dcache.Entered(s.view, Dcache.Key(dev, d, s.versions[d], name), s.nodes[d].entries[name]))
      case Reload(d) => u == s.(versions := s.versions[d := s.event + 1], event := s.event + 1)
  }

  // ----- the operations

  class Namespace {
    var nodes: Nodes
    var versions: Versions
    var event: nat
    const cache: Dcache.NameCache
    const root: nat
    const dev: nat

    /** Everything but the tree, which one operation can lose. */
    ghost predicate Sound()
      reads this, cache
    {
      cache.Valid() && Clocked(nodes, versions, event, cache.View())
    }

    ghost predicate Valid()
      reads this, cache
    {
      Tree(nodes, root) && Sound()
    }

    ghost function Now(): Scene
      requires cache.Valid()
      reads this, cache
    {
      Scene(nodes, versions, event, cache.View())
    }

    /** What is cached of parents is right. */
    ghost predicate InStep()
      requires Sound()
      reads this, cache
    {
      ParentsRight(nodes, versions, dev, cache.View())
    }

    /** Both levels have a copy of ".." of the directory. */
    ghost predicate BothCopies(d: nat)
      requires Sound() && d in versions
      reads this, cache
    {
      var k := ParentKey(dev, versions, d);
      Dcache.On(cache.View().one, k) && Dcache.On(cache.View().two, k)
    }

    /** As long as the copies of ".." are right and the walk may reach the root, a rename goes
        through exactly when the records allow it. */
    lemma InStepGoesThrough(od: nat, on: Name, nd: nat, nn: Name, busy: bool, room: bool, patience: nat)
      requires Valid() && InStep() && IsDir(nodes, nd) && patience > 0 && Up(nodes, nd, patience - 1) == root
      ensures MoveGoes(dev, Now(), od, on, nd, nn, busy, room, patience) <==>
              SameInode(nodes, od, on, nd, nn) || MayRename(nodes, od, on, nd, nn, busy, room)
    {
      hide Tree, Under, Up, Movable, WalksPast, ParentsRight, Dcache.NameCache.Valid;
      MovableParts(nodes, od, on, nd, nn, busy, room);
      if Bound(nodes, od, on) && IsDir(nodes, nodes[od].entries[on]) {
        RightWalksPast(nodes, root, versions, dev, cache.View(), nd, nodes[od].entries[on],
                       Bound(nodes, nd, nn) && IsDir(nodes, nodes[nd].entries[nn]), patience);
      }
    }

    /** A volume with nothing but its root directory. */
    constructor (r: nat)
      requires r > 0
      ensures Valid() && InStep() && fresh(cache) && root == r && nodes == map[r := FreshDir(r, r)]
      ensures forall i | 0 <= i < Dcache.SIZE :: !cache.View().one[i].hashed && !cache.View().two[i].hashed
      ensures dev == 0 && versions == map[r := 1] && event == 1
    {
      cache := new Dcache.NameCache();
      root := r;
      dev := 0;
      nodes := map[r := FreshDir(r, r)];
      versions := map[r := 1];
      event := 1;
      new;
      OnlyRootTree(r);
      BlankSays(cache.View());
    }

    method Stamp(d: nat)
      modifies this`event, this`versions
      ensures event == old(event) + 1 && versions == old(versions)[d := event]
    {
      event := event + 1;
      versions := versions[d := event];
    }

    /** Enters a binding under the present stamp. */
    method Enter(d: nat, name: Name, x: nat)
      requires cache.Valid() && d in versions && versions[d] <= event && Dcache.Past(cache.View(), event)
      modifies cache
      ensures cache.Valid() && Dcache.Past(cache.View(), event)
      ensures cache.View() == Dcache.Entered(old(cache.View()), Dcache.Key(dev, d, versions[d], name), x)
      ensures name != ".." ==> NoNewParents(old(cache.View()), cache.View())
    {
      hide Dcache.Entered;
      var k := Dcache.Key(dev, d, versions[d], name);
      Dcache.EnteredPast(cache.View(), k, x, event);
      EntersOnly(cache.View(), k, x);
      cache.Add(k, x);
    }

    method FindEntry(d: nat, name: Name) returns (found: bool, x: nat)
      requires Tree(nodes, root) && IsDir(nodes, d)
      ensures found <==> Bound(nodes, d, Key(name))
      ensures found ==> Finds(nodes, d, name, x) && x in nodes
    {
      found := Key(name) in nodes[d].entries;
      x := 0;
      if found {
        x := nodes[d].entries[Key(name)];
        NameNotEmpty(nodes, root, d, Key(name));
      }
    }

    /** ext2_lookup: what the cache says, else what the records say, which is then entered. */
    method Lookup(d: nat, name: Name) returns (x: nat)
      requires Sound() && IsDir(nodes, d)
      modifies cache
      ensures Sound() && (old(InStep()) && Bound(nodes, d, "..") ==> InStep())
      ensures var k, told := Dcache.Key(dev, d, versions[d], name), Told(nodes, d, name);
              && cache.View() == Dcache.Consulted(old(cache.View()), k, told)
              && x == SeenParent(old(cache.View()), k, told)
    {
      hide Dcache.Entered, Dcache.LookedUp, Dcache.Cached;
      var k := Dcache.Key(dev, d, versions[d], name);
      ghost var v := cache.View();
      Dcache.ConsultedPast(v, k, Told(nodes, d, name), event);
      if InStep() {
        LookupRight(nodes, versions, dev, v, d, name);
      }
      var hit;
      hit, x := cache.Lookup(k);
      if hit {
        return;
      }
      Dcache.LookedUpMiss(v, k);
      x := if Key(name) in nodes[d].entries then nodes[d].entries[Key(name)] else 0;
      cache.Add(k, x);
    }

    /** ext2_readdir enters what it lists. */
    method List(d: nat, name: Name)
      requires Sound() && Bound(nodes, d, name) && IsDir(nodes, d)
      modifies cache
      ensures Sound() && (old(InStep()) ==> InStep())
      ensures cache.View() == Dcache.Entered(old(cache.View()), Dcache.Key(dev, d, versions[d], name), nodes[d].entries[name])
    {
      hide Dcache.Entered;
      ghost var v := cache.View();
      if InStep() {
        ListRight(nodes, versions, dev, v, d, name);
      }
      Enter(d, name, nodes[d].entries[name]);
    }

    /** A directory that has left core comes back under a new stamp. */
    method Refresh(d: nat)
      requires Sound() && IsDir(nodes, d)
      modifies this`event, this`versions
      ensures Sound() && (old(InStep()) ==> InStep())
      ensures event == old(event) + 1 && versions == old(versions)[d := event]
    {
      hide Dcache.Says;
      StampsKeepParents(nodes, versions, event, cache.View(), nodes, versions[d := event + 1], cache.View(), dev);
      Stamp(d);
    }

    /** subdir: the walk up that is to keep a directory from moving below itself. It reads ".."
        through lookups and is exactly Walk. */
    method Subdir(d: nat, a: nat, patience: nat) returns (r: Outcome)
      requires Sound() && IsDir(nodes, d)
      modifies cache
      ensures Sound()
      ensures (r, cache.View()) == Walk(nodes, versions, dev, old(cache.View()), d, a, patience)
      ensures Tree(nodes, root) && old(InStep()) ==>
                && InStep() && (r == Met ==> Under(nodes, d, a)) && (r == Passed ==> !Under(nodes, d, a))
                && (patience > 0 && Up(nodes, d, patience - 1) == root ==> r != Walking)
    {
      hide Tree, Under, Up, Dcache.Consulted, SeenParent, ToldParent, Dcache.NameCache.Valid, Dcache.Past, ParentsRight;
      ghost var v := cache.View();
      if Tree(nodes, root) && InStep() {
        WalkRight(nodes, root, versions, dev, v, d, a, patience);
      }
      var cur, steps := d, patience;
      while true
        invariant Sound()
        invariant Walk(nodes, versions, dev, v, d, a, patience) == Walk(nodes, versions, dev, cache.View(), cur, a, steps)
        decreases steps
      {
        if cur == a {
          return Met;
        }
        if !(cur in nodes && nodes[cur].isDir) {
          return Passed;
        }
        if steps == 0 {
          return Walking;
        }
        ToldIs(nodes, cur);
        var up := Lookup(cur, "..");
        if up == 0 || up == cur {
          return Passed;
        }
        cur, steps := up, steps - 1;
      }
    }

    /** Binds a free name, if the directory's records have room for it or can grow. */
    method AddEntry(d: nat, name: Name, x: nat, room: bool) returns (s: Status)
      requires IsDir(nodes, d) && !Bound(nodes, d, name)
      modifies this`nodes, this`event, this`versions
      ensures s == if name == "" then Invalid else if !room then NoSpace else Done
      ensures nodes == if s == Done then WithEntry(old(nodes), d, name, x) else old(nodes)
      ensures event == (if s == Done then old(event) + 1 else old(event))
      ensures versions == if s == Done then old(versions)[d := event] else old(versions)
    {
      if name == "" {
        return Invalid;
      }
      if !room {
        return NoSpace;
      }
      nodes := nodes[d := nodes[d].(entries := nodes[d].entries[name := x])];
      Stamp(d);
      s := Done;
    }

    method DeleteEntry(d: nat, name: Name)
      requires Bound(nodes, d, name)
      modifies this`nodes
      ensures nodes == WithoutEntry(old(nodes), d, name)
    {
      nodes := nodes[d := nodes[d].(entries := nodes[d].entries - {name})];
    }

    method SetLinks(x: nat, n: nat)
      requires x in nodes
      modifies this`nodes
      ensures nodes == WithLinks(old(nodes), x, n)
    {
      nodes := nodes[x := nodes[x].(nlink := n)];
    }

    /** The end of create, link and mkdir: the directory gets another stamp, and the binding is
        entered under it. */
    method Remember(d: nat, name: Name, x: nat)
      requires cache.Valid() && Dcache.Past(cache.View(), event) && name != ".."
      modifies this`event, this`versions, cache
      ensures cache.Valid() && Dcache.Past(cache.View(), event) && NoNewParents(old(cache.View()), cache.View())
      ensures event == old(event) + 1 && versions == old(versions)[d := event]
      ensures cache.View() == Dcache.Entered(old(cache.View()), Dcache.Key(dev, d, event, name), x)
    {
      Later(cache.View(), event);
      Stamp(d);
      Enter(d, name, x);
    }

    /** A new file under a name the caller has looked up in vain. inode is what the inode
        allocator finds, if anything. */
    method Create(d: nat, name: Name, inode: Option, room: bool) returns (s: Status)
      requires Valid() && IsDir(nodes, d) && !Bound(nodes, d, Key(name))
      requires inode.Some? ==> inode.ino !in nodes && inode.ino != 0
      modifies this, cache
      ensures Valid() && (old(InStep()) ==> InStep())
      ensures s == Done <==> inode.Some? && room
      ensures s == Done ==>
                Now() == WithName(dev, old(Now()), FileAdded(old(nodes), d, Key(name), inode.ino, Node(false, 1, map[], false)),
                                  d, Key(name), inode.ino)
      ensures s != Done ==> s == NoSpace && Now() == old(Now())
    {
      hide Tree, Dcache.Says, Dcache.Past, Sound, Dcache.NameCache.Valid, Dcache.Entered, WithName, FileAdded, NoNewParents, Clocked,
           ParentsRight;
      Opened();
      ghost var t, vers, ev, v := nodes, versions, event, cache.View();
      ClockedParts(t, vers, ev, v);
      if inode == None {
        return NoSpace;
      }
      var x := inode.ino;
      nodes := nodes[x := Node(false, 1, map[], false)];
      s := AddEntry(d, Key(name), x, room);
      if s != Done {
        nodes := nodes - {x};
        assert nodes == old(nodes);
        return;
      }
      NotUp(t, root, d, Key(name));
      Remember(d, Key(name), x);
      AddedFirst(t, d, Key(name), x, Node(false, 1, map[], false));
      FileAddedTree(t, root, d, Key(name), x, Node(false, 1, map[], false));
      NamedAll(t, vers, ev, v, d, Key(name), x, Node(false, 1, map[], false));
    }

    /** What a new name of a file comes to. */
    lemma NamedAll(t: Nodes, vers: Versions, ev: nat, v: Dcache.Levels, d: nat, name: Name, x: nat, n: Node)
      requires cache.Valid() && Clocked(t, vers, ev, v) && Dcache.Past(cache.View(), event) && event == ev + 2
      requires NoNewParents(v, cache.View()) && IsDir(t, d) && x != 0 && !n.isDir && (x in t ==> !IsDir(t, x))
      requires Tree(nodes, root) && nodes == FileAdded(t, d, name, x, n) && versions == vers[d := ev + 1][d := ev + 2]
      requires cache.View() == Dcache.Entered(v, Dcache.Key(dev, d, ev + 2, name), x)
      ensures Valid() && (ParentsRight(t, vers, dev, v) ==> InStep())
      ensures Now() == WithName(dev, Scene(t, vers, ev, v), nodes, d, name, x)
    {
      hide Tree, Dcache.Says, Dcache.Past, Dcache.NameCache.Valid, NoNewParents, ParentsRight, Dcache.Entered;
      Restamped(vers, d, ev + 1, ev + 2);
      Served(t, vers, ev, v, {d});
    }

    /** A further name for a file. */
    method Link(x: nat, d: nat, name: Name, room: bool) returns (s: Status)
      requires Valid() && IsDir(nodes, d) && x in nodes
      modifies this, cache
      ensures Valid() && (old(InStep()) ==> InStep())
      ensures s == Done <==>
                !IsDir(old(nodes), x) && !old(nodes)[x].frozen && old(nodes)[x].nlink < LINK_MAX
                && !Bound(old(nodes), d, Key(name)) && room
      ensures s == Done ==>
                Now() == WithName(dev, old(Now()),
                                  FileAdded(old(nodes), d, Key(name), x, old(nodes)[x].(nlink := old(nodes)[x].nlink + 1)),
                                  d, Key(name), x)
      ensures s != Done ==> Now() == old(Now())
      ensures s == Exists ==> Bound(old(nodes), d, Key(name))
      ensures s == TooManyLinks ==> old(nodes)[x].nlink >= LINK_MAX
    {
      hide Tree, Dcache.Says, Dcache.Past, Sound, Dcache.NameCache.Valid, Dcache.Entered, WithName, FileAdded, NoNewParents, Clocked,
           ParentsRight;
      Opened();
      ghost var t, vers, ev, v := nodes, versions, event, cache.View();
      ClockedParts(t, vers, ev, v);
      if nodes[x].isDir || nodes[x].frozen {
        return NotPermitted;
      }
      if nodes[x].nlink >= LINK_MAX {
        return TooManyLinks;
      }
      FileFacts(nodes, root, x);
      var found, y := FindEntry(d, name);
      if found {
        return Exists;
      }
      s := AddEntry(d, Key(name), x, room);
      if s != Done {
        return;
      }
      NotUp(t, root, d, Key(name));
      Remember(d, Key(name), x);
      SetLinks(x, nodes[x].nlink + 1);
      LinkedLast(t, d, Key(name), x, t[x].nlink + 1);
      FileAddedTree(t, root, d, Key(name), x, t[x].(nlink := t[x].nlink + 1));
      NamedAll(t, vers, ev, v, d, Key(name), x, t[x].(nlink := t[x].nlink + 1));
    }

    /** One name of a file goes, and the file with its last name. */
    method Unlink(d: nat, name: Name) returns (s: Status)
      requires Valid() && IsDir(nodes, d)
      modifies this, cache
      ensures Valid() && (old(InStep()) ==> InStep())
      ensures s == NoEntry <==> !Bound(old(nodes), d, Key(name))
      ensures s == Done <==>
                && Bound(old(nodes), d, Key(name))
                && !IsDir(old(nodes), old(nodes)[d].entries[Key(name)])
                && old(nodes)[d].entries[Key(name)] in old(nodes)
                && !old(nodes)[old(nodes)[d].entries[Key(name)]].frozen
      ensures s == Done ==> !Dots(Key(name)) && old(nodes)[old(nodes)[d].entries[Key(name)]].nlink > 0
      ensures s == Done ==> Now() == WithoutName(old(Now()), d, Key(name))
      ensures s != Done ==> Now() == old(Now()) && (s == NoEntry || s == NotPermitted)
    {
      hide Tree, Dcache.Says, Dcache.Past, Sound, Dcache.NameCache.Valid;
      Opened();
      ghost var t, vers, ev, v := nodes, versions, event, cache.View();
      var found, x := FindEntry(d, name);
      if !found {
        return NoEntry;
      }
      if nodes[x].isDir || nodes[x].frozen {
        return NotPermitted;
      }
      DotsAreDirs(nodes, root, d, Key(name));
      FileFacts(nodes, root, x);
      FileRemovedTree(nodes, root, d, Key(name));
      DeleteEntry(d, Key(name));
      Stamp(d);
      if nodes[x].nlink == 1 {
        nodes := nodes - {x};
      } else {
        SetLinks(x, nodes[x].nlink - 1);
      }
      Later(v, ev);
      Served(t, vers, ev, v, {d});
      s := Done;
    }

    /** A new directory, linked to itself and to its parent. */
    method Mkdir(d: nat, name: Name, inode: Option, block: bool, room: bool) returns (s: Status)
      requires Valid() && IsDir(nodes, d)
      requires inode.Some? ==> inode.ino !in nodes && inode.ino != 0
      modifies this, cache
      ensures Valid() && (old(InStep()) ==> InStep())
      ensures s == Exists <==> Bound(old(nodes), d, Key(name))
      ensures s == TooManyLinks <==> !Bound(old(nodes), d, Key(name)) && old(nodes)[d].nlink >= LINK_MAX
      ensures s == Done <==>
                !Bound(old(nodes), d, Key(name)) && old(nodes)[d].nlink < LINK_MAX && inode.Some? && block && room
      ensures s == Done ==>
                && nodes == DirAdded(old(nodes), d, Key(name), inode.ino)
                && event == old(event) + 3 && versions == old(versions)[inode.ino := event - 2][d := event]
                && cache.View() == Dcache.Entered(old(cache.View()), Dcache.Key(dev, d, event, Key(name)), inode.ino)
      ensures s != Done ==>
                && nodes == old(nodes) && cache.View() == old(cache.View()) && (s == Exists || s == TooManyLinks || s == NoSpace)
                && event == old(event) + (if CanMake(old(nodes), d, name, inode, block) then 1 else 0)
                && versions == if CanMake(old(nodes), d, name, inode, block) then old(versions)[inode.ino := event] else old(versions)
    {
      hide Tree, Dcache.Says, Dcache.Past, Sound, Dcache.NameCache.Valid;
      Opened();
      ghost var t, vers, ev, v := nodes, versions, event, cache.View();
      var found, y := FindEntry(d, name);
      if found {
        return Exists;
      }
      if nodes[d].nlink >= LINK_MAX {
        return TooManyLinks;
      }
      if inode == None || !block {
        return NoSpace;
      }
      s := NewDir(d, Key(name), inode.ino, room);
    }

    /** The second half of mkdir: the new inode with its "." and "..", then its name. */
    method NewDir(d: nat, name: Name, x: nat, room: bool) returns (s: Status)
      requires Valid() && IsDir(nodes, d) && !Bound(nodes, d, name) && name != "" && x !in nodes && x != 0
      modifies this, cache
      ensures Valid() && (old(InStep()) ==> InStep())
      ensures s == if room then Done else NoSpace
      ensures nodes == if room then DirAdded(old(nodes), d, name, x) else old(nodes)
      ensures s == Done ==>
                && event == old(event) + 3 && versions == old(versions)[x := event - 2][d := event]
                && cache.View() == Dcache.Entered(old(cache.View()), Dcache.Key(dev, d, event, name), x)
      ensures s != Done ==>
                event == old(event) + 1 && versions == old(versions)[x := event] && cache.View() == old(cache.View())
    {
      hide Tree, Dcache.Says, Dcache.Past, Sound, Dcache.NameCache.Valid, Clocked, NoNewParents, ParentsRight, Dcache.Entered;
      Opened();
      ghost var t, vers, ev, v := nodes, versions, event, cache.View();
      ClockedParts(t, vers, ev, v);
      Later(v, ev);
      Later(v, ev + 1);
      NotUp(t, root, d, name);
      nodes := nodes[x := Node(true, 2, map["." := x, ".." := d], false)];
      Stamp(x);
      s := AddEntry(d, name, x, room);
      if s != Done {
        nodes := nodes - {x};
        assert nodes == t;
        Served(t, vers, ev, v, {x});
        return;
      }
      Restamped(vers[x := ev + 1], d, ev + 2, ev + 3);
      Remember(d, name, x);
      SetLinks(d, nodes[d].nlink + 1);
      AddedDir(t, d, name, x);
      NewDirAll(t, vers, ev, v, d, name, x);
    }

    lemma NewDirAll(t: Nodes, vers: Versions, ev: nat, v: Dcache.Levels, d: nat, name: Name, x: nat)
      requires Tree(t, root) && cache.Valid() && Clocked(t, vers, ev, v) && Dcache.Past(cache.View(), event) && event == ev + 3
      requires NoNewParents(v, cache.View()) && IsDir(t, d) && !Bound(t, d, name) && name != "" && x !in t && x != 0
      requires nodes == DirAdded(t, d, name, x) && versions == vers[x := ev + 1][d := ev + 3]
      ensures Valid() && (ParentsRight(t, vers, dev, v) ==> InStep())
    {
      hide Tree, Dcache.Says, Dcache.Past, Dcache.NameCache.Valid, NoNewParents, ParentsRight;
      DirAddedTree(t, root, d, name, x);
      Served(t, vers, ev, v, {d, x});
    }

    /** Only an empty directory other than d itself can go; so never "." or "..". */
    method Rmdir(d: nat, name: Name) returns (s: Status)
      requires Valid() && IsDir(nodes, d)
      modifies this, cache
      ensures Valid() && (old(InStep()) ==> InStep())
      ensures s == NoEntry <==> !Bound(old(nodes), d, Key(name))
      ensures s == NotPermitted <==> Finds(old(nodes), d, name, d)
      ensures s == NotDir <==> Bound(old(nodes), d, Key(name)) && !IsDir(old(nodes), old(nodes)[d].entries[Key(name)])
      ensures s == Done <==>
                && Bound(old(nodes), d, Key(name)) && !Finds(old(nodes), d, name, d)
                && IsDir(old(nodes), old(nodes)[d].entries[Key(name)])
                && Empty(old(nodes), old(nodes)[d].entries[Key(name)])
      ensures s == Done ==> !Dots(Key(name)) && old(nodes)[d].nlink > 0
      ensures s == Done ==> Now() == WithoutDir(old(Now()), d, Key(name))
      ensures s != Done ==> Now() == old(Now()) && (s == NoEntry || s == NotPermitted || s == NotDir || s == NotEmpty)
    {
      hide Tree, Dcache.Says, Dcache.Past, Sound, Dcache.NameCache.Valid, DirRemoved;
      var found, x := FindEntry(d, name);
      if !found {
        return NoEntry;
      }
      if x == d {
        return NotPermitted;
      }
      if !nodes[x].isDir {
        return NotDir;
      }
      if !(nodes[x].entries.Keys <= {".", ".."}) {
        return NotEmpty;
      }
      EmptyNotByDots(nodes, root, d, Key(name));
      TakeDir(d, Key(name), x);
      s := Done;
    }

    /** The second half of rmdir: the name, then the directory. */
    method TakeDir(d: nat, name: Name, x: nat)
      requires Valid() && IsDir(nodes, d) && Bound(nodes, d, name) && nodes[d].entries[name] == x && x != d
      requires IsDir(nodes, x) && Empty(nodes, x) && !Dots(name)
      modifies this, cache
      ensures Valid() && (old(InStep()) ==> InStep())
      ensures old(nodes)[d].nlink > 0
      ensures Now() == WithoutDir(old(Now()), d, name)
    {
      hide Tree, Dcache.Says, Dcache.Past, Sound, Dcache.NameCache.Valid, Clocked, ParentsRight, DirRemoved, Empty, Dots, NoNewParents;
      Opened();
      ghost var t, vers, ev, v := nodes, versions, event, cache.View();
      ClockedParts(t, vers, ev, v);
      Later(v, ev);
      Later(v, ev + 1);
      DirRemovedTree(nodes, root, d, name);
      DeleteEntry(d, name);
      Stamp(d);
      Stamp(x);
      SetLinks(d, nodes[d].nlink - 1);
      nodes := nodes - {x};
      TakenDir(t, d, name);
      TakeDirAll(t, vers, ev, v, d, name, x);
    }

    lemma TakeDirAll(t: Nodes, vers: Versions, ev: nat, v: Dcache.Levels, d: nat, name: Name, x: nat)
      requires Tree(nodes, root) && cache.Valid() && Clocked(t, vers, ev, v) && Dcache.Past(v, event) && event == ev + 2
      requires NoNewParents(v, v) && cache.View() == v && Bound(t, d, name) && t[d].nlink > 0 && t[d].entries[name] == x
      requires nodes == DirRemoved(t, d, name) && versions == vers[d := ev + 1][x := ev + 2]
      ensures Valid() && (ParentsRight(t, vers, dev, v) ==> InStep())
    {
      hide Tree, Dcache.Says, Dcache.Past, Dcache.NameCache.Valid, NoNewParents, ParentsRight;
      Served(t, vers, ev, v, {d, x});
    }

    /** The checks a rename makes before it changes anything, in their order. */
    method MayMove(od: nat, c: nat, nd: nat, target: Option, busy: bool, patience: nat) returns (s: Status)
      requires Valid() && IsDir(nodes, od) && IsDir(nodes, nd) && c in nodes
      requires target.Some? ==> target.ino in nodes && target.ino != c
      modifies cache
      ensures Sound()
      ensures s == Done <==>
                && (IsDir(nodes, c) ==>
                      && WalksPast(nodes, versions, dev, old(cache.View()), nd, c, target.Some? && IsDir(nodes, target.ino), patience)
                      && Parent(nodes, c) == od)
                && (target.Some? ==>
                      && IsDir(nodes, c) == IsDir(nodes, target.ino)
                      && (IsDir(nodes, c) ==> Empty(nodes, target.ino) && !busy && target.ino != od && target.ino != nd))
                && (target == None && IsDir(nodes, c) ==> nodes[nd].nlink < LINK_MAX)
      ensures s == IsADir ==> target.Some? && IsDir(nodes, target.ino) && !IsDir(nodes, c)
      ensures s == NotDir ==> target.Some? && !IsDir(nodes, target.ino) && IsDir(nodes, c)
      ensures s == NotEmpty ==> target.Some? && IsDir(nodes, target.ino) && !Empty(nodes, target.ino)
      ensures old(InStep()) ==>
                && InStep() && (s == Invalid ==> IsDir(nodes, c) && Under(nodes, nd, c))
                && (s == Done && IsDir(nodes, c) ==> !Under(nodes, nd, c))
                && (patience > 0 && Up(nodes, nd, patience - 1) == root ==> s != Stuck)
      ensures IsDir(nodes, c) && BothCopies(c) ==> old(BothCopies(c))
      ensures cache.View() == Strolled(dev, old(Now()), od, c, nd, target, busy, patience)
    {
      hide Tree, Under, Up, Walk, Sound, Dcache.On, ParentsRight, Dcache.NameCache.Valid;
      Opened();
      if target.Some? && nodes[target.ino].isDir {
        var x := target.ino;
        if !nodes[c].isDir {
          return IsADir;
        }
        var met := Below(nd, c, patience);
        if met != Passed {
          return if met == Met then Invalid else Stuck;
        }
        if !(nodes[x].entries.Keys <= {".", ".."}) {
          return NotEmpty;
        }
        if busy || x == od || x == nd {
          return Busy;
        }
      }
      if nodes[c].isDir {
        if target.Some? && !nodes[target.ino].isDir {
          return NotDir;
        }
        var met := Below(nd, c, patience);
        if met != Passed {
          return if met == Met then Invalid else Stuck;
        }
        ShapedDots(nodes, root, c);
        if nodes[c].entries[".."] != od {
          return NoSpace;
        }
        if target == None && nodes[nd].nlink >= LINK_MAX {
          return TooManyLinks;
        }
      }
      s := Done;
    }

    /** One walk before a rename of directory c. */
    method Below(nd: nat, c: nat, patience: nat) returns (r: Outcome)
      requires Valid() && IsDir(nodes, nd) && IsDir(nodes, c)
      modifies cache
      ensures Sound() && (r, cache.View()) == Walk(nodes, versions, dev, old(cache.View()), nd, c, patience)
      ensures BothCopies(c) ==> old(BothCopies(c))
      ensures old(InStep()) ==>
                && InStep() && (r == Met ==> Under(nodes, nd, c)) && (r == Passed ==> !Under(nodes, nd, c))
                && (patience > 0 && Up(nodes, nd, patience - 1) == root ==> r != Walking)
    {
      hide Tree, Under, Up, Walk, Dcache.On, ParentsRight, Dcache.NameCache.Valid, Dcache.Past;
      WalkEnters(nodes, versions, dev, cache.View(), nd, c, patience, event);
      r := Subdir(nd, c, patience);
    }

    /** The links after the entries have changed hands, and ".." of a moved directory. */
    method Settle(od: nat, nd: nat, c: nat, target: Option)
      requires IsDir(nodes, od) && IsDir(nodes, nd) && c in nodes && od != c && nd != c && nodes[od].nlink > 0
      requires target.Some? ==> target.ino in nodes && target.ino != od && target.ino != nd && target.ino != c
      requires target.Some? ==> nodes[target.ino].nlink > 0 && IsDir(nodes, target.ino) == IsDir(nodes, c)
      modifies this`nodes
      ensures var t := if IsDir(old(nodes), c) then Relinked(old(nodes), od, nd, c, target.Some?) else old(nodes);
              nodes == if target.Some? then Dropped(t, target.ino) else t
    {
      if target.Some? {
        SetLinks(target.ino, nodes[target.ino].nlink - 1);
      }
      if nodes[c].isDir {
        nodes := nodes[c := nodes[c].(entries := nodes[c].entries[".." := nd])];
        SetLinks(od, nodes[od].nlink - 1);
        if target.Some? {
          SetLinks(target.ino, if nodes[target.ino].nlink == 0 then 0 else nodes[target.ino].nlink - 1);
        } else {
          SetLinks(nd, nodes[nd].nlink + 1);
        }
      }
      if target.Some? && nodes[target.ino].nlink == 0 {
        nodes := nodes - {target.ino};
      }
    }

    /** The end of a rename: the links and "..", and for a directory the cached "..". The cache stays
        in step exactly unless both levels had a copy of that ".." and the parent is another one. */
    method Finish(od: nat, nd: nat, c: nat, target: Option)
      requires IsDir(nodes, od) && IsDir(nodes, nd) && c in nodes && od != c && nd != c && nodes[od].nlink > 0
      requires target.Some? ==> target.ino in nodes && target.ino != od && target.ino != nd && target.ino != c
      requires target.Some? ==> nodes[target.ino].nlink > 0 && IsDir(nodes, target.ino) == IsDir(nodes, c)
      requires Sound()
      modifies this`nodes, cache
      ensures var t := if IsDir(old(nodes), c) then Relinked(old(nodes), od, nd, c, target.Some?) else old(nodes);
              nodes == if target.Some? then Dropped(t, target.ino) else t
      ensures Sound()
      ensures old(InStep()) ==>
                (InStep() <==> !IsDir(old(nodes), c) || nd == old(Parent(nodes, c)) || !old(BothCopies(c)))
      ensures cache.View() == if IsDir(old(nodes), c) then Dcache.Entered(old(cache.View()), ParentKey(dev, versions, c), nd)
                              else old(cache.View())
    {
      hide Dcache.Says, Dcache.Past, Sound, Dcache.NameCache.Valid, Dcache.Entered, Dcache.On, Relinked, Dropped, ParentsRight;
      Opened();
      cache.ViewOk();
      ghost var t, v := nodes, cache.View();
      RelinkedEntries(nodes, od, nd, c, target);
      Settle(od, nd, c, target);
      if nodes[c].isDir {
        Enter(c, "..", nd);
      }
      Settled(t, v, c, nd);
    }

    lemma Settled(t: Nodes, v: Dcache.Levels, c: nat, nd: nat)
      requires cache.Valid() && Clocked(t, versions, event, v) && Dcache.Past(cache.View(), event) && 0 !in nodes
      requires c in t && c in nodes && IsDir(nodes, c) == IsDir(t, c) && Dcache.LevelsOk(v)
      requires forall x | IsDir(nodes, x) :: IsDir(t, x) && (x != c ==> Entries(nodes, x) == Entries(t, x))
      requires IsDir(t, c) ==> Parent(nodes, c) == nd && cache.View() == Dcache.Entered(v, ParentKey(dev, versions, c), nd)
      requires !IsDir(t, c) ==> cache.View() == v
      ensures Sound()
      ensures ParentsRight(t, versions, dev, v) ==>
                (InStep() <==>
                   || !IsDir(t, c) || nd == Parent(t, c)
                   || !(Dcache.On(v.one, ParentKey(dev, versions, c)) && Dcache.On(v.two, ParentKey(dev, versions, c))))
    {
      hide Dcache.Says, Dcache.Past, Dcache.Entered, Dcache.On, Dcache.NameCache.Valid;
      forall x | IsDir(nodes, x) && x != c
        ensures Parent(nodes, x) == Parent(t, x)
      {
        assert nodes[x].entries == Entries(nodes, x) && t[x].entries == Entries(t, x);
      }
      if IsDir(t, c) && ParentsRight(t, versions, dev, v) {
        ParentCorrected(t, nodes, versions, dev, v, c, nd);
      }
    }

    /** do_rename and ext2_rename: moves a name, over what the new name bound if there was
        something. busy says whether anything else holds the inode the new name binds, patience how
        far the walk up may go before we stop watching it.

        It goes through exactly when the rename is Movable and the walk, which reads cached parents,
        passes; then it leaves a tree exactly when the directory is not moved below itself. As long
        as the copies of ".." are right that cannot happen, and they stay right if the rename is
        guarded. */
    method Rename(od: nat, oldName: Name, nd: nat, newName: Name, busy: bool, room: bool, patience: nat) returns (s: Status)
      requires Valid() && IsDir(nodes, od) && IsDir(nodes, nd)
      modifies this, cache
      ensures Sound()
      ensures s == Done <==>
                && MayBeRenamed(oldName) && MayBeRenamed(newName)
                && old(MoveGoes(dev, Now(), od, Key(oldName), nd, Key(newName), busy, room, patience))
      ensures s == Done && !SameInode(old(nodes), od, Key(oldName), nd, Key(newName)) ==>
                && MoveMakesSense(old(nodes), od, Key(oldName), nd, Key(newName))
                && Now() == Shifted(dev, old(Now()), Renamed(old(nodes), od, Key(oldName), nd, Key(newName)),
                                  od, Key(oldName), nd, Key(newName), patience)
      ensures s != Done ==>
                Now() == old(Now()).(view := Tried(dev, old(Now()), od, oldName, nd, newName, busy, patience))
      ensures s == Done && SameInode(old(nodes), od, Key(oldName), nd, Key(newName)) ==> Now() == old(Now())
      ensures Tree(nodes, root) <==>
                s != Done || SameInode(old(nodes), od, Key(oldName), nd, Key(newName))
                || !BelowItself(old(nodes), od, Key(oldName), nd)
      ensures old(InStep()) ==>
                Tree(nodes, root) && (!old(MovesCopiedTwice(dev, Now(), od, Key(oldName), nd)) ==> InStep())
    {
      hide Tree, Under, Sound, ParentsRight, Dcache.NameCache.Valid, Movable, WalkMisses, Renamed, MoveMakesSense, BelowItself,
           Dots, Clocked;
      var on, nn := Key(oldName), Key(newName);
      MayBeRenamedIs(oldName);
      MayBeRenamedIs(newName);
      if oldName in {"", ".", ".."} || newName in {"", ".", ".."} {
        return NotPermitted;
      }
      NotDots(oldName);
      NotDots(newName);
      var found, c := FindEntry(od, oldName);
      MovableParts(nodes, od, on, nd, nn, busy, room);
      if !found {
        return NoEntry;
      }
      if nodes[c].frozen {
        return NotPermitted;
      }
      var replace, x := FindEntry(nd, newName);
      if replace && x == c {
        return Done;
      }
      s := MoveEntry(od, on, nd, nn, busy, room, patience);
    }

    /** do_ext2_rename, once both names have been searched for: the checks, then the changes. */
    method MoveEntry(od: nat, on: Name, nd: nat, nn: Name, busy: bool, room: bool, patience: nat) returns (s: Status)
      requires Valid() && IsDir(nodes, od) && IsDir(nodes, nd) && Bound(nodes, od, on) && nodes[od].entries[on] in nodes
      requires !nodes[nodes[od].entries[on]].frozen && !SameInode(nodes, od, on, nd, nn)
      requires !Dots(on) && !Dots(nn) && nn != ""
      modifies this, cache
      ensures Sound()
      ensures s == Done <==> Movable(old(nodes), od, on, nd, nn, busy, room) && old(WalkMisses(dev, Now(), od, on, nd, nn, patience))
      ensures s == Done ==>
                && MoveMakesSense(old(nodes), od, on, nd, nn)
                && Now() == Shifted(dev, old(Now()), Renamed(old(nodes), od, on, nd, nn), od, on, nd, nn, patience)
      ensures s != Done ==>
                Now() == old(Now()).(view := Strolled(dev, old(Now()), od, old(nodes)[od].entries[on], nd,
                                                      Target(old(nodes), nd, nn), busy, patience))
      ensures Tree(nodes, root) <==> s != Done || !BelowItself(old(nodes), od, on, nd)
      ensures old(InStep()) ==> Tree(nodes, root) && (!old(MovesCopiedTwice(dev, Now(), od, on, nd)) ==> InStep())
    {
      hide Tree, Under, Up, Walk, Sound, Dcache.On, ParentsRight, Dcache.NameCache.Valid, Dcache.Past, Movable, Renamed,
           MoveMakesSense, Clocked, WalksPast, Dots, NewEntries, Strolled, Walked, Empty;
      Opened();
      var c := nodes[od].entries[on];
      var target := if nn in nodes[nd].entries then Some(nodes[nd].entries[nn]) else None;
      if nn in nodes[nd].entries {
        NameNotEmpty(nodes, root, nd, nn) by { TreeShaped(nodes, root); }
      }
      ghost var past := IsDir(nodes, c) && WalkMisses(dev, Now(), od, on, nd, nn, patience);
      ClockedParts(nodes, versions, event, cache.View());
      PastMoves(nodes, versions, dev, cache.View(), nd, c, target.Some? && IsDir(nodes, target.ino), patience);
      MovableParts(nodes, od, on, nd, nn, busy, room);
      StrolledPast(dev, Now(), od, on, nd, nn, busy, patience);
      s := MayMove(od, c, nd, target, busy, patience);
      CheckedIsAllowed(nodes, root, od, on, nd, nn, busy, room, past, s == Done);
      CheckedIsAllowed(nodes, root, od, on, nd, nn, busy, true, past, s == Done);
      if s != Done {
        return;
      }
      s := Exchange(od, on, nd, nn, busy, room);
    }

    /** What a rename changes, once it may. */
    method Exchange(od: nat, on: Name, nd: nat, nn: Name, busy: bool, room: bool) returns (s: Status)
      requires Valid() && IsDir(nodes, od) && Movable(nodes, od, on, nd, nn, busy, true)
      requires !SameInode(nodes, od, on, nd, nn) && nn != "" && !Dots(nn)
      modifies this, cache
      ensures Sound() && s == if Bound(old(nodes), nd, nn) || room then Done else NoSpace
      ensures s == Done ==>
                && MoveMakesSense(old(nodes), od, on, nd, nn) && nodes == Renamed(old(nodes), od, on, nd, nn)
                && (Tree(nodes, root) <==> !BelowItself(old(nodes), od, on, nd))
      ensures s != Done ==> Now() == old(Now()) && (old(InStep()) ==> InStep())
      ensures old(InStep()) && s == Done ==>
                || InStep()
                || (nd != od && IsDir(old(nodes), old(nodes)[od].entries[on]) && old(BothCopies(nodes[od].entries[on])))
      ensures s == Done ==>
                && event == old(event) + (if Bound(old(nodes), nd, nn) then 2 else 3)
                && versions == old(versions)[nd := event - 1][od := event]
                && cache.View() == old(NewEntries(dev, versions, cache.View(), nd, event + (if Bound(nodes, nd, nn) then 1 else 2), nn,
                                                  nodes[od].entries[on], IsDir(nodes, nodes[od].entries[on])))
    {
      hide Tree, Dcache.NameCache.Valid, Clocked, ParentsRight, Movable, Renamed, BelowItself, Relinked, Dropped, Dcache.On,
           Rebound, SameInode, Sound, Dots, Dcache.Entered;
      MovableParts(nodes, od, on, nd, nn, busy, true);
      MovableMakesSense(nodes, root, od, on, nd, nn, busy, true);
      var c := nodes[od].entries[on];
      ghost var t := nodes;
      if IsDir(t, c) {
        ParentOfBound(t, root, od, on);
      }
      var target := if nn in nodes[nd].entries then Some(nodes[nd].entries[nn]) else None;
      s := Rebind(od, on, nd, nn, target.Some?, room);
      if s != Done {
        return;
      }
      ReboundReady(t, od, on, nd, nn);
      Finish(od, nd, c, target);
      RenameResult(t, root, od, on, nd, nn, busy, true);
      RenamedTree(t, root, od, on, nd, nn, busy, true);
    }

    /** The new name gets the inode of the old one, which goes; both directories get new stamps. */
    method Rebind(od: nat, on: Name, nd: nat, nn: Name, replace: bool, room: bool) returns (s: Status)
      requires Sound() && IsDir(nodes, od) && IsDir(nodes, nd) && Bound(nodes, od, on) && nn != "" && !Dots(nn)
      requires replace == Bound(nodes, nd, nn)
      requires var c := nodes[od].entries[on]; c in nodes && c != od && c != nd
      modifies this, cache
      ensures Sound() && s == if replace || room then Done else NoSpace
      ensures nodes == if s == Done then Rebound(old(nodes), od, on, nd, nn) else old(nodes)
      ensures old(InStep()) ==> InStep()
      ensures var c := old(nodes)[od].entries[on];
              c in nodes && IsDir(nodes, c) == IsDir(old(nodes), c) && Parent(nodes, c) == Parent(old(nodes), c)
              && (IsDir(nodes, c) && BothCopies(c) ==> old(BothCopies(nodes[od].entries[on])))
      ensures s == Done ==>
                && event == old(event) + (if replace then 2 else 3) && versions == old(versions)[nd := event - 1][od := event]
                && cache.View() == Dcache.Entered(old(cache.View()), Dcache.Key(dev, nd, event - 1, nn), old(nodes)[od].entries[on])
      ensures s != Done ==> Now() == old(Now())
    {
      hide Dcache.Says, Dcache.Past, Sound, Dcache.NameCache.Valid, Clocked, NoNewParents, ParentsRight, Dcache.On, Dcache.Entered,
           Rebound;
      Opened();
      var c := nodes[od].entries[on];
      ghost var t, vers, ev, v := nodes, versions, event, cache.View();
      ClockedParts(t, vers, ev, v);
      Later(v, ev);
      Later(v, ev + 1);
      s := SetName(nd, nn, c, replace, room);
      if s != Done {
        return;
      }
      if IsDir(t, c) {
        EnteredElsewhere(v, Dcache.Key(dev, nd, versions[nd], nn), c, ParentKey(dev, vers, c));
      }
      Enter(nd, nn, c);
      DeleteEntry(od, on);
      Later(cache.View(), event);
      Stamp(od);
      ReboundAll(t, vers, ev, v, od, on, nd, nn);
    }

    /** The new name binds c, in its old record or a new one, under a new stamp. */
    method SetName(nd: nat, nn: Name, c: nat, replace: bool, room: bool) returns (s: Status)
      requires IsDir(nodes, nd) && nn != "" && replace == Bound(nodes, nd, nn)
      modifies this`nodes, this`event, this`versions
      ensures s == if replace || room then Done else NoSpace
      ensures nodes == if s == Done then WithEntry(old(nodes), nd, nn, c) else old(nodes)
      ensures s == Done ==> event == old(event) + (if replace then 1 else 2) && versions == old(versions)[nd := event]
      ensures s != Done ==> event == old(event) && versions == old(versions)
    {
      if !replace {
        s := AddEntry(nd, nn, c, room);
        if s != Done {
          return;
        }
        EntryTwice(old(nodes), nd, nn, c);
        Restamped(old(versions), nd, event, event + 1);
      }
      Stamp(nd);
      nodes := nodes[nd := nodes[nd].(entries := nodes[nd].entries[nn := c])];
      s := Done;
    }

    lemma ReboundAll(t: Nodes, vers: Versions, ev: nat, v: Dcache.Levels, od: nat, on: Name, nd: nat, nn: Name)
      requires cache.Valid() && Clocked(t, vers, ev, v) && Dcache.Past(cache.View(), event) && event > ev + 1
      requires NoNewParents(v, cache.View())
      requires IsDir(t, od) && IsDir(t, nd) && Bound(t, od, on)
      requires var c := t[od].entries[on]; c in t && c != od && c != nd
      requires nodes == WithoutEntry(WithEntry(t, nd, nn, t[od].entries[on]), od, on)
      requires nd in versions && od in versions && ev < versions[nd] <= event && ev < versions[od] <= event
      requires forall x | x != nd && x != od && x in vers :: x in versions && versions[x] == vers[x]
      ensures Sound() && (ParentsRight(t, vers, dev, v) ==> InStep()) && nodes == Rebound(t, od, on, nd, nn)
      ensures var c := t[od].entries[on]; c in nodes && IsDir(nodes, c) == IsDir(t, c) && Parent(nodes, c) == Parent(t, c)
    {
      hide Dcache.Says, Dcache.Past, Dcache.NameCache.Valid, NoNewParents, ParentsRight;
      ReboundEntries(t, od, on, nd, nn);
      ClockedParts(t, vers, ev, v);
      Served(t, vers, ev, v, {nd, od});
      SameParent(t, nodes, t[od].entries[on]);
    }

    /** One request. Operands that are not what the caller should have looked up first (a
        directory to work in, an inode to link, a free name to create) make it fail. The tree is
        lost exactly by a rename that goes through and moves a directory below itself; while the
        copies of ".." are right there is none, and a guarded request keeps them right. */
    method Serve(q: Request) returns (s: Status)
      requires Valid()
      modifies this, cache
      ensures Sound() && (s == Done <==> old(Grants(dev, Now(), q))) && Leads(dev, old(Now()), q, Now())
      ensures Tree(nodes, root) <==> !old(Swallows(dev, Now(), q))
      ensures old(InStep()) ==> Tree(nodes, root) && (old(Guarded(dev, Now(), q)) ==> InStep())
    {
      hide Tree, Sound, ParentsRight, Dcache.NameCache.Valid, BelowItself, MovesCopiedTwice, MoveGoes, Renamed, Movable,
           WithName, WithoutName, WithoutDir, Shifted, Strolled, Dcache.Entered, Dcache.Consulted;
      s := NoEntry;
      match q {
        case Creat(d, name, inode, room) =>
          if IsDir(nodes, d) && (inode == None || (inode.ino !in nodes && inode.ino != 0)) && !Bound(nodes, d, Key(name)) {
            s := Create(d, name, inode, room);
          }
        case Hard(x, d, name, room) =>
          if IsDir(nodes, d) && x in nodes {
            s := Link(x, d, name, room);
          }
        case Remove(d, name) =>
          if IsDir(nodes, d) {
            s := Unlink(d, name);
          }
        case MakeDir(d, name, inode, block, room) =>
          if IsDir(nodes, d) && (inode == None || (inode.ino !in nodes && inode.ino != 0)) {
            s := Mkdir(d, name, inode, block, room);
          }
        case RemoveDir(d, name) =>
          if IsDir(nodes, d) {
            s := Rmdir(d, name);
          }
        case Move(od, on, nd, nn, busy, room, patience) =>
          if IsDir(nodes, od) && IsDir(nodes, nd) {
            s := Rename(od, on, nd, nn, busy, room, patience);
          }
        case Look(d, name) =>
          if IsDir(nodes, d) {
            ShapedDots(nodes, root, d);
            var x := Lookup(d, name);
            s := Done;
          }
        case ListOne(d, name) =>
          if IsDir(nodes, d) && Bound(nodes, d, name) {
            List(d, name);
            s := Done;
          }
        case Reload(d) =>
          if IsDir(nodes, d) {
            Refresh(d);
            s := Done;
          }
      }
    }

    /** Any run of requests, up to one after which there is no tree any more, with the states it goes
        through. That can only be a rename that moves a directory below itself; there is none if the
        copies of ".." are right at the start and every request so far was guarded. */
    method Run(requests: seq<Request>) returns (served: nat, ghost scenes: seq<Scene>)
      requires Valid()
      modifies this, cache
      ensures Sound() && served <= |requests| && |scenes| == served + 1 && IsRun(requests, served, scenes)
      ensures scenes[0] == old(Now()) && scenes[served] == Now()
      ensures served < |requests| ==> !Tree(nodes, root)
      ensures forall i | 0 <= i <= served && old(InStep()) && GuardedUpTo(requests, scenes, i) ::
                Right(dev, scenes[i]) && Tree(scenes[i].nodes, root)
    {
      hide Tree, Sound, ParentsRight, Dcache.NameCache.Valid, Leads, Swallows, Grants, Guarded, IsRun, GuardedUpTo;
      NowIs();
      NoneYet(requests, Now());
      served, scenes := 0, [Now()];
      while served < |requests|
        invariant Valid() && cache.Valid() && served <= |requests| && |scenes| == served + 1 && IsRun(requests, served, scenes)
        invariant scenes[0] == old(Now()) && scenes[served] == Now()
        invariant forall i | 0 <= i <= served && old(InStep()) && GuardedUpTo(requests, scenes, i) ::
                    Right(dev, scenes[i]) && Tree(scenes[i].nodes, root)
        decreases |requests| - served
      {
        var q := requests[served];
        var loses := Loses(q);
        NowIs();
        SwallowsIs(dev, Now(), q);
        var s := Serve(q);
        NowIs();
        OneMore(requests, served, scenes, Now());
        served, scenes := served + 1, scenes + [Now()];
        if s == Done && loses {
          return;
        }
      }
    }

    /** Each request leads from one state to the next, and there is a tree before each; afterwards as
        well unless it moved a directory below itself. */
    ghost predicate IsRun(requests: seq<Request>, served: nat, scenes: seq<Scene>) {
      && served <= |requests| && |scenes| == served + 1
      && forall i {:trigger scenes[i]} | 0 <= i < served ::
           && AllStamped(scenes[i].nodes, scenes[i].versions) && Leads(dev, scenes[i], requests[i], scenes[i + 1])
           && Tree(scenes[i].nodes, root) && (Tree(scenes[i + 1].nodes, root) <==> !Swallows(dev, scenes[i], requests[i]))
    }

    lemma NowIs()
      requires Sound()
      ensures cache.Valid() && AllStamped(nodes, versions) && (InStep() <==> Right(dev, Now()))
    {
    }

    lemma NoneYet(requests: seq<Request>, s: Scene)
      ensures IsRun(requests, 0, [s]) && GuardedUpTo(requests, [s], 0)
    {
    }

    lemma OneMore(requests: seq<Request>, served: nat, scenes: seq<Scene>, u: Scene)
      requires served < |requests| && IsRun(requests, served, scenes)
      requires var s, q := scenes[served], requests[served];
               && AllStamped(s.nodes, s.versions) && Leads(dev, s, q, u) && Tree(s.nodes, root)
               && (Tree(u.nodes, root) <==> !Swallows(dev, s, q))
      ensures IsRun(requests, served + 1, scenes + [u])
      ensures forall i | 0 <= i <= served :: GuardedUpTo(requests, scenes + [u], i) <==> GuardedUpTo(requests, scenes, i)
      ensures GuardedUpTo(requests, scenes + [u], served + 1) <==>
              GuardedUpTo(requests, scenes, served) && Guarded(dev, scenes[served], requests[served])
    {
      hide Tree, Leads, Swallows, Guarded, AllStamped;
      var more := scenes + [u];
      assert forall i | 0 <= i <= served :: more[i] == scenes[i];
    }

    /** No request before the i-th gives another parent to a directory with copies of ".." on both
        levels. */
    ghost predicate GuardedUpTo(requests: seq<Request>, scenes: seq<Scene>, i: nat)
      requires i <= |requests| && i <= |scenes|
    {
      forall k | 0 <= k < i :: Guarded(dev, scenes[k], requests[k])
    }

    /** Whether the request is a rename that would move a directory below itself. */
    method Loses(q: Request) returns (r: bool)
      requires Valid()
      ensures r <==>
                && q.Move? && IsDir(nodes, q.nd) && !SameInode(nodes, q.od, Key(q.oldName), q.nd, Key(q.newName))
                && BelowItself(nodes, q.od, Key(q.oldName), q.nd)
    {
      hide Tree, Under, Sound;
      if !q.Move? || !IsDir(nodes, q.nd) || SameInode(nodes, q.od, Key(q.oldName), q.nd, Key(q.newName)) {
        return false;
      }
      var on := Key(q.oldName);
      if !Bound(nodes, q.od, on) || !IsDir(nodes, nodes[q.od].entries[on]) {
        return false;
      }
      r := RecordsMeet(q.nd, nodes[q.od].entries[on]);
    }

    /** The walk up as the records have it: it stops, and it meets a exactly when d is a or lies
        below it. */
    method RecordsMeet(d: nat, a: nat) returns (r: bool)
      requires Tree(nodes, root) && IsDir(nodes, d)
      ensures r <==> Under(nodes, d, a)
    {
      hide Tree, Under;
      ghost var n := RootAbove(nodes, root, d);
      ghost var k: nat := 0;
      var cur := d;
      while true
        invariant IsDir(nodes, cur) && cur == Up(nodes, d, k) && k <= n
        invariant forall m: nat | m < k :: Up(nodes, d, m) != a
        decreases n - k
      {
        if cur == a {
          Meets(nodes, d, a, k);
          return true;
        }
        ShapedDots(nodes, root, cur);
        var up := nodes[cur].entries[".."];
        UpAdd(nodes, d, k, 1);
        assert Up(nodes, cur, 1) == Up(nodes, up, 0) == up;
        if up == cur {
          NeverAbove(nodes, d, a, k);
          return false;
        }
        if k == n {
          ShapedDots(nodes, root, root);
        }
        cur, k := up, k + 1;
      }
    }

    lemma Opened()
      requires Sound()
      ensures cache.Valid() && Clocked(nodes, versions, event, cache.View()) && Dcache.Past(cache.View(), event)
      ensures InStep() <==> ParentsRight(nodes, versions, dev, cache.View())
      ensures NoNewParents(cache.View(), cache.View())
    {
    }

    /** The directories in `touched` have new stamps, the others their parents, and nothing of ".."
        was entered: then the copies of ".." are as right as before. */
    lemma Served(t: Nodes, vers: Versions, ev: nat, v: Dcache.Levels, touched: set<nat>)
      requires cache.Valid() && Clocked(t, vers, ev, v) && Dcache.Past(cache.View(), event) && event >= ev && 0 !in nodes
      requires NoNewParents(v, cache.View())
      requires forall x | IsDir(nodes, x) && x in touched :: x in versions && ev < versions[x] <= event
      requires forall x | IsDir(nodes, x) && x !in touched ::
                 && IsDir(t, x) && x in vers && x in versions && versions[x] == vers[x]
                 && Entries(nodes, x) == Entries(t, x)
      ensures Sound() && (ParentsRight(t, vers, dev, v) ==> InStep())
    {
      hide Dcache.Says, Dcache.Past, Tree;
      forall x | IsDir(nodes, x) && x !in touched
        ensures Parent(nodes, x) == Parent(t, x)
      {
        assert nodes[x].entries == Entries(nodes, x) && t[x].entries == Entries(t, x);
      }
      PastParts(t, vers, ev, v);
      StampsKeepParents(t, vers, ev, v, nodes, versions, cache.View(), dev);
    }
  }

  /** What settling the links leaves of the entries. */
  lemma RelinkedEntries(t: Nodes, od: nat, nd: nat, c: nat, target: Option)
    requires IsDir(t, od) && IsDir(t, nd) && c in t && od != c && nd != c && t[od].nlink > 0
    requires target.Some? ==> target.ino in t && target.ino != od && target.ino != nd && target.ino != c
    ensures var r := if IsDir(t, c) then Relinked(t, od, nd, c, target.Some?) else t;
            var u := if target.Some? then Dropped(r, target.ino) else r;
            && u.Keys <= t.Keys && c in u && IsDir(u, c) == IsDir(t, c)
            && (IsDir(t, c) ==> Parent(u, c) == nd)
            && forall x | IsDir(u, x) :: IsDir(t, x) && (x != c ==> Entries(u, x) == Entries(t, x))
  {
  }

  lemma SameParent(t: Nodes, u: Nodes, c: nat)
    requires c in t && c in u && Entries(u, c) == Entries(t, c)
    ensures Parent(u, c) == Parent(t, c)
  {
    assert u[c].entries == Entries(u, c) && t[c].entries == Entries(t, c);
  }

  lemma EntryTwice(t: Nodes, nd: nat, nn: Name, c: nat)
    requires nd in t
    ensures WithEntry(WithEntry(t, nd, nn, c), nd, nn, c) == WithEntry(t, nd, nn, c)
  {
    assert t[nd].entries[nn := c][nn := c] == t[nd].entries[nn := c];
  }

  lemma TreeShaped(t: Nodes, root: nat)
    requires Tree(t, root)
    ensures Shaped(t, root)
  {
  }

  /** After the entries have changed hands the links can be settled. */
  lemma ReboundReady(t: Nodes, od: nat, on: Name, nd: nat, nn: Name)
    requires MoveMakesSense(t, od, on, nd, nn)
    ensures var c, u := t[od].entries[on], Rebound(t, od, on, nd, nn);
            && IsDir(u, od) && IsDir(u, nd) && c in u && od != c && nd != c && u[od].nlink > 0 && IsDir(u, c) == IsDir(t, c)
            && (Bound(t, nd, nn) ==>
                  && var x := t[nd].entries[nn];
                  x in u && x != od && x != nd && x != c && u[x].nlink > 0 && IsDir(u, x) == IsDir(u, c))
  {
  }

  lemma ReboundEntries(t: Nodes, od: nat, on: Name, nd: nat, nn: Name)
    requires Bound(t, od, on) && nd in t
    ensures var u := Rebound(t, od, on, nd, nn);
            && u.Keys == t.Keys && (forall x :: IsDir(u, x) == IsDir(t, x))
            && forall x | x != od && x != nd :: Entries(u, x) == Entries(t, x)
  {
  }

  lemma Restamped(versions: Versions, d: nat, a: nat, b: nat)
    ensures versions[d := a][d := b] == versions[d := b]
  {
  }

  lemma AddedDir(t: Nodes, d: nat, name: Name, x: nat)
    requires IsDir(t, d) && x !in t
    ensures var u := WithEntry(t[x := Node(true, 2, map["." := x, ".." := d], false)], d, name, x);
            d in u && DirAdded(t, d, name, x) == WithLinks(u, d, u[d].nlink + 1)
  {
  }

  lemma AddedFirst(t: Nodes, d: nat, name: Name, x: nat, n: Node)
    requires d in t && x != d
    ensures FileAdded(t, d, name, x, n) == WithEntry(t[x := n], d, name, x)
  {
  }

  lemma LinkedLast(t: Nodes, d: nat, name: Name, x: nat, links: nat)
    requires d in t && x in t && x != d
    ensures FileAdded(t, d, name, x, t[x].(nlink := links)) == WithLinks(WithEntry(t, d, name, x), x, links)
  {
  }

  lemma TakenDir(t: Nodes, d: nat, name: Name)
    requires Bound(t, d, name) && t[d].nlink > 0
    ensures DirRemoved(t, d, name) == WithLinks(WithoutEntry(t, d, name), d, t[d].nlink - 1) - {t[d].entries[name]}
  {
  }

  lemma SwallowsIs(dev: nat, s: Scene, q: Request)
    requires AllStamped(s.nodes, s.versions)
    ensures Swallows(dev, s, q) <==>
            && Grants(dev, s, q) && q.Move? && IsDir(s.nodes, q.nd)
            && !SameInode(s.nodes, q.od, Key(q.oldName), q.nd, Key(q.newName))
            && BelowItself(s.nodes, q.od, Key(q.oldName), q.nd)
  {
    hide SameInode, BelowItself, MoveGoes, MayBeRenamed;
  }

  lemma NotDots(name: Name)
    requires MayBeRenamed(name)
    ensures Key(name) != "" && !Dots(Key(name))
  {
  }

  lemma MovableParts(t: Nodes, od: nat, on: Name, nd: nat, nn: Name, busy: bool, room: bool)
    ensures Movable(t, od, on, nd, nn, busy, room) ==>
              Bound(t, od, on) && !Dots(on) && t[od].entries[on] in t && !t[t[od].entries[on]].frozen
    ensures Movable(t, od, on, nd, nn, busy, room) <==> Movable(t, od, on, nd, nn, busy, true) && (Bound(t, nd, nn) || room)
  {
  }

  /** A rename that passes its checks has made all its walks. */
  lemma StrolledPast(dev: nat, s: Scene, od: nat, on: Name, nd: nat, nn: Name, busy: bool, patience: nat)
    requires AllStamped(s.nodes, s.versions) && Bound(s.nodes, od, on)
    ensures var c, target := s.nodes[od].entries[on], Target(s.nodes, nd, nn);
            var twice := target.Some? && IsDir(s.nodes, target.ino);
            WalkMisses(dev, s, od, on, nd, nn, patience) && (twice ==> IsDir(s.nodes, c) && Empty(s.nodes, target.ino) && !busy && target.ino != od && target.ino != nd)
            && (IsDir(s.nodes, c) && target.Some? ==> twice)
            ==> Strolled(dev, s, od, c, nd, target, busy, patience)
                == if IsDir(s.nodes, c) then Walked(s.nodes, s.versions, dev, s.view, nd, c, twice, patience) else s.view
  {
    hide Walk;
  }

  lemma PastMoves(t: Nodes, versions: Versions, dev: nat, v: Dcache.Levels, d: nat, a: nat, twice: bool, patience: nat)
    requires forall x | IsDir(t, x) :: x in versions
    ensures WalksPast(t, versions, dev, v, d, a, twice, patience) ==> d != a
  {
  }

  /** What do_rename asks of a name: not empty, and neither "." nor "..". */
  ghost predicate MayBeRenamed(name: Name) {
    name != "" && !Dots(name)
  }

  lemma MayBeRenamedIs(name: Name)
    ensures MayBeRenamed(name) <==> name !in {"", ".", ".."}
  {
  }

  /** The binding of ".." in the cache after c has moved to nd. */
  lemma ParentCorrected(t: Nodes, u: Nodes, versions: Versions, dev: nat, v: Dcache.Levels, c: nat, nd: nat)
    requires IsDir(t, c) && IsDir(u, c) && c in versions && ParentsRight(t, versions, dev, v) && Dcache.LevelsOk(v)
    requires Parent(u, c) == nd && forall x | IsDir(u, x) :: IsDir(t, x) && (x != c ==> Parent(u, x) == Parent(t, x))
    ensures var k := ParentKey(dev, versions, c);
            ParentsRight(u, versions, dev, Dcache.Entered(v, k, nd)) <==>
            nd == Parent(t, c) || !(Dcache.On(v.one, k) && Dcache.On(v.two, k))
  {
    hide Dcache.Says, Dcache.Entered, Dcache.On, Dcache.Place;
    var k := ParentKey(dev, versions, c);
    var w := Dcache.Entered(v, k, nd);
    forall j, n | Dcache.Says(w, j, n)
      ensures Dcache.Says(v, j, n) || (j == k && n == nd)
    {
      Dcache.EnteredSays(v, k, nd, j, n);
    }
    forall n
      ensures !(Dcache.On(v.one, k) && Dcache.On(v.two, k)) && Dcache.Says(w, k, n) ==> n == nd
    {
      Dcache.EnteredAlone(v, k, nd, n);
    }
    if Dcache.On(v.one, k) && Dcache.On(v.two, k) {
      Dcache.OldCopyStays(v, k, nd);
    }
  }

  lemma ClockedParts(t: Nodes, versions: Versions, event: nat, v: Dcache.Levels)
    requires Clocked(t, versions, event, v)
    ensures Dcache.Past(v, event) && 0 !in t && forall d | IsDir(t, d) :: d in versions && versions[d] <= event
  {
  }

  /** With right copies the walks of a rename pass exactly when they should. */
  lemma RightWalksPast(t: Nodes, root: nat, versions: Versions, dev: nat, v: Dcache.Levels, d: nat, a: nat,
                       twice: bool, patience: nat)
    requires Tree(t, root) && ParentsRight(t, versions, dev, v) && IsDir(t, d) && 0 !in t
    requires forall x | IsDir(t, x) :: x in versions
    ensures WalksPast(t, versions, dev, v, d, a, twice, patience) ==> !Under(t, d, a)
    ensures patience > 0 && Up(t, d, patience - 1) == root && !Under(t, d, a) ==>
              WalksPast(t, versions, dev, v, d, a, twice, patience)
  {
    hide Tree, Under, Up, Walk, ParentsRight;
    WalkRight(t, root, versions, dev, v, d, a, patience);
    WalkRight(t, root, versions, dev, Walk(t, versions, dev, v, d, a, patience).1, d, a, patience);
  }

  lemma PastParts(t: Nodes, versions: Versions, event: nat, v: Dcache.Levels)
    requires Clocked(t, versions, event, v)
    ensures Dcache.Past(v, event) && 0 !in t
  {
  }

  /** What is past now is past later. */
  lemma Later(v: Dcache.Levels, event: nat)
    requires Dcache.Past(v, event)
    ensures Dcache.Past(v, event + 1) && NoNewParents(v, v)
  {
    hide Dcache.Says;
  }

  /** A free name is not "..". */
  lemma NotUp(t: Nodes, root: nat, d: nat, name: Name)
    requires Tree(t, root) && IsDir(t, d) && !Bound(t, d, name)
    ensures name != ".." && name != "."
  {
    hide Counted;
    DotsBound(t, root, d);
  }

  // ----- the names of a directory are those of its records

  /** The directory's names are those its records bind. */
  ghost predicate Represents(t: Nodes, d: nat, blocks: seq<Records.Block>, caseless: bool) {
    IsDir(t, d) && t[d].entries == Directory.Names(Records.Live(blocks), caseless)
  }

  lemma NamesBind(live: set<Records.Entry>, caseless: bool, e: Records.Entry)
    requires Directory.Unique(live, caseless) && e in live
    ensures var s := Directory.Fold(e.name, caseless);
            s in Directory.Names(live, caseless) && Directory.Names(live, caseless)[s] == e.ino
  {
  }

  /** A search of the records answers what the directory binds. */
  lemma SearchIsBinding(t: Nodes, d: nat, blocks: seq<Records.Block>, caseless: bool, name: string)
    requires Represents(t, d, blocks, caseless) && Directory.Unique(Records.Live(blocks), caseless) && name != ""
    requires forall e | e in Records.Live(blocks) :: e.ino != 0
    ensures var s := Directory.Fold(Directory.Cut(name), caseless);
            Directory.Answer(blocks, name, caseless) == if Bound(t, d, s) then t[d].entries[s] else 0
  {
    hide Records.LiveFrom, Directory.FirstMatch;
    var live := Records.Live(blocks);
    Directory.FirstMatchLive(Records.Flat(blocks), 0, Directory.Cut(name), caseless);
    forall e | e in live
      ensures var s := Directory.Fold(e.name, caseless);
              s in t[d].entries && t[d].entries[s] == e.ino
    {
      NamesBind(live, caseless, e);
    }
  }

  /** The scan of empty_dir says whether a directory binds more than its dots. */
  lemma EmptyIsEmpty(t: Nodes, d: nat, blocks: seq<Records.Block>, blockSize: nat, inodes: nat, caseless: bool)
    requires Represents(t, d, blocks, caseless) && Directory.Unique(Records.Live(blocks), caseless)
    requires Directory.AllTile(blocks, blockSize, inodes) && Directory.StartsWithDots(blocks, d) && d != 0
    ensures Directory.NoneAfterDots(blocks) <==> Empty(t, d)
  {
    hide Records.LiveFrom, Directory.AllTile, Records.Size, Directory.NoneAfterDots, Directory.StartsWithDots, Directory.Fold;
    Directory.EmptyBindsDots(blocks, blockSize, inodes, d, caseless);
    var live := Records.Live(blocks);
    forall e | e in live
      ensures Directory.Fold(e.name, caseless) in t[d].entries.Keys
      ensures Directory.Fold(e.name, caseless) in {".", ".."} <==> e.name == "." || e.name == ".."
    {
      NamesBind(live, caseless, e);
      Directory.FoldedDots(e.name, caseless);
    }
    forall s | s in t[d].entries.Keys
      ensures exists e :: e in live && Directory.Fold(e.name, caseless) == s
    {
      var e :| e in live && Directory.Fold(e.name, caseless) == s;
    }
    hide Directory.Names;
  }

  /** What a search of the records answers. */
  function Told(t: Nodes, d: nat, name: Name): nat {
    if Bound(t, d, Key(name)) then t[d].entries[Key(name)] else 0
  }

  lemma ToldIs(t: Nodes, d: nat)
    ensures Told(t, d, "..") == ToldParent(t, d)
  {
  }

  lemma BlankSays(v: Dcache.Levels)
    requires |v.one| == Dcache.SIZE == |v.two| && forall i | 0 <= i < Dcache.SIZE :: !v.one[i].hashed && !v.two[i].hashed
    ensures forall k, n :: !Dcache.Says(v, k, n)
  {
  }

  lemma EntersOnly(v: Dcache.Levels, k: Dcache.Key, x: nat)
    ensures k.name != ".." ==> NoNewParents(v, Dcache.Entered(v, k, x))
  {
    hide Dcache.Entered, Dcache.Says;
    forall j, n | Dcache.Says(Dcache.Entered(v, k, x), j, n)
      ensures Dcache.Says(v, j, n) || (j == k && n == x)
    {
      Dcache.EnteredSays(v, k, x, j, n);
    }
  }

  lemma LookupRight(t: Nodes, versions: Versions, dev: nat, v: Dcache.Levels, d: nat, name: Name)
    requires ParentsRight(t, versions, dev, v) && IsDir(t, d) && d in versions
    ensures Bound(t, d, "..") ==>
              ParentsRight(t, versions, dev, Dcache.Consulted(v, Dcache.Key(dev, d, versions[d], name), Told(t, d, name)))
  {
    hide Dcache.Consulted, Dcache.Says;
    var k, told := Dcache.Key(dev, d, versions[d], name), Told(t, d, name);
    forall j, n | Dcache.Says(Dcache.Consulted(v, k, told), j, n)
      ensures Dcache.Says(v, j, n) || (j == k && n == told)
    {
      Dcache.ConsultedSays(v, k, told, j, n);
    }
  }

  lemma ListRight(t: Nodes, versions: Versions, dev: nat, v: Dcache.Levels, d: nat, name: Name)
    requires ParentsRight(t, versions, dev, v) && IsDir(t, d) && d in versions && Bound(t, d, name)
    ensures ParentsRight(t, versions, dev, Dcache.Entered(v, Dcache.Key(dev, d, versions[d], name), t[d].entries[name]))
  {
    hide Dcache.Entered, Dcache.Says;
    var k, told := Dcache.Key(dev, d, versions[d], name), t[d].entries[name];
    forall j, n | Dcache.Says(Dcache.Entered(v, k, told), j, n)
      ensures Dcache.Says(v, j, n) || (j == k && n == told)
    {
      Dcache.EnteredSays(v, k, told, j, n);
    }
  }
}
