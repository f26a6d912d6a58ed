/** Directories made, removed and moved: mkdir, rmdir and rename keep the tree. */
module TreeDirs {
  import opened DirTree
  import opened TreeOps

  // ----- mkdir

  function FreshDir(c: nat, d: nat): Node {
    Node(true, 2, map["." := c, ".." := d], false)
  }

  function DirAdded(t: Nodes, d: nat, name: Name, c: nat): Nodes
    requires d in t
  {
    var n := t[d];
    t[d := n.(entries := n.entries[name := c], nlink := n.nlink + 1)][c := FreshDir(c, d)]
  }

  lemma DirAddedTree(t: Nodes, root: nat, d: nat, name: Name, c: nat)
    requires Tree(t, root) && IsDir(t, d) && !Bound(t, d, name) && name != "" && c !in t
    ensures Tree(DirAdded(t, d, name, c), root)
  {
    hide BoundOnce, Rooted, NodeShaped, Names, SubDirs;
    var u := DirAdded(t, d, name, c);
    DotsBound(t, root, d);
    assert Added(t, u, d, name, c);
    NodesShapedAddsDir(t, u, root, d, name, c);
    BoundOnceAddsDir(t, u, root, d, name, c);
    RootedAddsDir(t, u, root, d, c);
    forall x | IsDir(u, x)
      ensures u[x].nlink == 2 + |SubDirs(u, root, x)|
    {
      SubDirsAdded(t, u, root, d, c, x);
    }
    forall f | f in u && !u[f].isDir
      ensures u[f].nlink == |Names(u, f)| && u[f].nlink > 0
    {
      NamesWithDir(t, u, d, name, c, f);
    }
  }

  lemma DotsBound(t: Nodes, root: nat, d: nat)
    requires Shaped(t, root) && IsDir(t, d)
    ensures Bound(t, d, ".") && Bound(t, d, "..") && IsDir(t, Parent(t, d)) && t[d].entries["."] == d
  {
    hide BoundOnce, Rooted;
    assert NodeShaped(t, d);
  }

  /** u is t with a new directory c bound in d. */
  ghost predicate Added(t: Nodes, u: Nodes, d: nat, name: Name, c: nat) {
    && u.Keys == t.Keys + {c} && c !in t && c != d
    && (forall x | x in t :: IsDir(u, x) == IsDir(t, x)) && IsDir(u, c)
    && Entries(u, c) == map["." := c, ".." := d]
    && Entries(u, d) == Entries(t, d)[name := c]
    && (forall x | x != c && x != d :: Entries(u, x) == Entries(t, x))
    && name !in Entries(t, d) && name != "" && !Dots(name)
  }

  lemma AddedParents(t: Nodes, u: Nodes, root: nat, d: nat, name: Name, c: nat)
    requires Added(t, u, d, name, c) && IsDir(t, d)
    ensures Parent(u, c) == d
    ensures forall x | IsDir(t, x) :: Parent(u, x) == Parent(t, x)
  {
    forall x | IsDir(t, x)
      ensures Parent(u, x) == Parent(t, x)
    {
      assert Entries(u, x) == u[x].entries && Entries(t, x) == t[x].entries;
    }
    assert Entries(u, c) == u[c].entries;
  }

  lemma NodesShapedAddsDir(t: Nodes, u: Nodes, root: nat, d: nat, name: Name, c: nat)
    requires Shaped(t, root) && IsDir(t, d) && Added(t, u, d, name, c)
    ensures NodesShaped(u)
  {
    hide BoundOnce, Rooted;
    AddedParents(t, u, root, d, name, c);
    forall x | x in u
      ensures NodeShaped(u, x)
    {
      assert Entries(u, x) == u[x].entries;
      if x in t {
        assert NodeShaped(t, x);
        assert Entries(t, x) == t[x].entries;
      }
    }
  }

  lemma BoundOnceAddsDir(t: Nodes, u: Nodes, root: nat, d: nat, name: Name, c: nat)
    requires Shaped(t, root) && IsDir(t, d) && Added(t, u, d, name, c)
    ensures BoundOnce(u, root)
  {
    hide Rooted, NodeShaped;
    AddedParents(t, u, root, d, name, c);
    forall e, m | Bound(u, e, m) && !Dots(m)
      ensures if e == d && m == name then u[e].entries[m] == c
              else Bound(t, e, m) && u[e].entries[m] == t[e].entries[m] != c
    {
      AddedBinding(t, u, root, d, name, c, e, m);
    }
    forall x | IsDir(u, x) && x != root
      ensures HasName(u, Parent(u, x), x)
    {
      AddedHasName(t, u, root, d, name, c, x);
    }
    hide Added, Parent, HasName, BoundOnce;
    BoundOnceWith(t, u, root, d, name, c);
  }

  /** One more binding, of a directory with that parent, and the others as before. */
  lemma BoundOnceWith(t: Nodes, u: Nodes, root: nat, nd: nat, nn: Name, c: nat)
    requires BoundOnce(t, root) && c != root && Parent(u, c) == nd
    requires forall e, m | Bound(u, e, m) && !Dots(m) ::
               if e == nd && m == nn then u[e].entries[m] == c
               else Bound(t, e, m) && u[e].entries[m] == t[e].entries[m] != c
    requires forall x | IsDir(u, x) && x != c :: IsDir(t, x) && Parent(u, x) == Parent(t, x)
    requires forall x | IsDir(u, x) && x != root :: HasName(u, Parent(u, x), x)
    ensures BoundOnce(u, root)
  {
    hide Parent, HasName;
  }

  /** The bindings after mkdir: the new one, and the old ones. */
  lemma AddedBinding(t: Nodes, u: Nodes, root: nat, d: nat, name: Name, c: nat, e: nat, m: Name)
    requires Shaped(t, root) && IsDir(t, d) && Added(t, u, d, name, c) && Bound(u, e, m) && !Dots(m)
    ensures if e == d && m == name then u[e].entries[m] == c
            else Bound(t, e, m) && u[e].entries[m] == t[e].entries[m] != c
  {
    hide Rooted, BoundOnce;
    assert u[e].entries == Entries(u, e);
    if e in t {
      assert NodeShaped(t, e) && t[e].entries == Entries(t, e);
    }
  }

  lemma AddedHasName(t: Nodes, u: Nodes, root: nat, d: nat, name: Name, c: nat, x: nat)
    requires Shaped(t, root) && IsDir(t, d) && Added(t, u, d, name, c) && IsDir(u, x) && x != root
    requires Parent(u, c) == d && forall y | IsDir(t, y) :: Parent(u, y) == Parent(t, y)
    ensures HasName(u, Parent(u, x), x)
  {
    hide Rooted, NodeShaped;
    if x == c {
      assert name in Entries(u, d) && Entries(u, d)[name] == c;
    } else {
      assert x in t && IsDir(t, x) && HasName(t, Parent(t, x), x);
      var m :| Bound(t, Parent(t, x), m) && !Dots(m) && t[Parent(t, x)].entries[m] == x;
      assert m in Entries(t, Parent(t, x)) && Entries(u, Parent(t, x))[m] == x;
    }
  }

  lemma RootedAddsDir(t: Nodes, u: Nodes, root: nat, d: nat, c: nat)
    requires Shaped(t, root) && IsDir(t, d) && c !in t
    requires forall x :: IsDir(u, x) <==> IsDir(t, x) || x == c
    requires Parent(u, c) == d && forall x | IsDir(t, x) :: Parent(u, x) == Parent(t, x)
    ensures forall x {:trigger Rooted(u, root, x)} | IsDir(u, x) :: Rooted(u, root, x)
  {
    hide BoundOnce;
    forall x | IsDir(t, x)
      ensures Rooted(u, root, x)
    {
      assert Rooted(t, root, x);
      var n: nat :| Up(t, x, n) == root;
      forall m: nat | m < n
        ensures Parent(u, Up(t, x, m)) == Parent(t, Up(t, x, m))
      {
        UpDirs(t, root, x, m);
      }
      UpSame(t, u, x, n);
    }
    assert Rooted(u, root, d);
    var n: nat :| Up(u, d, n) == root;
    assert Up(u, c, n + 1) == root;
  }

  lemma InSubDirs(t: Nodes, root: nat, d: nat, y: nat)
    ensures y in SubDirs(t, root, d) <==> IsDir(t, y) && y != root && Parent(t, y) == d
  {
  }

  lemma SubDirsAdded(t: Nodes, u: Nodes, root: nat, d: nat, c: nat, x: nat)
    requires Shaped(t, root) && IsDir(t, d) && c !in t
    requires forall y :: IsDir(u, y) <==> IsDir(t, y) || y == c
    requires Parent(u, c) == d && forall y | IsDir(t, y) :: Parent(u, y) == Parent(t, y)
    ensures SubDirs(u, root, x) == if x == d then SubDirs(t, root, x) + {c} else SubDirs(t, root, x)
    ensures x == d ==> |SubDirs(u, root, x)| == |SubDirs(t, root, x)| + 1
    ensures x == c ==> SubDirs(u, root, x) == {}
  {
    hide BoundOnce, Rooted, SubDirs;
    assert c != root;
    forall y
      ensures y in SubDirs(u, root, x) <==> y in SubDirs(t, root, x) || (y == c && x == d)
      ensures x == c ==> y !in SubDirs(t, root, x)
    {
      InSubDirs(t, root, x, y);
      InSubDirs(u, root, x, y);
      if IsDir(t, y) {
        DotsBound(t, root, y);
      }
    }
    InSubDirs(t, root, x, c);
  }

  lemma NamesWithDir(t: Nodes, u: Nodes, d: nat, name: Name, c: nat, f: nat)
    requires Added(t, u, d, name, c) && f != c
    ensures Names(u, f) == Names(t, f)
  {
    hide Names, Entries;
    forall p: (nat, Name)
      ensures p in Names(u, f) <==> p in Names(t, f)
    {
      InNames(t, f, p.0, p.1);
      InNames(u, f, p.0, p.1);
      NoEntries(t, c);
      assert p == (p.0, p.1);
    }
  }

  lemma NoEntries(t: Nodes, c: nat)
    ensures c !in t ==> Entries(t, c) == map[]
  {
  }

  // ----- rmdir

  function DirRemoved(t: Nodes, d: nat, name: Name): Nodes
    requires Bound(t, d, name) && t[d].nlink > 0
  {
    var n := t[d];
    t[d := n.(entries := n.entries - {name}, nlink := n.nlink - 1)] - {n.entries[name]}
  }

  /** u is t without the empty directory c that d binds as name. */
  ghost predicate Removed(t: Nodes, u: Nodes, d: nat, name: Name, c: nat) {
    && u.Keys == t.Keys - {c} && c != d
    && (forall x | x in u :: IsDir(u, x) == IsDir(t, x))
    && name in Entries(t, d) && Entries(t, d)[name] == c && !Dots(name)
    && Entries(u, d) == Entries(t, d) - {name}
    && (forall x | x != c && x != d :: Entries(u, x) == Entries(t, x))
  }

  lemma DirRemovedTree(t: Nodes, root: nat, d: nat, name: Name)
    requires Tree(t, root) && Bound(t, d, name) && !Dots(name)
    requires IsDir(t, t[d].entries[name]) && Empty(t, t[d].entries[name])
    ensures t[d].nlink > 0 && t[d].entries[name] != d && t[d].entries[name] != root
    ensures Tree(DirRemoved(t, d, name), root)
  {
    hide BoundOnce, Rooted, NodeShaped, Names, SubDirs;
    var c := t[d].entries[name];
    BoundMeansDir(t, root, d, name);
    ChildOf(t, root, d, name);
    var u := DirRemoved(t, d, name);
    assert Removed(t, u, d, name, c);
    NoChildren(t, root, c);
    RemovedParents(t, u, root, d, name, c);
    NodesShapedRemovesDir(t, u, root, d, name, c);
    BoundOnceRemovesDir(t, u, root, d, name, c);
    RootedRemovesDir(t, u, root, c);
    forall x | IsDir(u, x)
      ensures u[x].nlink == 2 + |SubDirs(u, root, x)|
    {
      SubDirsRemoved(t, u, root, d, c, x);
    }
    forall f | f in u && !u[f].isDir
      ensures u[f].nlink == |Names(u, f)| && u[f].nlink > 0
    {
      NamesWithoutDir(t, u, root, d, name, c, f);
    }
  }

  /** A directory bound by an ordinary name is not the root and its parent is the binder. */
  lemma ChildOf(t: Nodes, root: nat, d: nat, name: Name)
    requires Shaped(t, root) && Bound(t, d, name) && !Dots(name) && IsDir(t, t[d].entries[name])
    ensures t[d].entries[name] != root && Parent(t, t[d].entries[name]) == d && t[d].entries[name] != d
  {
    if t[d].entries[name] == d {
      SelfParentIsRoot(t, root, d);
    }
  }

  /** Nothing has an empty directory as its parent. */
  lemma NoChildren(t: Nodes, root: nat, c: nat)
    requires Shaped(t, root) && IsDir(t, c) && Empty(t, c) && c != root
    ensures forall x | IsDir(t, x) :: Parent(t, x) != c
  {
    hide Rooted, NodeShaped;
    forall x | IsDir(t, x)
      ensures Parent(t, x) != c
    {
      if x != root {
        assert HasName(t, Parent(t, x), x);
        var m :| Bound(t, Parent(t, x), m) && !Dots(m) && t[Parent(t, x)].entries[m] == x;
        assert m in t[Parent(t, x)].entries.Keys;
      }
    }
  }

  lemma RemovedParents(t: Nodes, u: Nodes, root: nat, d: nat, name: Name, c: nat)
    requires Removed(t, u, d, name, c)
    ensures forall x | IsDir(u, x) :: IsDir(t, x) && x != c && Parent(u, x) == Parent(t, x)
    ensures forall x | IsDir(t, x) && x != c :: IsDir(u, x)
  {
    forall x | IsDir(u, x)
      ensures IsDir(t, x) && x != c && Parent(u, x) == Parent(t, x)
    {
      assert Entries(u, x) == u[x].entries && Entries(t, x) == t[x].entries;
    }
  }

  lemma NodesShapedRemovesDir(t: Nodes, u: Nodes, root: nat, d: nat, name: Name, c: nat)
    requires Shaped(t, root) && Removed(t, u, d, name, c) && IsDir(t, c)
    requires forall x | IsDir(t, x) :: Parent(t, x) != c
    requires forall x | IsDir(u, x) :: IsDir(t, x) && x != c && Parent(u, x) == Parent(t, x)
    requires forall x | IsDir(t, x) && x != c :: IsDir(u, x)
    ensures NodesShaped(u)
  {
    hide Rooted;
    forall x | x in u
      ensures NodeShaped(u, x)
    {
      assert NodeShaped(t, x);
      assert Entries(u, x) == u[x].entries && Entries(t, x) == t[x].entries;
      if IsDir(t, x) {
        forall m | m in u[x].entries
          ensures u[x].entries[m] in u && m != ""
        {
          BoundElsewhere(t, root, d, name, c, x, m);
        }
      }
    }
  }

  /** The only ordinary name of directory c is the one in d. */
  lemma BoundElsewhere(t: Nodes, root: nat, d: nat, name: Name, c: nat, x: nat, m: Name)
    requires Shaped(t, root) && name in Entries(t, d) && Entries(t, d)[name] == c && !Dots(name) && IsDir(t, c)
    requires IsDir(t, x) && m in Entries(t, x) && x != c && Parent(t, x) != c
    ensures Entries(t, x)[m] == c ==> x == d && m == name
  {
    hide Rooted;
    assert NodeShaped(t, x);
    assert Bound(t, x, m) && Bound(t, d, name);
  }

  lemma BoundOnceRemovesDir(t: Nodes, u: Nodes, root: nat, d: nat, name: Name, c: nat)
    requires Shaped(t, root) && Removed(t, u, d, name, c) && IsDir(t, c)
    requires forall x | IsDir(t, x) :: Parent(t, x) != c
    requires forall x | IsDir(u, x) :: IsDir(t, x) && x != c && Parent(u, x) == Parent(t, x)
    requires forall x | IsDir(t, x) && x != c :: IsDir(u, x)
    ensures BoundOnce(u, root)
  {
    hide Rooted, NodeShaped;
    forall e, m | Bound(u, e, m)
      ensures Bound(t, e, m) && u[e].entries[m] == t[e].entries[m]
    {
      assert u[e].entries == Entries(u, e);
      assert m in Entries(t, e);
    }
    forall x | IsDir(u, x) && x != root
      ensures HasName(u, Parent(u, x), x)
    {
      assert HasName(t, Parent(t, x), x);
      var m :| Bound(t, Parent(t, x), m) && !Dots(m) && t[Parent(t, x)].entries[m] == x;
      assert m in Entries(t, Parent(t, x));
      assert Entries(u, Parent(t, x))[m] == x;
    }
  }

  lemma RootedRemovesDir(t: Nodes, u: Nodes, root: nat, c: nat)
    requires Shaped(t, root) && c != root
    requires forall x | IsDir(t, x) :: Parent(t, x) != c
    requires forall x | IsDir(u, x) :: IsDir(t, x) && x != c && Parent(u, x) == Parent(t, x)
    requires forall x | IsDir(t, x) && x != c :: IsDir(u, x)
    ensures forall x {:trigger Rooted(u, root, x)} | IsDir(u, x) :: Rooted(u, root, x)
  {
    hide BoundOnce, NodeShaped;
    forall x | IsDir(u, x)
      ensures Rooted(u, root, x)
    {
      assert Rooted(t, root, x);
      var n: nat :| Up(t, x, n) == root;
      forall m: nat | m < n
        ensures Parent(u, Up(t, x, m)) == Parent(t, Up(t, x, m))
      {
        UpDirs(t, root, x, m);
        UpAvoids(t, root, x, c, m);
      }
      UpSame(t, u, x, n);
    }
  }

  lemma {:induction false} UpAvoids(t: Nodes, root: nat, x: nat, c: nat, m: nat)
    requires Shaped(t, root) && IsDir(t, x) && x != c
    requires forall y | IsDir(t, y) :: Parent(t, y) != c
    ensures Up(t, x, m) != c
    decreases m
  {
    hide BoundOnce, Rooted;
    if m > 0 {
      DotsBound(t, root, x);
      UpAvoids(t, root, Parent(t, x), c, m - 1);
    }
  }

  lemma SubDirsRemoved(t: Nodes, u: Nodes, root: nat, d: nat, c: nat, x: nat)
    requires IsDir(t, c) && c != root && Parent(t, c) == d
    requires forall y | IsDir(u, y) :: IsDir(t, y) && y != c && Parent(u, y) == Parent(t, y)
    requires forall y | IsDir(t, y) && y != c :: IsDir(u, y)
    ensures SubDirs(u, root, x) == if x == d then SubDirs(t, root, x) - {c} else SubDirs(t, root, x)
    ensures x == d ==> |SubDirs(t, root, x)| == |SubDirs(u, root, x)| + 1
  {
    hide SubDirs;
    forall y
      ensures y in SubDirs(u, root, x) <==> y in SubDirs(t, root, x) && y != c
    {
      InSubDirs(t, root, x, y);
      InSubDirs(u, root, x, y);
    }
    InSubDirs(t, root, x, c);
    if x == d {
      assert SubDirs(t, root, x) == SubDirs(u, root, x) + {c};
    }
  }

  lemma NamesWithoutDir(t: Nodes, u: Nodes, root: nat, d: nat, name: Name, c: nat, f: nat)
    requires Removed(t, u, d, name, c) && f != c && c !in u
    requires Empty(t, c)
    ensures Names(u, f) == Names(t, f)
  {
    hide Names;
    forall p: (nat, Name)
      ensures p in Names(u, f) <==> p in Names(t, f)
    {
      InNames(t, f, p.0, p.1);
      InNames(u, f, p.0, p.1);
      assert p == (p.0, p.1);
      if p.0 == c && p.1 in Entries(t, c) {
        assert p.1 in t[c].entries.Keys;
      }
    }
  }

  // ----- rename of a directory

  /** Directory c, bound by od as on, moves to name nn of nd. */
  function DirMoved(t: Nodes, od: nat, on: Name, nd: nat, nn: Name): Nodes
    requires Bound(t, od, on) && nd in t && t[od].entries[on] in t && t[od].nlink > 0
  {
    var c := t[od].entries[on];
    var t1 := WithEntry(t, nd, nn, c);
    var t2 := WithoutEntry(t1, od, on);
    var t3 := WithEntry(t2, c, "..", nd);
    var t4 := WithLinks(t3, od, t3[od].nlink - 1);
    WithLinks(t4, nd, t4[nd].nlink + 1)
  }

  ghost predicate Moved(t: Nodes, u: Nodes, od: nat, on: Name, nd: nat, nn: Name, c: nat) {
    && u.Keys == t.Keys && (forall x :: IsDir(u, x) == IsDir(t, x))
    && c != od && c != nd
    && on in Entries(t, od) && Entries(t, od)[on] == c && !Dots(on)
    && nn !in Entries(t, nd) && nn != "" && !Dots(nn)
    && Entries(u, c) == Entries(t, c)[".." := nd]
    && (forall x | x != c && x != od && x != nd :: Entries(u, x) == Entries(t, x))
    && (od != nd ==> Entries(u, od) == Entries(t, od) - {on} && Entries(u, nd) == Entries(t, nd)[nn := c])
    && (od == nd ==> Entries(u, od) == Entries(t, od)[nn := c] - {on})
  }

  lemma DirMovedTree(t: Nodes, root: nat, od: nat, on: Name, nd: nat, nn: Name)
    requires Tree(t, root) && Bound(t, od, on) && !Dots(on) && IsDir(t, t[od].entries[on])
    requires IsDir(t, nd) && !Bound(t, nd, nn) && nn != ""
    requires !Under(t, nd, t[od].entries[on])
    ensures t[od].nlink > 0 && Tree(DirMoved(t, od, on, nd, nn), root)
  {
    hide Shaped, Names, SubDirs, Under, Moved, Parent;
    var c := t[od].entries[on];
    BoundMeansDir(t, root, od, on);
    ChildOf(t, root, od, on);
    DotsBound(t, root, nd);
    NotAbove(t, nd, c);
    LinksPositive(t, root, od, c);
    var u := DirMoved(t, od, on, nd, nn);
    MovedIs(t, od, on, nd, nn);
    MovedLinks(t, od, on, nd, nn);
    MovedParents(t, u, root, od, on, nd, nn, c);
    NodesShapedMoves(t, u, root, od, on, nd, nn, c);
    BoundOnceMoves(t, u, root, od, on, nd, nn, c);
    RootedMoves(t, u, root, nd, c);
    MovedShaped(t, u, root, od, on, nd, nn, c);
    forall x | IsDir(u, x)
      ensures u[x].nlink == 2 + |SubDirs(u, root, x)|
    {
      SubDirsMoved(t, u, root, od, nd, c, x);
    }
    forall f | f in u && !u[f].isDir
      ensures u[f].nlink == |Names(u, f)| && u[f].nlink > 0
    {
      NamesMoved(t, u, od, on, nd, nn, c, f);
    }
  }

  lemma MovedIs(t: Nodes, od: nat, on: Name, nd: nat, nn: Name)
    requires IsDir(t, od) && IsDir(t, nd) && Bound(t, od, on) && !Dots(on) && IsDir(t, t[od].entries[on])
    requires !Bound(t, nd, nn) && nn != "" && !Dots(nn) && t[od].nlink > 0
    requires t[od].entries[on] != od && t[od].entries[on] != nd
    ensures Moved(t, DirMoved(t, od, on, nd, nn), od, on, nd, nn, t[od].entries[on])
  {
  }

  lemma MovedLinks(t: Nodes, od: nat, on: Name, nd: nat, nn: Name)
    requires IsDir(t, od) && IsDir(t, nd) && Bound(t, od, on) && IsDir(t, t[od].entries[on])
    requires !Bound(t, nd, nn) && t[od].nlink > 0
    requires t[od].entries[on] != od && t[od].entries[on] != nd
    ensures var u := DirMoved(t, od, on, nd, nn);
            && u.Keys == t.Keys
            && (forall x | IsDir(t, x) ::
                  u[x].nlink == t[x].nlink + (if x == nd then 1 else 0) - (if x == od then 1 else 0))
            && (forall x | x in t && !IsDir(t, x) :: u[x] == t[x])
  {
  }

  lemma MovedShaped(t: Nodes, u: Nodes, root: nat, od: nat, on: Name, nd: nat, nn: Name, c: nat)
    requires Shaped(t, root) && Moved(t, u, od, on, nd, nn, c) && c != root && IsDir(t, c)
    requires NodesShaped(u) && BoundOnce(u, root)
    requires forall x {:trigger Rooted(u, root, x)} | IsDir(u, x) :: Rooted(u, root, x)
    requires forall x | IsDir(t, x) && x != c :: Parent(u, x) == Parent(t, x)
    ensures Shaped(u, root)
  {
    hide BoundOnce, Rooted, NodeShaped;
  }

  lemma NotAbove(t: Nodes, nd: nat, c: nat)
    requires !Under(t, nd, c)
    ensures nd != c
  {
    assert Up(t, nd, 0) == nd;
  }

  lemma LinksPositive(t: Nodes, root: nat, d: nat, c: nat)
    requires Tree(t, root) && IsDir(t, d)
    ensures t[d].nlink >= 2
  {
    hide Shaped;
  }

  lemma MovedParents(t: Nodes, u: Nodes, root: nat, od: nat, on: Name, nd: nat, nn: Name, c: nat)
    requires Shaped(t, root) && Moved(t, u, od, on, nd, nn, c) && IsDir(t, c)
    ensures Parent(u, c) == nd
    ensures forall x | IsDir(t, x) && x != c :: Parent(u, x) == Parent(t, x)
  {
    hide BoundOnce, Rooted, NodeShaped;
    forall x | IsDir(t, x) && x != c
      ensures Parent(u, x) == Parent(t, x)
    {
      assert Entries(u, x) == u[x].entries && Entries(t, x) == t[x].entries;
    }
    assert Entries(u, c) == u[c].entries;
  }

  lemma NodesShapedMoves(t: Nodes, u: Nodes, root: nat, od: nat, on: Name, nd: nat, nn: Name, c: nat)
    requires Shaped(t, root) && Moved(t, u, od, on, nd, nn, c) && IsDir(t, c) && IsDir(t, nd) && IsDir(t, od)
    requires Parent(u, c) == nd && forall x | IsDir(t, x) && x != c :: Parent(u, x) == Parent(t, x)
    ensures NodesShaped(u)
  {
    hide BoundOnce, Rooted;
    forall x | x in u
      ensures NodeShaped(u, x)
    {
      assert NodeShaped(t, x);
      assert Entries(u, x) == u[x].entries && Entries(t, x) == t[x].entries;
      assert IsDir(u, x) == IsDir(t, x);
    }
  }

  lemma BoundOnceMoves(t: Nodes, u: Nodes, root: nat, od: nat, on: Name, nd: nat, nn: Name, c: nat)
    requires Shaped(t, root) && Moved(t, u, od, on, nd, nn, c) && IsDir(t, c) && c != root
    requires Parent(u, c) == nd && forall x | IsDir(t, x) && x != c :: Parent(u, x) == Parent(t, x)
    ensures BoundOnce(u, root)
  {
    hide Rooted, NodeShaped;
    forall e, m | Bound(u, e, m) && !Dots(m)
      ensures if e == nd && m == nn then u[e].entries[m] == c
              else Bound(t, e, m) && u[e].entries[m] == t[e].entries[m] != c
    {
      MovedBinding(t, u, root, od, on, nd, nn, c, e, m);
    }
    forall x | IsDir(u, x) && x != root
      ensures HasName(u, Parent(u, x), x)
    {
      MovedHasName(t, u, root, od, on, nd, nn, c, x);
    }
    assert forall x | IsDir(u, x) :: IsDir(t, x);
    hide Moved, Parent, HasName, BoundOnce;
    BoundOnceWith(t, u, root, nd, nn, c);
  }

  /** The bindings after the move: the new one, and the old ones of other inodes. */
  lemma MovedBinding(t: Nodes, u: Nodes, root: nat, od: nat, on: Name, nd: nat, nn: Name, c: nat, e: nat, m: Name)
    requires Shaped(t, root) && Moved(t, u, od, on, nd, nn, c) && IsDir(t, c) && Bound(u, e, m) && !Dots(m)
    ensures if e == nd && m == nn then u[e].entries[m] == c
            else Bound(t, e, m) && u[e].entries[m] == t[e].entries[m] != c
  {
    hide Rooted, NodeShaped;
    assert u[e].entries == Entries(u, e) && e in t && t[e].entries == Entries(t, e);
    assert Bound(t, od, on) && t[od].entries[on] == c;
  }

  lemma MovedHasName(t: Nodes, u: Nodes, root: nat, od: nat, on: Name, nd: nat, nn: Name, c: nat, x: nat)
    requires Shaped(t, root) && Moved(t, u, od, on, nd, nn, c) && IsDir(t, x) && x != root
    requires Parent(u, x) == if x == c then nd else Parent(t, x)
    ensures HasName(u, Parent(u, x), x)
  {
    hide Rooted, NodeShaped;
    if x == c {
      assert nn in Entries(u, nd) && Entries(u, nd)[nn] == c;
    } else {
      assert HasName(t, Parent(t, x), x);
      var m :| Bound(t, Parent(t, x), m) && !Dots(m) && t[Parent(t, x)].entries[m] == x;
      assert m in Entries(t, Parent(t, x)) && Entries(u, Parent(t, x))[m] == x;
    }
  }

  /** Every walk up still ends at the root: above c it continues at nd, whose own walk never
      meets c. */
  lemma RootedMoves(t: Nodes, u: Nodes, root: nat, nd: nat, c: nat)
    requires Shaped(t, root) && IsDir(t, nd) && c != root && !Under(t, nd, c)
    requires forall x :: IsDir(u, x) == IsDir(t, x)
    requires Parent(u, c) == nd && forall x | IsDir(t, x) && x != c :: Parent(u, x) == Parent(t, x)
    ensures forall x {:trigger Rooted(u, root, x)} | IsDir(u, x) :: Rooted(u, root, x)
  {
    hide BoundOnce, NodeShaped;
    assert Rooted(t, root, nd);
    var k: nat :| Up(t, nd, k) == root;
    forall m: nat | m < k
      ensures Parent(u, Up(t, nd, m)) == Parent(t, Up(t, nd, m))
    {
      UpDirs(t, root, nd, m);
    }
    UpSame(t, u, nd, k);
    assert Up(u, c, k + 1) == root;
    forall x | IsDir(u, x)
      ensures Rooted(u, root, x)
    {
      assert Rooted(t, root, x);
      var n: nat :| Up(t, x, n) == root;
      RootedAfterMove(t, u, root, nd, c, x, n);
    }
  }

  /** The converse of DirMovedTree: a directory moved below itself leaves no tree, since the walk
      up from it comes back to it and never meets the root. */
  lemma DirMovedCycle(t: Nodes, root: nat, od: nat, on: Name, nd: nat, nn: Name)
    requires Tree(t, root) && Bound(t, od, on) && !Dots(on) && IsDir(t, t[od].entries[on])
    requires IsDir(t, nd) && !Bound(t, nd, nn) && nn != ""
    requires nd != t[od].entries[on] && Under(t, nd, t[od].entries[on])
    ensures t[od].nlink > 0 && !Tree(DirMoved(t, od, on, nd, nn), root)
  {
    hide Shaped, Names, SubDirs, Moved, Parent;
    var c := t[od].entries[on];
    BoundMeansDir(t, root, od, on);
    ChildOf(t, root, od, on);
    DotsBound(t, root, nd);
    LinksPositive(t, root, od, c);
    var u := DirMoved(t, od, on, nd, nn);
    MovedIs(t, od, on, nd, nn);
    MovedParents(t, u, root, od, on, nd, nn, c);
    var m := FirstMeeting(t, nd, c);
    forall i: nat | i < m
      ensures Parent(u, Up(t, nd, i)) == Parent(t, Up(t, nd, i))
    {
      UpDirs(t, root, nd, i);
    }
    UpSame(t, u, nd, m);
    assert Up(u, c, m + 1) == Up(u, nd, m) == c;
    NoTreeAround(u, root, c, m + 1);
  }

  lemma NoTreeAround(t: Nodes, root: nat, c: nat, m: nat)
    requires IsDir(t, c) && c != root && m > 0 && Up(t, c, m) == c
    ensures !Tree(t, root)
  {
    hide BoundOnce, Counted;
    if Parent(t, root) == root {
      CycleNotRooted(t, root, c, m);
      assert !Rooted(t, root, c);
    }
  }

  /** The first time a walk up meets a. */
  lemma FirstMeeting(t: Nodes, d: nat, a: nat) returns (m: nat)
    requires Under(t, d, a)
    ensures Up(t, d, m) == a && forall i: nat | i < m :: Up(t, d, i) != a
  {
    var n: nat :| Up(t, d, n) == a;
    m := 0;
    while Up(t, d, m) != a
      invariant m <= n && forall i: nat | i < m :: Up(t, d, i) != a
      decreases n - m
    {
      m := m + 1;
    }
  }

  lemma {:induction false} AroundCycle(t: Nodes, c: nat, m: nat, k: nat)
    requires Up(t, c, m) == c
    ensures Up(t, c, k * m) == c
    decreases k
  {
    if k > 0 {
      AroundCycle(t, c, m, k - 1);
      assert k * m == (k - 1) * m + m;
      UpAdd(t, c, (k - 1) * m, m);
    }
  }

  /** A walk that comes back never ends anywhere else. */
  lemma CycleNotRooted(t: Nodes, root: nat, c: nat, m: nat)
    requires Parent(t, root) == root && c != root && m > 0 && Up(t, c, m) == c
    ensures !Under(t, c, root)
  {
    forall n: nat
      ensures Up(t, c, n) != root
    {
      AroundCycle(t, c, m, n);
      Growing(n, m);
      UpAdd(t, c, n, n * m - n);
      if Up(t, c, n) == root {
        UpFixed(t, root, n * m - n);
      }
    }
  }

  lemma Growing(n: nat, m: nat)
    requires m > 0
    ensures n * m >= n
  {
  }

  lemma {:induction false} RootedAfterMove(t: Nodes, u: Nodes, root: nat, nd: nat, c: nat, x: nat, n: nat)
    requires Shaped(t, root) && IsDir(t, x) && Up(t, x, n) == root && Rooted(u, root, c)
    requires forall y | IsDir(t, y) && y != c :: Parent(u, y) == Parent(t, y)
    ensures Rooted(u, root, x)
    decreases n
  {
    hide BoundOnce;
    if x != c {
      if n == 0 {
        assert Up(u, x, 0) == root;
      } else {
        DotsBound(t, root, x);
        RootedAfterMove(t, u, root, nd, c, Parent(t, x), n - 1);
        var k: nat :| Up(u, Parent(t, x), k) == root;
        assert Up(u, x, k + 1) == root;
      }
    }
  }

  lemma SubDirsMoved(t: Nodes, u: Nodes, root: nat, od: nat, nd: nat, c: nat, x: nat)
    requires IsDir(t, c) && c != root && Parent(t, c) == od
    requires forall y :: IsDir(u, y) == IsDir(t, y)
    requires Parent(u, c) == nd && forall y | IsDir(t, y) && y != c :: Parent(u, y) == Parent(t, y)
    ensures od == nd ==> SubDirs(u, root, x) == SubDirs(t, root, x)
    ensures od != nd && x == od ==> |SubDirs(t, root, x)| == |SubDirs(u, root, x)| + 1
    ensures od != nd && x == nd ==> |SubDirs(u, root, x)| == |SubDirs(t, root, x)| + 1
    ensures x != od && x != nd ==> SubDirs(u, root, x) == SubDirs(t, root, x)
  {
    hide SubDirs;
    forall y
      ensures y in SubDirs(u, root, x) <==> (if y == c then x == nd else y in SubDirs(t, root, x))
    {
      InSubDirs(t, root, x, y);
      InSubDirs(u, root, x, y);
    }
    InSubDirs(t, root, x, c);
    if od != nd && x == od {
      assert SubDirs(t, root, x) == SubDirs(u, root, x) + {c};
    } else if od != nd && x == nd {
      assert SubDirs(u, root, x) == SubDirs(t, root, x) + {c};
    }
  }

  lemma NamesMoved(t: Nodes, u: Nodes, od: nat, on: Name, nd: nat, nn: Name, c: nat, f: nat)
    requires Moved(t, u, od, on, nd, nn, c) && f != c
    ensures Names(u, f) == Names(t, f)
  {
    hide Names, Entries;
    forall p: (nat, Name)
      ensures p in Names(u, f) <==> p in Names(t, f)
    {
      InNames(t, f, p.0, p.1);
      InNames(u, f, p.0, p.1);
      assert p == (p.0, p.1);
    }
  }
}
