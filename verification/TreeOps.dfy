/** What the operations of namei.c do to the directory tree, and that each keeps it a tree. */
module TreeOps {
  import opened DirTree

  // ----- parts of the invariant that follow from the same part before

  ghost predicate NodesShaped(t: Nodes) {
    forall d {:trigger NodeShaped(t, d)} | d in t :: NodeShaped(t, d)
  }

  /** Same directories with the same parents: the walks up and the subdirectories agree. */
  ghost predicate SameParents(t: Nodes, u: Nodes) {
    && (forall d :: IsDir(u, d) == IsDir(t, d))
    && (forall d | IsDir(t, d) :: Parent(u, d) == Parent(t, d))
  }

  lemma RootedSame(t: Nodes, u: Nodes, root: nat)
    requires Shaped(t, root) && SameParents(t, u)
    ensures forall d {:trigger Rooted(u, root, d)} | IsDir(u, d) :: Rooted(u, root, d)
  {
    hide BoundOnce;
    forall d | IsDir(u, d)
      ensures Rooted(u, root, d)
    {
      assert Rooted(t, root, d);
      var n: nat :| Up(t, d, n) == root;
      forall m: nat | m < n
        ensures Parent(u, Up(t, d, m)) == Parent(t, Up(t, d, m))
      {
        UpDirs(t, root, d, m);
      }
      UpSame(t, u, d, n);
    }
  }

  lemma SubDirsSame(t: Nodes, u: Nodes, root: nat, d: nat)
    requires SameParents(t, u)
    ensures SubDirs(u, root, d) == SubDirs(t, root, d)
  {
    forall c
      ensures c in SubDirs(u, root, d) <==> c in SubDirs(t, root, d)
    {
      assert IsDir(u, c) == IsDir(t, c);
    }
  }

  // ----- files

  function FileAdded(t: Nodes, d: nat, name: Name, f: nat, n: Node): Nodes
    requires d in t
  {
    WithEntry(t, d, name, f)[f := n]
  }

  lemma FileAddedEntries(t: Nodes, d: nat, name: Name, f: nat, n: Node)
    requires d in t && f != d && Entries(t, f) == map[] && n.entries == map[]
    ensures EntriesOnlyAt(t, FileAdded(t, d, name, f, n), d)
    ensures Entries(FileAdded(t, d, name, f, n), d) == Entries(t, d)[name := f]
  {
  }

  /** A name that was free now binds a file: create and link. */
  lemma FileAddedTree(t: Nodes, root: nat, d: nat, name: Name, f: nat, n: Node)
    requires Tree(t, root) && IsDir(t, d) && !Bound(t, d, name) && name != "" && !IsDir(t, f)
    requires !n.isDir && n.entries == map[] && n.nlink == (if f in t then t[f].nlink else 0) + 1
    ensures Tree(FileAdded(t, d, name, f, n), root)
  {
    hide Shaped, Names, SubDirs, FileAdded, EntriesOnlyAt, SameParents;
    var u := FileAdded(t, d, name, f, n);
    OrdinaryName(t, root, d, name);
    FileHasNoEntries(t, root, f);
    FileAddedShaped(t, root, d, name, f, n);
    FileAddedEntries(t, d, name, f, n);
    FileAddedNodes(t, d, name, f, n);
    forall x | IsDir(u, x)
      ensures u[x].nlink == 2 + |SubDirs(u, root, x)|
    {
      SubDirsSame(t, u, root, x);
    }
    forall x | x in u && !u[x].isDir
      ensures u[x].nlink == |Names(u, x)| && u[x].nlink > 0
    {
      NamesAdded(t, u, d, name, f, x);
      if f !in t && x == f {
        NoNames(t, root, f);
      }
    }
  }

  /** A name a directory does not bind is neither "." nor "..". */
  lemma OrdinaryName(t: Nodes, root: nat, d: nat, name: Name)
    requires Shaped(t, root) && IsDir(t, d) && !Bound(t, d, name)
    ensures !Dots(name) && name !in Entries(t, d)
  {
    hide BoundOnce, Rooted;
    assert NodeShaped(t, d);
  }

  lemma FileAddedNodes(t: Nodes, d: nat, name: Name, f: nat, n: Node)
    requires IsDir(t, d) && !Bound(t, d, name) && !Dots(name) && !IsDir(t, f) && Entries(t, f) == map[] && !n.isDir && n.entries == map[]
    ensures var u := FileAdded(t, d, name, f, n);
            && SameParents(t, u) && u.Keys == t.Keys + {f} && u[f] == n
            && forall x | x in t && x != f :: u[x].nlink == t[x].nlink && u[x].isDir == t[x].isDir
  {
  }

  lemma NoNames(t: Nodes, root: nat, f: nat)
    requires Shaped(t, root) && f !in t
    ensures Names(t, f) == {}
  {
    hide BoundOnce;
    forall d, name | d in t && name in t[d].entries
      ensures t[d].entries[name] != f
    {
      assert NodeShaped(t, d);
    }
  }

  /** Only the names of d differ. */
  ghost predicate EntriesOnlyAt(t: Nodes, u: Nodes, d: nat) {
    forall e :: e != d ==> Entries(u, e) == Entries(t, e)
  }

  lemma InNames(t: Nodes, x: nat, e: nat, m: Name)
    ensures (e, m) in Names(t, x) <==> m in Entries(t, e) && !Dots(m) && Entries(t, e)[m] == x
  {
  }

  lemma NamesAdded(t: Nodes, u: Nodes, d: nat, name: Name, f: nat, x: nat)
    requires name !in Entries(t, d) && !Dots(name)
    requires EntriesOnlyAt(t, u, d) && Entries(u, d) == Entries(t, d)[name := f]
    ensures Names(u, x) == if x == f then Names(t, x) + {(d, name)} else Names(t, x)
    ensures x == f ==> |Names(u, x)| == |Names(t, x)| + 1
  {
    hide Names, Entries;
    InNames(t, x, d, name);
    forall p: (nat, Name)
      ensures p in Names(u, x) <==> p in Names(t, x) || (x == f && p == (d, name))
    {
      InNames(t, x, p.0, p.1);
      InNames(u, x, p.0, p.1);
      assert p == (p.0, p.1);
    }
  }

  lemma NamesRemoved(t: Nodes, u: Nodes, d: nat, name: Name, x: nat)
    requires name in Entries(t, d) && !Dots(name)
    requires EntriesOnlyAt(t, u, d) && Entries(u, d) == Entries(t, d) - {name}
    ensures Names(u, x) == if x == Entries(t, d)[name] then Names(t, x) - {(d, name)} else Names(t, x)
    ensures x == Entries(t, d)[name] ==> (d, name) in Names(t, x) && |Names(t, x)| == |Names(u, x)| + 1
  {
    hide EntriesOnlyAt;
    assert EntriesOnlyAt(u, t, d) by { OnlyAtBack(t, u, d); }
    assert Entries(t, d) == Entries(u, d)[name := Entries(t, d)[name]];
    NamesAdded(u, t, d, name, Entries(t, d)[name], x);
    InNames(u, x, d, name);
  }

  lemma OnlyAtBack(t: Nodes, u: Nodes, d: nat)
    requires EntriesOnlyAt(t, u, d)
    ensures EntriesOnlyAt(u, t, d)
  {
  }

  lemma FileAddedShaped(t: Nodes, root: nat, d: nat, name: Name, f: nat, n: Node)
    requires Shaped(t, root) && IsDir(t, d) && !Bound(t, d, name) && name != "" && !Dots(name) && !IsDir(t, f)
    requires !n.isDir && n.entries == map[]
    ensures Shaped(FileAdded(t, d, name, f, n), root)
  {
    hide BoundOnce, Rooted, NodeShaped;
    var u := FileAdded(t, d, name, f, n);
    FileHasNoEntries(t, root, f);
    FileAddedEntries(t, d, name, f, n);
    assert SameParents(t, u);
    NodesShapedAddsFile(t, u, root, d, name, f);
    BoundOnceAddsFile(t, u, root, d, name, f);
    RootedSame(t, u, root);
  }

  lemma FileHasNoEntries(t: Nodes, root: nat, f: nat)
    requires Shaped(t, root) && !IsDir(t, f)
    ensures Entries(t, f) == map[]
  {
    hide BoundOnce;
    if f in t {
      assert NodeShaped(t, f);
    }
  }

  lemma BoundMeansDir(t: Nodes, root: nat, d: nat, name: Name)
    requires Shaped(t, root) && Bound(t, d, name)
    ensures IsDir(t, d)
  {
    hide BoundOnce, Rooted;
    assert NodeShaped(t, d);
  }

  lemma NodesShapedAddsFile(t: Nodes, u: Nodes, root: nat, d: nat, name: Name, f: nat)
    requires Shaped(t, root) && SameParents(t, u) && IsDir(t, d) && !IsDir(t, f)
    requires name !in Entries(t, d) && name != "" && u.Keys == t.Keys + {f} && Entries(u, f) == map[]
    requires EntriesOnlyAt(t, u, d) && Entries(u, d) == Entries(t, d)[name := f]
    ensures NodesShaped(u)
  {
    hide BoundOnce, Rooted;
    forall x | x in u
      ensures NodeShaped(u, x)
    {
      assert Entries(u, x) == u[x].entries;
      assert IsDir(u, x) == IsDir(t, x);
      if x in t {
        assert NodeShaped(t, x);
        assert Entries(t, x) == t[x].entries;
      }
    }
  }

  lemma BoundOnceAddsFile(t: Nodes, u: Nodes, root: nat, d: nat, name: Name, f: nat)
    requires BoundOnce(t, root) && SameParents(t, u) && IsDir(t, d) && !IsDir(t, f)
    requires name !in Entries(t, d)
    requires EntriesOnlyAt(t, u, d) && Entries(u, d) == Entries(t, d)[name := f]
    ensures BoundOnce(u, root)
  {
    forall e, m | Bound(u, e, m)
      ensures Bound(t, e, m) || (e == d && m == name)
      ensures Bound(t, e, m) ==> u[e].entries[m] == t[e].entries[m]
    {
      assert u[e].entries == Entries(u, e);
    }
    forall c | IsDir(u, c) && c != root
      ensures HasName(u, Parent(u, c), c)
    {
      assert HasName(t, Parent(t, c), c);
      NameStays(t, u, Parent(t, c), c, d, name, f);
    }
  }

  lemma NameStays(t: Nodes, u: Nodes, p: nat, c: nat, d: nat, name: Name, f: nat)
    requires HasName(t, p, c) && name !in Entries(t, d)
    requires EntriesOnlyAt(t, u, d) && Entries(u, d) == Entries(t, d)[name := f]
    ensures HasName(u, p, c)
  {
    var m :| Bound(t, p, m) && !Dots(m) && t[p].entries[m] == c;
    assert m in Entries(t, p) && Entries(u, p)[m] == c;
  }

  function FileRemoved(t: Nodes, d: nat, name: Name): Nodes
    requires Bound(t, d, name) && t[d].entries[name] in t && t[t[d].entries[name]].nlink > 0
  {
    var f := t[d].entries[name];
    Unlinked(WithoutEntry(t, d, name), f)
  }

  /** A name of a file goes: unlink, and a file replaced by rename. */
  lemma FileRemovedTree(t: Nodes, root: nat, d: nat, name: Name)
    requires Tree(t, root) && Bound(t, d, name) && !Dots(name)
    requires t[d].entries[name] in t && !IsDir(t, t[d].entries[name])
    ensures t[t[d].entries[name]].nlink > 0 && Tree(FileRemoved(t, d, name), root)
  {
    hide Shaped, Names, SubDirs, BoundOnce, NodeShaped;
    var f := t[d].entries[name];
    var u := FileRemoved(t, d, name);
    FileHasNoEntries(t, root, f);
    BoundMeansDir(t, root, d, name);
    FileRemovedEntries(t, d, name);
    NamesRemoved(t, u, d, name, f);
    if f !in u {
      OnlyName(t, d, name, f);
    }
    FileRemovedShaped(t, u, root, d, name, f);
    forall x | IsDir(u, x)
      ensures u[x].nlink == 2 + |SubDirs(u, root, x)|
    {
      SubDirsSame(t, u, root, x);
    }
    forall x | x in u && !u[x].isDir
      ensures u[x].nlink == |Names(u, x)| && u[x].nlink > 0
    {
      NamesRemoved(t, u, d, name, x);
    }
  }

  lemma FileRemovedEntries(t: Nodes, d: nat, name: Name)
    requires Bound(t, d, name) && IsDir(t, d) && t[d].entries[name] in t && !IsDir(t, t[d].entries[name])
    requires t[t[d].entries[name]].nlink > 0 && Entries(t, t[d].entries[name]) == map[]
    ensures var u := FileRemoved(t, d, name);
            && EntriesOnlyAt(t, u, d) && Entries(u, d) == Entries(t, d) - {name} && SameParentsBut(t, u, name)
            && (forall x | IsDir(t, x) :: u[x].nlink == t[x].nlink)
  {
  }

  /** Same directories, and the same parents unless the name is "..". */
  ghost predicate SameParentsBut(t: Nodes, u: Nodes, name: Name) {
    && (forall d :: IsDir(u, d) == IsDir(t, d))
    && (!Dots(name) ==> SameParents(t, u))
  }

  /** A file with one link has one name. */
  lemma OnlyName(t: Nodes, d: nat, name: Name, f: nat)
    requires (d, name) in Names(t, f) && |Names(t, f)| == 1
    ensures Names(t, f) == {(d, name)}
  {
    var rest := Names(t, f) - {(d, name)};
    assert |rest| == 0;
  }

  lemma FileRemovedShaped(t: Nodes, u: Nodes, root: nat, d: nat, name: Name, f: nat)
    requires Shaped(t, root) && SameParents(t, u) && IsDir(t, d) && !IsDir(t, f) && !Dots(name)
    requires name in Entries(t, d) && Entries(t, d)[name] == f && Entries(t, f) == map[]
    requires u.Keys == t.Keys || u.Keys == t.Keys - {f}
    requires EntriesOnlyAt(t, u, d) && Entries(u, d) == Entries(t, d) - {name}
    requires f !in u ==> Names(t, f) == {(d, name)}
    ensures Shaped(u, root)
  {
    hide BoundOnce, Rooted;
    forall x | x in u
      ensures NodeShaped(u, x)
    {
      NodeShapedRemoves(t, u, root, d, name, f, x);
    }
    BoundOnceRemoves(t, u, root, d, name);
    RootedSame(t, u, root);
  }

  lemma NodeShapedRemoves(t: Nodes, u: Nodes, root: nat, d: nat, name: Name, f: nat, x: nat)
    requires Shaped(t, root) && SameParents(t, u) && IsDir(t, d) && !IsDir(t, f) && !Dots(name)
    requires name in Entries(t, d) && Entries(t, d)[name] == f && x in u
    requires u.Keys == t.Keys || u.Keys == t.Keys - {f}
    requires EntriesOnlyAt(t, u, d) && Entries(u, d) == Entries(t, d) - {name}
    requires f !in u ==> Names(t, f) == {(d, name)}
    ensures NodeShaped(u, x)
  {
    hide BoundOnce, Rooted, Names;
    assert NodeShaped(t, x);
    assert Entries(u, x) == u[x].entries && Entries(t, x) == t[x].entries;
    assert IsDir(u, x) == IsDir(t, x);
    if IsDir(t, x) {
      assert IsDir(u, Parent(t, x)) == IsDir(t, Parent(t, x));
      forall m | m in u[x].entries
        ensures u[x].entries[m] in u && m != ""
      {
        assert m in Entries(t, x) && u[x].entries[m] == Entries(t, x)[m] && Entries(t, x)[m] in t;
        assert x == d ==> m != name;
        var v := Entries(t, x)[m];
        if m == ".." {
          assert v == Parent(t, x);
        } else if m == "." {
          assert v == x;
        } else {
          InNames(t, f, x, m);
          assert f !in u ==> v != f;
        }
        assert v in t.Keys;
      }
    }
  }

  /** Removing a name of a file, or one of several bindings, keeps the others. */
  lemma BoundOnceRemoves(t: Nodes, u: Nodes, root: nat, d: nat, name: Name)
    requires BoundOnce(t, root) && SameParents(t, u)
    requires name in Entries(t, d) && !IsDir(t, Entries(t, d)[name])
    requires EntriesOnlyAt(t, u, d) && Entries(u, d) == Entries(t, d) - {name}
    ensures BoundOnce(u, root)
  {
    forall e, m | Bound(u, e, m)
      ensures Bound(t, e, m) && u[e].entries[m] == t[e].entries[m]
    {
      assert u[e].entries == Entries(u, e);
      assert m in Entries(t, e);
    }
    forall c | IsDir(u, c) && c != root
      ensures HasName(u, Parent(u, c), c)
    {
      assert IsDir(t, c) && HasName(t, Parent(t, c), c);
      var m :| Bound(t, Parent(t, c), m) && !Dots(m) && t[Parent(t, c)].entries[m] == c;
      assert m in Entries(t, Parent(t, c)) && Entries(u, Parent(t, c))[m] == c;
    }
  }

  /** A file moves: the new name is added before the old one goes. */
  function FileMoved(t: Nodes, od: nat, on: Name, nd: nat, nn: Name): Nodes
    requires Bound(t, od, on) && nd in t && !Bound(t, nd, nn) && t[od].entries[on] in t
    requires od != t[od].entries[on] && nd != t[od].entries[on]
  {
    WithoutEntry(WithEntry(t, nd, nn, t[od].entries[on]), od, on)
  }

  lemma FileMovedTree(t: Nodes, root: nat, od: nat, on: Name, nd: nat, nn: Name)
    requires Tree(t, root) && Bound(t, od, on) && IsDir(t, od) && IsDir(t, nd) && !Bound(t, nd, nn)
    requires nn != "" && !Dots(on) && t[od].entries[on] in t && !IsDir(t, t[od].entries[on])
    ensures Tree(FileMoved(t, od, on, nd, nn), root)
  {
    hide Tree;
    var f := t[od].entries[on];
    assert t[f].entries == map[] && t[f].nlink > 0 by { FileFacts(t, root, f); }
    var n := t[f].(nlink := t[f].nlink + 1);
    FileAddedTree(t, root, nd, nn, f, n);
    var u := FileAdded(t, nd, nn, f, n);
    FileRemovedTree(u, root, od, on);
    assert FileRemoved(u, od, on) == FileMoved(t, od, on, nd, nn);
  }

  lemma FileFacts(t: Nodes, root: nat, f: nat)
    requires Tree(t, root) && f in t && !t[f].isDir
    ensures t[f].entries == map[] && t[f].nlink > 0
  {
    hide BoundOnce;
    assert NodeShaped(t, f);
  }
}
