/** The directory tree as names bound to inodes, with the link counts namei.c keeps, and the
    invariant that it is a tree. */
module DirTree {

  type Name = string

  /** An inode as namei.c sees it. A directory binds "." and ".." like any other name. */
  datatype Node = Node(isDir: bool, nlink: nat, entries: map<Name, nat>, frozen: bool)

  type Nodes = map<nat, Node>

  predicate Dots(name: Name) {
    name == "." || name == ".."
  }

  predicate IsDir(t: Nodes, d: nat) {
    d in t && t[d].isDir
  }

  predicate Bound(t: Nodes, d: nat, name: Name) {
    d in t && name in t[d].entries
  }

  /** The names an inode binds; none for an inode that is not there. */
  function Entries(t: Nodes, d: nat): map<Name, nat> {
    if d in t then t[d].entries else map[]
  }

  /** What ".." of a directory names. */
  function Parent(t: Nodes, d: nat): nat {
    if Bound(t, d, "..") then t[d].entries[".."] else d
  }

  /** The directory n steps of ".." up. */
  function Up(t: Nodes, d: nat, n: nat): nat
    decreases n
  {
    if n == 0 then d else Up(t, Parent(t, d), n - 1)
  }

  /** Walking up from d meets a: d is a or lies below it. */
  ghost predicate Under(t: Nodes, d: nat, a: nat) {
    exists n: nat :: Up(t, d, n) == a
  }

  ghost predicate Rooted(t: Nodes, root: nat, d: nat) {
    Under(t, d, root)
  }

  predicate Empty(t: Nodes, d: nat) {
    d in t && t[d].entries.Keys <= {".", ".."}
  }

  ghost function SubDirs(t: Nodes, root: nat, d: nat): set<nat> {
    set c | c in t && t[c].isDir && c != root && Parent(t, c) == d
  }

  /** Every place a file is bound. */
  ghost function Names(t: Nodes, f: nat): set<(nat, Name)> {
    set d, name | d in t && name in t[d].entries && !Dots(name) && t[d].entries[name] == f :: (d, name)
  }

  /** "." names the directory itself, ".." a directory, other names inodes; files bind nothing. */
  ghost predicate NodeShaped(t: Nodes, d: nat)
    requires d in t
  {
    if t[d].isDir then
      && Bound(t, d, ".") && Bound(t, d, "..") && t[d].entries["."] == d && IsDir(t, Parent(t, d))
      && forall name | name in t[d].entries :: t[d].entries[name] in t && name != ""
    else t[d].entries == map[]
  }

  /** A directory is bound once, in its parent. */
  ghost predicate BoundOnce(t: Nodes, root: nat) {
    && (forall d, name | Bound(t, d, name) && !Dots(name) && IsDir(t, t[d].entries[name]) ::
          t[d].entries[name] != root && Parent(t, t[d].entries[name]) == d)
    && (forall d, m, n | Bound(t, d, m) && Bound(t, d, n) && !Dots(m) && !Dots(n) &&
                         t[d].entries[m] == t[d].entries[n] && IsDir(t, t[d].entries[m]) :: m == n)
    && (forall c {:trigger HasName(t, Parent(t, c), c)} | IsDir(t, c) && c != root :: HasName(t, Parent(t, c), c))
  }

  ghost predicate HasName(t: Nodes, d: nat, c: nat) {
    exists name :: Bound(t, d, name) && !Dots(name) && t[d].entries[name] == c
  }

  ghost predicate Counted(t: Nodes, root: nat) {
    && (forall d | IsDir(t, d) :: t[d].nlink == 2 + |SubDirs(t, root, d)|)
    && (forall f | f in t && !t[f].isDir :: t[f].nlink == |Names(t, f)| && t[f].nlink > 0)
  }

  ghost predicate Shaped(t: Nodes, root: nat) {
    && IsDir(t, root) && Parent(t, root) == root
    && (forall d {:trigger NodeShaped(t, d)} | d in t :: NodeShaped(t, d))
    && BoundOnce(t, root)
    && (forall d {:trigger Rooted(t, root, d)} | IsDir(t, d) :: Rooted(t, root, d))
  }

  /** The whole invariant: ".." is the parent, every chain of parents ends at the root, a
      directory's link count is 2 plus its subdirectories, a file's the number of its names. */
  ghost predicate Tree(t: Nodes, root: nat) {
    Shaped(t, root) && Counted(t, root)
  }

  // ----- walking up

  lemma {:induction false} UpAdd(t: Nodes, d: nat, m: nat, n: nat)
    ensures Up(t, d, m + n) == Up(t, Up(t, d, m), n)
    decreases m
  {
    if m > 0 {
      UpAdd(t, Parent(t, d), m - 1, n);
    }
  }

  lemma {:induction false} UpFixed(t: Nodes, root: nat, n: nat)
    requires Parent(t, root) == root
    ensures Up(t, root, n) == root
    decreases n
  {
    if n > 0 {
      UpFixed(t, root, n - 1);
    }
  }

  lemma {:induction false} UpDirs(t: Nodes, root: nat, d: nat, n: nat)
    requires Shaped(t, root) && IsDir(t, d)
    ensures IsDir(t, Up(t, d, n))
    decreases n
  {
    hide BoundOnce, Rooted;
    if n > 0 {
      assert NodeShaped(t, d);
      UpDirs(t, root, Parent(t, d), n - 1);
    }
  }

  /** Only the root is its own parent. */
  lemma SelfParentIsRoot(t: Nodes, root: nat, d: nat)
    requires Shaped(t, root) && IsDir(t, d) && Parent(t, d) == d
    ensures d == root
  {
    assert Rooted(t, root, d);
    var n: nat :| Up(t, d, n) == root;
    UpFixed(t, d, n);
  }

  lemma {:induction false} UpTwoCycle(t: Nodes, d: nat, n: nat)
    requires Parent(t, Parent(t, d)) == d
    ensures Up(t, d, n) == d || Up(t, d, n) == Parent(t, d)
    decreases n
  {
    if n > 0 {
      UpTwoCycle(t, Parent(t, d), n - 1);
    }
  }

  /** No directory but the root is its grandparent. */
  lemma NoTwoCycle(t: Nodes, root: nat, d: nat)
    requires Shaped(t, root) && IsDir(t, d) && Parent(t, Parent(t, d)) == d
    ensures d == root
  {
    assert Rooted(t, root, d);
    var n: nat :| Up(t, d, n) == root;
    UpTwoCycle(t, d, n);
    if Up(t, d, n) == Parent(t, d) {
      assert Parent(t, d) == root;
    }
  }

  /** Parents that are the same where the walk goes give the same walk. */
  lemma {:induction false} UpSame(t: Nodes, u: Nodes, d: nat, n: nat)
    requires forall m: nat | m < n :: Parent(u, Up(t, d, m)) == Parent(t, Up(t, d, m))
    ensures Up(u, d, n) == Up(t, d, n)
    decreases n
  {
    if n > 0 {
      assert Up(t, d, 0) == d;
      forall m: nat | m < n - 1
        ensures Parent(u, Up(t, Parent(t, d), m)) == Parent(t, Up(t, Parent(t, d), m))
      {
        assert Up(t, d, m + 1) == Up(t, Parent(t, d), m);
      }
      UpSame(t, u, Parent(t, d), n - 1);
    }
  }

  /** Something below c that is not c lies below a child of c. */
  lemma {:induction false} UnderHasChild(t: Nodes, root: nat, d: nat, c: nat, n: nat)
    requires Shaped(t, root) && IsDir(t, d) && Up(t, d, n) == c && d != c && c != root
    ensures !Empty(t, c)
    decreases n
  {
    assert NodeShaped(t, d);
    hide Rooted, Names, SubDirs;
    if Parent(t, d) == c {
      assert d != root;
      assert HasName(t, c, d);
      var name :| Bound(t, c, name) && !Dots(name) && t[c].entries[name] == d;
      assert name in t[c].entries.Keys;
    } else {
      UnderHasChild(t, root, Parent(t, d), c, n - 1);
    }
  }

  // ----- one name bound or unbound

  function WithEntry(t: Nodes, d: nat, name: Name, c: nat): Nodes
    requires d in t
  {
    t[d := t[d].(entries := t[d].entries[name := c])]
  }

  function WithoutEntry(t: Nodes, d: nat, name: Name): Nodes
    requires d in t
  {
    t[d := t[d].(entries := t[d].entries - {name})]
  }

  function WithLinks(t: Nodes, x: nat, n: nat): Nodes
    requires x in t
  {
    t[x := t[x].(nlink := n)]
  }

  /** The link count goes down; at zero the inode is gone. */
  function Unlinked(t: Nodes, f: nat): Nodes
    requires f in t && t[f].nlink > 0
  {
    if t[f].nlink == 1 then t - {f} else WithLinks(t, f, t[f].nlink - 1)
  }
}
