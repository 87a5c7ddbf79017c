/** The link counts of sysfile.c: what entering a name, removing a name and freeing an inode do to
    them, on directories taken as finite maps from names, cut to 14 bytes, to inode numbers. */
module Links {
  import opened FsBlocks
  import opened Stat
  import DirContent

  type Name = seq<Byte>

  const DOT: Name := DirContent.DOT
  const DOTDOT: Name := DirContent.DOTDOT
  const ROOTINO: nat := 1

  type Dir = map<Name, nat>

  datatype Node = Node(typ: nat, nlink: int, dir: Dir)

  type Nodes = seq<Node>

  predicate IsDot(n: Name) {
    n == DOT || n == DOTDOT
  }

  /** A directory some path leads to, as opposed to one that was removed while in use. */
  predicate LinkedDir(s: Nodes, d: nat) {
    d < |s| && s[d].typ == T_DIR && s[d].nlink > 0
  }

  predicate Refers(s: Nodes, d: nat, n: Name, x: nat) {
    LinkedDir(s, d) && n in s[d].dir && n != DOT && s[d].dir[n] == x
  }

  /** The entries of linked directories that name x, "." left out. */
  ghost function Entries(s: Nodes, x: nat): set<(nat, Name)> {
    set d, n | 0 <= d < |s| && n in s[d].dir && Refers(s, d, n, x) :: (d, n)
  }

  ghost predicate CountOk(s: Nodes, x: nat)
    requires x < |s|
  {
    s[x].nlink == |Entries(s, x)|
  }

  /** Directories have "." and "..", removed ones nothing else, and other inodes no entries. */
  predicate DirOk(s: Nodes, d: nat)
    requires d < |s|
  {
    && (s[d].typ != T_DIR ==> s[d].dir == map[])
    && (s[d].typ == T_DIR ==> DOT in s[d].dir && DOTDOT in s[d].dir && s[d].dir[DOT] == d && s[d].dir[DOTDOT] < |s|)
    && (s[d].typ == T_DIR && s[d].nlink <= 0 ==> forall n | n in s[d].dir :: IsDot(n))
  }

  /** Entries name allocated inodes, and a directory's entry is its only one, in the parent its ".."
      names. home gives the name it has there. */
  ghost predicate EntryOk(s: Nodes, home: seq<Name>, d: nat, n: Name)
    requires LinkedDir(s, d) && n in s[d].dir && |home| == |s|
  {
    var x := s[d].dir[n];
    && x < |s| && s[x].typ != 0
    && (!IsDot(n) && s[x].typ == T_DIR ==> x != ROOTINO && DOTDOT in s[x].dir && s[x].dir[DOTDOT] == d && home[x] == n)
  }

  /** A linked directory hangs in a linked parent. */
  ghost predicate ParentOk(s: Nodes, home: seq<Name>, d: nat)
    requires d < |s| == |home|
  {
    LinkedDir(s, d) && d != ROOTINO ==>
      && DOTDOT in s[d].dir
      && var p := s[d].dir[DOTDOT];
         LinkedDir(s, p) && home[d] in s[p].dir && !IsDot(home[d]) && s[p].dir[home[d]] == d
  }

  ghost predicate Consistent(s: Nodes, home: seq<Name>) {
    && |home| == |s| && LinkedDir(s, ROOTINO) && s[0].typ == 0
    && (forall x | 0 <= x < |s| :: CountOk(s, x))
    && (forall d | 0 <= d < |s| :: DirOk(s, d))
    && (forall d | 0 <= d < |s| :: ParentOk(s, home, d))
    && (forall d, n | 0 <= d < |s| && LinkedDir(s, d) && n in s[d].dir :: EntryOk(s, home, d, n))
    && DOTDOT in s[ROOTINO].dir && s[ROOTINO].dir[DOTDOT] == ROOTINO
  }

  /** The link counts are right. */
  ghost predicate Counted(s: Nodes) {
    exists home :: Consistent(s, home)
  }

  lemma {:induction false} InEntries(s: Nodes, d: nat, n: Name, x: nat)
    ensures (d, n) in Entries(s, x) <==> Refers(s, d, n, x)
  {
  }

  /** An inode that is free or unlinked is named nowhere. */
  lemma {:induction false} NamedNowhere(s: Nodes, home: seq<Name>, x: nat, d: nat, n: Name)
    requires Consistent(s, home) && x < |s| && s[x].nlink == 0
    ensures !Refers(s, d, n, x)
  {
    assert CountOk(s, x);
    InEntries(s, d, n, x);
  }

  lemma {:induction false} CountPositive(s: Nodes, home: seq<Name>, d: nat, n: Name)
    requires Consistent(s, home) && LinkedDir(s, d) && n in s[d].dir && n != DOT
    ensures s[d].dir[n] < |s| && s[s[d].dir[n]].nlink >= 1
  {
    var x := s[d].dir[n];
    assert EntryOk(s, home, d, n) && CountOk(s, x);
    InEntries(s, d, n, x);
  }

  /** Entries and counts when one reference comes or goes. */
  lemma {:induction false} OneMore(s: Nodes, s': Nodes, y: nat, d: nat, n: Name)
    requires y < |s| == |s'| && CountOk(s, y) && s'[y].nlink == s[y].nlink + 1 && !Refers(s, d, n, y)
    requires forall e, m :: Refers(s', e, m, y) <==> Refers(s, e, m, y) || (e == d && m == n)
    ensures CountOk(s', y)
  {
    forall p ensures p in Entries(s', y) <==> p in Entries(s, y) || p == (d, n) {
      InEntries(s', p.0, p.1, y);
      InEntries(s, p.0, p.1, y);
    }
    assert Entries(s', y) == Entries(s, y) + {(d, n)};
  }

  lemma {:induction false} NoneMore(s: Nodes, s': Nodes, y: nat)
    requires y < |s| == |s'| && CountOk(s, y) && s'[y].nlink == s[y].nlink
    requires forall e, m :: Refers(s', e, m, y) <==> Refers(s, e, m, y)
    ensures CountOk(s', y)
  {
    forall p ensures p in Entries(s', y) <==> p in Entries(s, y) {
      InEntries(s', p.0, p.1, y);
      InEntries(s, p.0, p.1, y);
    }
    assert Entries(s', y) == Entries(s, y);
  }

  // ----- an inode is allocated -----

  /** ialloc and the entries "." and ".." of a new directory; its count is still 0. */
  function Fresh(s: Nodes, x: nat, typ: nat, dp: nat): Nodes
    requires x < |s|
  {
    s[x := Node(typ, 0, if typ == T_DIR then map[DOT := x, DOTDOT := dp] else map[])]
  }

  lemma {:induction false} FreshKeeps(s: Nodes, home: seq<Name>, x: nat, typ: nat, dp: nat)
    requires Consistent(s, home) && 0 < x < |s| && s[x].typ == 0 && s[x].nlink == 0 && typ != 0 && dp < |s|
    ensures Consistent(Fresh(s, x, typ, dp), home)
  {
    var s' := Fresh(s, x, typ, dp);
    assert forall d :: LinkedDir(s', d) <==> LinkedDir(s, d);
    assert forall d, n, y :: Refers(s', d, n, y) <==> Refers(s, d, n, y);
    forall y | 0 <= y < |s'| ensures CountOk(s', y) && DirOk(s', y) && ParentOk(s', home, y) {
      assert CountOk(s, y) && DirOk(s, y) && ParentOk(s, home, y);
      NoneMore(s, s', y);
    }
    forall d, n | 0 <= d < |s'| && LinkedDir(s', d) && n in s'[d].dir ensures EntryOk(s', home, d, n) {
      assert EntryOk(s, home, d, n);
    }
  }

  // ----- a name is entered -----

  /** x entered as n into directory d, its count raised; if x is a new directory, so is d's, for the
      ".." in x. */
  function Entered(s: Nodes, d: nat, n: Name, x: nat): Nodes
    requires d < |s| && x < |s| && d != x
  {
    var extra := if s[x].typ == T_DIR then 1 else 0;
    s[d := Node(s[d].typ, s[d].nlink + extra, s[d].dir[n := x])][x := s[x].(nlink := s[x].nlink + 1)]
  }

  /** The new inode or file x can be entered into the linked directory d under the new name n. */
  ghost predicate CanEnter(s: Nodes, d: nat, n: Name, x: nat) {
    && LinkedDir(s, d) && x < |s| && d != x && s[x].typ != 0 && n !in s[d].dir && !IsDot(n)
    && (s[x].typ == T_DIR ==> s[x].nlink == 0 && DOTDOT in s[x].dir && s[x].dir[DOTDOT] == d)
  }

  lemma {:induction false} EnteredRefers(s: Nodes, home: seq<Name>, d: nat, n: Name, x: nat, e: nat, m: Name, y: nat)
    requires Consistent(s, home) && CanEnter(s, d, n, x)
    ensures Refers(Entered(s, d, n, x), e, m, y) <==>
              || Refers(s, e, m, y) || (e == d && m == n && y == x)
              || (s[x].typ == T_DIR && e == x && m == DOTDOT && y == d)
  {
    assert DirOk(s, x);
  }

  lemma {:induction false} EnteredCounts(s: Nodes, home: seq<Name>, d: nat, n: Name, x: nat, y: nat)
    requires Consistent(s, home) && CanEnter(s, d, n, x) && y < |s|
    ensures CountOk(Entered(s, d, n, x), y)
  {
    var s' := Entered(s, d, n, x);
    assert CountOk(s, y);
    forall e, m ensures Refers(s', e, m, y) <==>
              || Refers(s, e, m, y) || (e == d && m == n && y == x)
              || (s[x].typ == T_DIR && e == x && m == DOTDOT && y == d)
    {
      EnteredRefers(s, home, d, n, x, e, m, y);
    }
    if y == x {
      OneMore(s, s', y, d, n);
    } else if y == d && s[x].typ == T_DIR {
      OneMore(s, s', y, x, DOTDOT);
    } else {
      NoneMore(s, s', y);
    }
  }

  lemma {:induction false} EnteredEntry(s: Nodes, home: seq<Name>, d: nat, n: Name, x: nat, e: nat, m: Name)
    requires Consistent(s, home) && CanEnter(s, d, n, x)
    requires var s' := Entered(s, d, n, x); LinkedDir(s', e) && m in s'[e].dir
    ensures EntryOk(Entered(s, d, n, x), home[x := n], e, m)
  {
    assert DirOk(s, x);
    if e != x && (e != d || m != n) {
      assert EntryOk(s, home, e, m);
      if s[x].typ == T_DIR { NamedNowhere(s, home, x, e, m); }
    }
  }

  lemma {:induction false} EnteredDir(s: Nodes, home: seq<Name>, d: nat, n: Name, x: nat, y: nat)
    requires Consistent(s, home) && CanEnter(s, d, n, x) && y < |s|
    ensures DirOk(Entered(s, d, n, x), y) && ParentOk(Entered(s, d, n, x), home[x := n], y)
  {
    assert DirOk(s, x) && DirOk(s, y) && ParentOk(s, home, y);
  }

  lemma {:induction false} EnteredKeeps(s: Nodes, home: seq<Name>, d: nat, n: Name, x: nat)
    requires Consistent(s, home) && CanEnter(s, d, n, x)
    ensures Consistent(Entered(s, d, n, x), home[x := n])
  {
    var s', home' := Entered(s, d, n, x), home[x := n];
    forall y | 0 <= y < |s'| ensures CountOk(s', y) && DirOk(s', y) && ParentOk(s', home', y) {
      EnteredCounts(s, home, d, n, x, y);
      EnteredDir(s, home, d, n, x, y);
    }
    forall e, m | 0 <= e < |s'| && LinkedDir(s', e) && m in s'[e].dir ensures EntryOk(s', home', e, m) {
      EnteredEntry(s, home, d, n, x, e, m);
    }
    assert DirOk(s, ROOTINO);
  }

  // ----- a name is removed -----

  /** n removed from directory d, the count of what it named lowered; if that was a directory, so is
      d's, for the ".." in it. */
  function Removed(s: Nodes, d: nat, n: Name): Nodes
    requires d < |s| && n in s[d].dir && s[d].dir[n] < |s| && s[d].dir[n] != d
  {
    var x := s[d].dir[n];
    var fewer := if s[x].typ == T_DIR then 1 else 0;
    s[d := Node(s[d].typ, s[d].nlink - fewer, s[d].dir - {n})][x := s[x].(nlink := s[x].nlink - 1)]
  }

  predicate DirEmpty(dir: Dir) {
    forall n | n in dir :: IsDot(n)
  }

  ghost predicate CanRemove(s: Nodes, d: nat, n: Name) {
    && LinkedDir(s, d) && n in s[d].dir && !IsDot(n) && s[d].dir[n] < |s|
    && (s[s[d].dir[n]].typ == T_DIR ==> DirEmpty(s[s[d].dir[n]].dir))
  }

  /** An empty directory other than the root is named by its one entry only. */
  lemma {:induction false} OneName(s: Nodes, home: seq<Name>, d: nat, n: Name, e: nat, m: Name)
    requires Consistent(s, home) && CanRemove(s, d, n) && s[s[d].dir[n]].typ == T_DIR
    ensures Refers(s, e, m, s[d].dir[n]) ==> e == d && m == n
  {
    var x := s[d].dir[n];
    assert EntryOk(s, home, d, n);
    if Refers(s, e, m, x) {
      assert EntryOk(s, home, e, m) && ParentOk(s, home, e);
    }
  }

  lemma {:induction false} RemovedOnce(s: Nodes, home: seq<Name>, d: nat, n: Name)
    requires Consistent(s, home) && CanRemove(s, d, n) && s[s[d].dir[n]].typ == T_DIR
    ensures s[s[d].dir[n]].nlink == 1
  {
    var x := s[d].dir[n];
    forall p ensures p in Entries(s, x) <==> p == (d, n) {
      InEntries(s, p.0, p.1, x);
      if p in Entries(s, x) { OneName(s, home, d, n, p.0, p.1); }
    }
    assert CountOk(s, x) && Entries(s, x) == {(d, n)};
  }

  /** A directory with a linked subdirectory is named at least twice. */
  lemma {:induction false} NamedTwice(s: Nodes, home: seq<Name>, d: nat, n: Name)
    requires Consistent(s, home) && CanRemove(s, d, n) && s[s[d].dir[n]].typ == T_DIR
    ensures s[d].nlink >= 2
  {
    var x := s[d].dir[n];
    assert EntryOk(s, home, d, n) && DirOk(s, x) && ParentOk(s, home, d) && CountOk(s, d);
    RemovedOnce(s, home, d, n);
    var e, m := if d == ROOTINO then ROOTINO else s[d].dir[DOTDOT], if d == ROOTINO then DOTDOT else home[d];
    InEntries(s, x, DOTDOT, d);
    InEntries(s, e, m, d);
    assert {(x, DOTDOT), (e, m)} <= Entries(s, d);
    assert |{(x, DOTDOT), (e, m)}| == 2;
    SubsetSize({(x, DOTDOT), (e, m)}, Entries(s, d));
  }

  lemma {:induction false} SubsetSize<T>(a: set<T>, b: set<T>)
    requires a <= b
    ensures |a| <= |b|
  {
    assert b == a + (b - a);
  }

  lemma {:induction false} RemovedRefers(s: Nodes, home: seq<Name>, d: nat, n: Name, e: nat, m: Name, y: nat)
    requires Consistent(s, home) && CanRemove(s, d, n)
    ensures s[d].dir[n] != d
    ensures var x := s[d].dir[n];
            Refers(Removed(s, d, n), e, m, y) <==>
              Refers(s, e, m, y) && !(e == d && m == n) && !(s[x].typ == T_DIR && e == x)
  {
    var x := s[d].dir[n];
    assert EntryOk(s, home, d, n) && DirOk(s, x) && ParentOk(s, home, d);
    if s[x].typ == T_DIR {
      RemovedOnce(s, home, d, n);
      NamedTwice(s, home, d, n);
    }
  }

  lemma {:induction false} OneLess(s: Nodes, s': Nodes, y: nat, d: nat, n: Name)
    requires y < |s| == |s'| && CountOk(s, y) && s'[y].nlink == s[y].nlink - 1 && Refers(s, d, n, y)
    requires forall e, m :: Refers(s', e, m, y) <==> Refers(s, e, m, y) && !(e == d && m == n)
    ensures CountOk(s', y)
  {
    InEntries(s, d, n, y);
    forall p ensures p in Entries(s', y) <==> p in Entries(s, y) && p != (d, n) {
      InEntries(s', p.0, p.1, y);
      InEntries(s, p.0, p.1, y);
    }
    assert Entries(s', y) == Entries(s, y) - {(d, n)};
  }

  lemma {:induction false} RemovedCounts(s: Nodes, home: seq<Name>, d: nat, n: Name, y: nat)
    requires Consistent(s, home) && CanRemove(s, d, n) && y < |s|
    ensures s[d].dir[n] != d && CountOk(Removed(s, d, n), y)
  {
    var x := s[d].dir[n];
    RemovedRefers(s, home, d, n, d, n, x);
    var s' := Removed(s, d, n);
    assert CountOk(s, y) && EntryOk(s, home, d, n) && DirOk(s, x);
    forall e, m ensures Refers(s', e, m, y) <==>
              Refers(s, e, m, y) && !(e == d && m == n) && !(s[x].typ == T_DIR && e == x)
    {
      RemovedRefers(s, home, d, n, e, m, y);
    }
    if s[x].typ == T_DIR { RemovedOnce(s, home, d, n); }
    if y == x {
      OneLess(s, s', y, d, n);
    } else if y == d && s[x].typ == T_DIR {
      OneLess(s, s', y, x, DOTDOT);
    } else {
      NoneMore(s, s', y);
    }
  }

  lemma {:induction false} RemovedDir(s: Nodes, home: seq<Name>, d: nat, n: Name, y: nat)
    requires Consistent(s, home) && CanRemove(s, d, n) && y < |s|
    ensures s[d].dir[n] != d && DirOk(Removed(s, d, n), y) && ParentOk(Removed(s, d, n), home, y)
  {
    var x := s[d].dir[n];
    RemovedRefers(s, home, d, n, d, n, x);
    assert DirOk(s, x) && DirOk(s, y) && DirOk(s, d) && EntryOk(s, home, d, n);
    assert ParentOk(s, home, y) && ParentOk(s, home, d);
    if s[x].typ == T_DIR {
      RemovedOnce(s, home, d, n);
      NamedTwice(s, home, d, n);
    }
  }

  lemma {:induction false} RemovedKeeps(s: Nodes, home: seq<Name>, d: nat, n: Name)
    requires Consistent(s, home) && CanRemove(s, d, n)
    ensures s[d].dir[n] != d && Consistent(Removed(s, d, n), home)
  {
    var x := s[d].dir[n];
    RemovedRefers(s, home, d, n, d, n, x);
    var s' := Removed(s, d, n);
    assert DirOk(s, x) && DirOk(s, ROOTINO) && EntryOk(s, home, d, n);
    if s[x].typ == T_DIR { NamedTwice(s, home, d, n); }
    forall y | 0 <= y < |s'| ensures CountOk(s', y) && DirOk(s', y) && ParentOk(s', home, y) {
      RemovedCounts(s, home, d, n, y);
      RemovedDir(s, home, d, n, y);
    }
    forall e, m | 0 <= e < |s'| && LinkedDir(s', e) && m in s'[e].dir ensures EntryOk(s', home, e, m) {
      assert EntryOk(s, home, e, m);
    }
  }

  // ----- an inode is freed -----

  lemma {:induction false} FreedKeeps(s: Nodes, home: seq<Name>, x: nat)
    requires Consistent(s, home) && x < |s| && s[x].nlink == 0
    ensures Consistent(s[x := Node(0, 0, map[])], home)
  {
    var s' := s[x := Node(0, 0, map[])];
    assert forall d :: LinkedDir(s', d) <==> LinkedDir(s, d);
    assert forall d, n, y :: Refers(s', d, n, y) <==> Refers(s, d, n, y);
    forall y | 0 <= y < |s'| ensures CountOk(s', y) && DirOk(s', y) && ParentOk(s', home, y) {
      assert CountOk(s, y) && DirOk(s, y) && ParentOk(s, home, y);
      NoneMore(s, s', y);
    }
    forall d, n | 0 <= d < |s'| && LinkedDir(s', d) && n in s'[d].dir ensures EntryOk(s', home, d, n) {
      assert EntryOk(s, home, d, n) && DirOk(s, d);
      NamedNowhere(s, home, x, d, n);
    }
  }

  /** Free inodes have no links. */
  lemma {:induction false} FreeUnlinked(s: Nodes, home: seq<Name>, x: nat)
    requires Consistent(s, home) && x < |s| && s[x].typ == 0
    ensures s[x].nlink == 0
  {
    assert CountOk(s, x);
    forall p ensures p !in Entries(s, x) {
      InEntries(s, p.0, p.1, x);
      NamesAllocated(s, home, p.0, p.1, x);
    }
  }

  lemma {:induction false} NamesAllocated(s: Nodes, home: seq<Name>, d: nat, n: Name, x: nat)
    requires Consistent(s, home)
    ensures Refers(s, d, n, x) ==> x < |s| && s[x].typ != 0
  {
    if Refers(s, d, n, x) { assert EntryOk(s, home, d, n); }
  }

  /** Every entry of every directory, removed or not, names an inode of the disk. */
  lemma {:induction false} NamesInRange(s: Nodes, home: seq<Name>, d: nat, n: Name)
    requires Consistent(s, home) && d < |s| && n in s[d].dir
    ensures s[d].dir[n] < |s|
  {
    assert DirOk(s, d);
    if LinkedDir(s, d) { assert EntryOk(s, home, d, n); }
  }

  /** A new inode is entered consistently exactly when the directory is linked. */
  lemma {:induction false} Created(s: Nodes, home: seq<Name>, x: nat, typ: nat, dp: nat, n: Name)
    requires Consistent(s, home) && 0 < x < |s| && s[x].typ == 0 && typ != 0
    requires dp < |s| && s[dp].typ == T_DIR && n !in s[dp].dir
    ensures LinkedDir(s, dp) ==> Consistent(Entered(Fresh(s, x, typ, dp), dp, n, x), home[x := n])
    ensures Counted(Entered(Fresh(s, x, typ, dp), dp, n, x)) <==> LinkedDir(s, dp)
  {
    FreeUnlinked(s, home, x);
    FreshKeeps(s, home, x, typ, dp);
    var f := Fresh(s, x, typ, dp);
    assert DirOk(s, dp);
    if LinkedDir(s, dp) {
      EnteredKeeps(f, home, dp, n, x);
    } else if typ != T_DIR {
      LostEntry(f, home, dp, n, x);
    } else {
      LostDirectory(f, home, dp, n, x);
    }
  }

  /** A file is linked consistently exactly when the directory is linked. */
  lemma {:induction false} Linked(s: Nodes, home: seq<Name>, d: nat, n: Name, x: nat)
    requires Consistent(s, home) && x < |s| && s[x].typ != 0 && s[x].typ != T_DIR
    requires d < |s| && s[d].typ == T_DIR && n !in s[d].dir
    ensures LinkedDir(s, d) ==> Consistent(Entered(s, d, n, x), home[x := n])
    ensures Counted(Entered(s, d, n, x)) <==> LinkedDir(s, d)
  {
    assert DirOk(s, d);
    if LinkedDir(s, d) {
      EnteredKeeps(s, home, d, n, x);
    } else {
      LostEntry(s, home, d, n, x);
    }
  }

  // ----- a removed directory that is still in use -----

  const A: Name := [97]

  /** A file system with nothing but its root, and three free inodes. */
  function RootOnly(): Nodes {
    var free := Node(0, 0, map[]);
    [free, Node(T_DIR, 1, map[DOT := ROOTINO, DOTDOT := ROOTINO]), free, free, free]
  }

  lemma {:induction false} RootOnlyConsistent()
    ensures Consistent(RootOnly(), seq(5, _ => []))
  {
    var s := RootOnly();
    forall x | 0 <= x < |s| ensures CountOk(s, x) {
      forall p ensures p in Entries(s, x) <==> p == (ROOTINO, DOTDOT) && x == ROOTINO {
        InEntries(s, p.0, p.1, x);
      }
      assert Entries(s, x) == if x == ROOTINO then {(ROOTINO, DOTDOT)} else {};
    }
  }

  /** mkdir a, a process stays in it, rmdir a: consistent, with a removed directory in inode 2. */
  function AfterRmdir(): Nodes {
    RootOnly()[2 := Node(T_DIR, 0, map[DOT := 2, DOTDOT := ROOTINO])]
  }

  lemma {:induction false} RmdirRun()
    ensures var made := Entered(Fresh(RootOnly(), 2, T_DIR, ROOTINO), ROOTINO, A, 2);
            Counted(made) && CanRemove(made, ROOTINO, A) && Removed(made, ROOTINO, A) == AfterRmdir()
    ensures Counted(AfterRmdir())
  {
    var s, home := RootOnly(), seq(5, _ => []);
    RootOnlyConsistent();
    Created(s, home, 2, T_DIR, ROOTINO, A);
    var made := Entered(Fresh(s, 2, T_DIR, ROOTINO), ROOTINO, A, 2);
    assert made[2] == Node(T_DIR, 1, map[DOT := 2, DOTDOT := ROOTINO]);
    RemovedKeeps(made, home[2 := A], ROOTINO, A);
    assert made[ROOTINO].dir - {A} == s[ROOTINO].dir;
  }

  /** The counts go wrong when a file is created in the removed directory. */
  lemma {:induction false} CreateInRemoved()
    ensures Counted(AfterRmdir())
    ensures !Counted(Entered(Fresh(AfterRmdir(), 3, T_FILE, 2), 2, A, 3))
    ensures !Counted(Entered(Fresh(AfterRmdir(), 3, T_DIR, 2), 2, A, 3))
  {
    RmdirRun();
    var home :| Consistent(AfterRmdir(), home);
    Created(AfterRmdir(), home, 3, T_FILE, 2, A);
    Created(AfterRmdir(), home, 3, T_DIR, 2, A);
  }

  /** And when a file that exists is linked there. */
  lemma {:induction false} LinkInRemoved()
    ensures var s := Entered(Fresh(AfterRmdir(), 3, T_FILE, ROOTINO), ROOTINO, A, 3);
            Counted(s) && !Counted(Entered(s, 2, A, 3))
  {
    RmdirRun();
    var home :| Consistent(AfterRmdir(), home);
    Created(AfterRmdir(), home, 3, T_FILE, ROOTINO, A);
    var s := Entered(Fresh(AfterRmdir(), 3, T_FILE, ROOTINO), ROOTINO, A, 3);
    var h :| Consistent(s, h);
    Linked(s, h, 2, A, 3);
  }

  /** A directory made inside a removed one brings the removed one's ".." back to life, which its
      parent does not count. */
  lemma {:induction false} LostDirectory(s: Nodes, home: seq<Name>, d: nat, n: Name, x: nat)
    requires Consistent(s, home) && d < |s| && s[d].typ == T_DIR && !LinkedDir(s, d) && n !in s[d].dir
    requires x < |s| && x != d && s[x].typ == T_DIR && s[x].nlink == 0 && s[x].dir == map[DOT := x, DOTDOT := d]
    ensures forall h :: !Consistent(Entered(s, d, n, x), h)
  {
    var s' := Entered(s, d, n, x);
    assert DirOk(s, d) && CountOk(s, d);
    var p := s[d].dir[DOTDOT];
    assert CountOk(s, p) && !CountOk(s', p) by { LostParent(s, home, d, n, x); }
  }

  lemma {:induction false} TooMany(s: Nodes, s': Nodes, y: nat, extra: set<(nat, Name)>)
    requires y < |s| == |s'| && CountOk(s, y) && s'[y].nlink < s[y].nlink + |extra|
    requires forall q | q in extra :: Refers(s', q.0, q.1, y) && !Refers(s, q.0, q.1, y)
    requires forall d, n | Refers(s, d, n, y) :: Refers(s', d, n, y)
    ensures !CountOk(s', y)
  {
    forall q
      ensures q in extra ==> q in Entries(s', y) && q !in Entries(s, y)
      ensures q in Entries(s, y) ==> q in Entries(s', y)
    {
      InEntries(s, q.0, q.1, y);
      InEntries(s', q.0, q.1, y);
    }
    assert |Entries(s, y) + extra| == |Entries(s, y)| + |extra|;
    SubsetSize(Entries(s, y) + extra, Entries(s', y));
  }

  lemma {:induction false} LostParent(s: Nodes, home: seq<Name>, d: nat, n: Name, x: nat)
    requires Consistent(s, home) && d < |s| && s[d].typ == T_DIR && !LinkedDir(s, d) && n !in s[d].dir
    requires x < |s| && x != d && s[x].typ == T_DIR && s[x].nlink == 0 && s[x].dir == map[DOT := x, DOTDOT := d]
    ensures DOTDOT in s[d].dir && s[d].dir[DOTDOT] < |s| && CountOk(s, s[d].dir[DOTDOT])
    ensures !CountOk(Entered(s, d, n, x), s[d].dir[DOTDOT])
  {
    var s' := Entered(s, d, n, x);
    assert DirOk(s, d) && CountOk(s, d);
    var p := s[d].dir[DOTDOT];
    assert CountOk(s, p);
    Revived(s, home, d, n, x, p);
    if p == d {
      TooMany(s, s', p, {(d, DOTDOT), (x, DOTDOT)});
    } else if p == x {
      TooMany(s, s', p, {(d, DOTDOT), (d, n)});
    } else {
      TooMany(s, s', p, {(d, DOTDOT)});
    }
  }

  /** The references that come to be counted. */
  lemma {:induction false} Revived(s: Nodes, home: seq<Name>, d: nat, n: Name, x: nat, p: nat)
    requires Consistent(s, home) && d < |s| && s[d].typ == T_DIR && !LinkedDir(s, d) && n !in s[d].dir
    requires x < |s| && x != d && s[x].typ == T_DIR && s[x].nlink == 0 && s[x].dir == map[DOT := x, DOTDOT := d]
    requires DOTDOT in s[d].dir && s[d].dir[DOTDOT] == p
    ensures var s' := Entered(s, d, n, x);
            && Refers(s', d, DOTDOT, p) && Refers(s', x, DOTDOT, d) && Refers(s', d, n, x)
            && forall e, m, y | Refers(s, e, m, y) :: Refers(s', e, m, y)
    ensures forall m, y :: !Refers(s, d, m, y) && !Refers(s, x, m, y)
  {
    assert DirOk(s, d) && CountOk(s, d);
  }

  /** A name entered into a removed directory is counted but not found. */
  lemma {:induction false} LostEntry(s: Nodes, home: seq<Name>, d: nat, n: Name, x: nat)
    requires Consistent(s, home) && d < |s| && s[d].typ == T_DIR && !LinkedDir(s, d)
    requires x < |s| && x != d && s[x].typ != T_DIR && s[x].typ != 0
    ensures !CountOk(Entered(s, d, n, x), x)
  {
    var s' := Entered(s, d, n, x);
    assert CountOk(s, x);
    forall p ensures p in Entries(s', x) <==> p in Entries(s, x) {
      InEntries(s', p.0, p.1, x);
      InEntries(s, p.0, p.1, x);
    }
    assert Entries(s', x) == Entries(s, x);
  }
}
