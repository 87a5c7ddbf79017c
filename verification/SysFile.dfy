/** link, unlink and create of sysfile.c on the bytes of directories and the inodes of fs.c, from where
    the path lookups have led to the inodes. The name space they show is the one Links counts over. */
module SysFile {
  import opened Options
  import opened Sealing
  import opened FsBlocks
  import opened FsImage
  import opened FsOwner
  import opened FileSystem
  import opened Stat
  import D = DirContent
  import Dir = Directory
  import L = Links

  function NodeOf(node: Inode, data: seq<Byte>): L.Node {
    L.Node(node.typ, node.nlink, if node.typ == T_DIR then D.Directory(data) else map[])
  }

  /** The file system as a name space: types, link counts, and directories as maps. */
  ghost function Nodes(fs: FileSystem): (s: L.Nodes)
    requires fs.Valid()
    reads fs
    ensures |s| == |fs.inodes| && forall i | 0 <= i < |s| :: s[i] == NodeOf(fs.inodes[i], fs.Data(i))
  {
    var inodes, refs, blocks := fs.inodes, fs.refs, fs.blocks;
    seq(|inodes|, i requires 0 <= i < |inodes| && |refs| == |inodes| && |refs[i]| == SLOTS &&
        inodes[i].size <= MAXBYTES =>
      NodeOf(inodes[i], Content(refs, blocks, i, inodes[i].size)))
  }

  /** What an inode holds: its block pointers, those of its indirect block included, and its bytes. */
  datatype File = File(addrs: seq<nat>, row: seq<nat>, data: seq<Byte>)

  ghost function Files(fs: FileSystem): (f: seq<File>)
    requires fs.Valid()
    reads fs
    ensures |f| == |fs.inodes|
    ensures forall i | 0 <= i < |f| :: f[i] == File(fs.inodes[i].addrs, fs.refs[i], fs.Data(i))
  {
    var inodes, refs, blocks := fs.inodes, fs.refs, fs.blocks;
    seq(|inodes|, i requires 0 <= i < |inodes| && |refs| == |inodes| && |refs[i]| == SLOTS &&
        inodes[i].size <= MAXBYTES =>
      File(inodes[i].addrs, refs[i], Content(refs, blocks, i, inodes[i].size)))
  }

  /** What every system call finds and leaves, whatever the link counts: disk and memory agree, and the
      bytes of directories are entries with distinct names. */
  ghost predicate Ready(fs: FileSystem)
    reads fs
  {
    && fs.Valid() && fs.Synced() && fs.FreeEmpty() && |fs.inodes| <= D.USHORT
    && forall i | 0 <= i < |fs.inodes| :: DirReady(fs, i)
  }

  ghost predicate DirReady(fs: FileSystem, i: nat)
    requires fs.Valid() && i < |fs.inodes|
    reads fs
  {
    fs.inodes[i].typ == T_DIR ==> fs.NoHoles(i) && D.WellFormed(fs.Data(i))
  }

  /** Every directory but x starts with "." and "..". */
  ghost predicate DottedBut(fs: FileSystem, x: nat)
    requires fs.Valid()
    reads fs
  {
    forall i | 0 <= i < |fs.inodes| && i != x :: Dotted(fs, i)
  }

  ghost predicate Dotted(fs: FileSystem, i: nat)
    requires fs.Valid() && i < |fs.inodes|
    reads fs
  {
    fs.inodes[i].typ == T_DIR ==> D.StartsWithDots(fs.Data(i))
  }

  /** Between two system calls. */
  ghost predicate Settled(fs: FileSystem)
    reads fs
  {
    Ready(fs) && DottedBut(fs, |fs.inodes|)
  }

  predicate NoInodes(inodes: Inodes) {
    forall y | 1 <= y < |inodes| :: inodes[y].typ != 0
  }

  /** No block is free. */
  ghost predicate DiskFull(fs: FileSystem)
    reads fs
  {
    |fs.owner| == |fs.blocks| && forall c | 0 <= c < |fs.blocks| :: !fs.owner[c].Free?
  }

  // ----- the updates, seen in the name space -----

  /** The file system shows the name space s, the files f, and every directory but x has its dots. The
      system calls are put together from steps that know no more than this about the file system, so it
      is sealed. */
  ghost predicate Shows(fs: FileSystem, s: L.Nodes, f: seq<File>, x: nat)
    reads fs
  {
    && |fs.inodes| == |s| == |f|
    && forall u: int | Key(u, (s, f, x)) :: Ready(fs) && DottedBut(fs, x) && Nodes(fs) == s && Files(fs) == f
  }

  lemma {:induction false} Opened(fs: FileSystem, s: L.Nodes, f: seq<File>, x: nat)
    requires Shows(fs, s, f, x)
    ensures Ready(fs) && DottedBut(fs, x) && Nodes(fs) == s && Files(fs) == f
  {
    assert Key(0, (s, f, x));
  }

  /** The directory with these bytes has no free entry. */
  ghost predicate FullDir(c: seq<Byte>) {
    D.Taken(c, D.Count(c))
  }

  /** The type and the link count of an inode. */
  method Look(fs: FileSystem, i: nat, ghost s: L.Nodes, ghost f: seq<File>, ghost x: nat)
    returns (typ: nat, nlink: nat)
    requires Shows(fs, s, f, x) && i < |s|
    ensures typ == s[i].typ && nlink == s[i].nlink
  {
    Opened(fs, s, f, x);
    typ, nlink := fs.inodes[i].typ, fs.inodes[i].nlink;
  }

  /** A change of the link count, with iupdate. */
  method SetLinks(fs: FileSystem, i: nat, n: nat, ghost s: L.Nodes, ghost f: seq<File>, ghost x: nat)
    requires Shows(fs, s, f, x) && i < |s| && s[i].typ != 0
    modifies fs`inodes, fs`dinodes
    ensures Shows(fs, s[i := s[i].(nlink := n)], f, x)
  {
    Opened(fs, s, f, x);
    fs.SetLinks(i, n);
    forall j | 0 <= j < |fs.inodes| ensures DirReady(fs, j) && (j != x ==> Dotted(fs, j)) {
      assert old(DirReady(fs, j)) && (j != x ==> old(Dotted(fs, j)));
    }
    assert Nodes(fs) == s[i := s[i].(nlink := n)];
    assert Files(fs) == f;
  }

  /** dirlink; g is the directory's file afterwards. */
  method Enter(fs: FileSystem, d: nat, name: seq<Byte>, inum: nat, ghost s: L.Nodes, ghost f: seq<File>,
               ghost x: nat)
    returns (panic: bool, r: int, ghost g: File)
    requires Shows(fs, s, f, x) && d < |s| && s[d].typ == T_DIR && 0 < inum < |s| && |s| <= D.USHORT
    modifies fs
    ensures panic ==> FullDir(f[d].data) && (|f[d].data| + D.ENTRY > MAXBYTES || DiskFull(fs))
    ensures !panic ==> (r == 0 || r == -1) && (r == -1 <==> D.Canon(name) in s[d].dir)
    ensures !panic ==> fs.uses == old(fs.uses) && fs.loaded == old(fs.loaded)
    ensures !panic && r == -1 ==> Shows(fs, s, f, x)
    ensures !panic && r == 0 ==>
              && Shows(fs, s[d := s[d].(dir := s[d].dir[D.Canon(name) := inum])], f[d := g], x)
              && exists k: nat :: D.Adds(f[d].data, g.data, k, inum, name)
  {
    Opened(fs, s, f, x);
    panic, r := Insert(fs, d, name, inum, x);
    g := if panic then f[d] else Files(fs)[d];
  }

  method Insert(fs: FileSystem, d: nat, name: seq<Byte>, inum: nat, ghost x: nat) returns (panic: bool, r: int)
    requires Ready(fs) && DottedBut(fs, x) && d < |fs.inodes| && fs.inodes[d].typ == T_DIR && 0 < inum < |fs.inodes|
    modifies fs
    ensures panic ==> FullDir(old(Files(fs))[d].data)
    ensures panic ==> |old(Files(fs))[d].data| + D.ENTRY > MAXBYTES || DiskFull(fs)
    ensures !panic ==> (r == 0 || r == -1) && (r == -1 <==> D.Canon(name) in old(Nodes(fs))[d].dir)
    ensures !panic ==> Ready(fs) && DottedBut(fs, x) && |fs.inodes| == |old(fs.inodes)|
    ensures !panic ==> fs.uses == old(fs.uses) && fs.loaded == old(fs.loaded)
    ensures !panic && r == -1 ==> Nodes(fs) == old(Nodes(fs)) && Files(fs) == old(Files(fs))
    ensures !panic && r == 0 ==>
              && Nodes(fs)
              == old(Nodes(fs))[d := old(Nodes(fs))[d].(dir := old(Nodes(fs))[d].dir[D.Canon(name) := inum])]
              && Files(fs) == old(Files(fs))[d := Files(fs)[d]]
              && exists k: nat :: D.Adds(old(Files(fs))[d].data, Files(fs)[d].data, k, inum, name)
  {
    assert DirReady(fs, d);
    panic, r := Dir.Dirlink(fs, d, name, inum);
    if panic {
      return;
    }
    forall j | 0 <= j < |fs.inodes| ensures DirReady(fs, j) && (j != x ==> Dotted(fs, j)) {
      assert old(DirReady(fs, j)) && (j != x ==> old(Dotted(fs, j)));
      if r == 0 && j == d && j != x {
        ghost var k: nat :| D.Adds(old(fs.Data(d)), fs.Data(d), k, inum, name);
        D.DotsStay(old(fs.Data(d)), fs.Data(d), k, inum, name);
      }
    }
  }

  /** dirlookup. */
  method Find(fs: FileSystem, d: nat, name: seq<Byte>, ghost s: L.Nodes, ghost f: seq<File>)
    returns (panic: bool, r: Option<(nat, nat)>)
    requires Shows(fs, s, f, |s|) && d < |s| && s[d].typ == T_DIR
    modifies fs
    ensures !panic && unchanged(fs) && (r.Some? <==> D.Canon(name) in s[d].dir)
    ensures r.Some? ==> r.value.0 == s[d].dir[D.Canon(name)] && EntryAt(fs, d, r.value.1, D.Canon(name))
  {
    Opened(fs, s, f, |s|);
    assert DirReady(fs, d);
    panic, r := Dir.Dirlookup(fs, d, name);
  }

  /** The entry at offset off of directory d is in use for name n. Sealed. */
  ghost predicate EntryAt(fs: FileSystem, d: nat, off: nat, n: seq<Byte>)
    reads fs
  {
    forall u: int | Key(u, (d, off)) ::
      && fs.Valid() && d < |fs.inodes|
      && off % D.ENTRY == 0 && off / D.ENTRY < D.Count(fs.Data(d)) && D.Live(fs.Data(d), off / D.ENTRY, n)
  }

  /** c' is c with the entry for name n blanked. */
  ghost predicate Blanked(c: seq<Byte>, c': seq<Byte>, n: seq<Byte>) {
    exists k: nat :: k < D.Count(c) && D.Live(c, k, n) && BlankedAt(c, c', k)
  }

  ghost predicate BlankedAt(c: seq<Byte>, c': seq<Byte>, k: nat)
    requires k < D.Count(c)
  {
    c' == c[..D.ENTRY * k] + seq<Byte>(D.ENTRY, _ => 0) + c[D.ENTRY * k + D.ENTRY..]
  }

  /** sys_unlink's write over the entry at off, which dirlookup found for the name. */
  method Erase(fs: FileSystem, d: nat, off: nat, ghost n: seq<Byte>, ghost s: L.Nodes, ghost f: seq<File>)
    returns (panic: bool, ghost g: File)
    requires Shows(fs, s, f, |s|) && d < |s| && s[d].typ == T_DIR && !L.IsDot(n) && EntryAt(fs, d, off, n)
    modifies fs
    ensures !panic && Shows(fs, s[d := s[d].(dir := s[d].dir - {n})], f[d := g], |s|)
    ensures fs.uses == old(fs.uses) && fs.loaded == old(fs.loaded) && Blanked(f[d].data, g.data, n)
  {
    Opened(fs, s, f, |s|);
    panic := Wipe(fs, d, off, n);
    g := Files(fs)[d];
    assert Nodes(fs) == s[d := s[d].(dir := s[d].dir - {n})];
    assert Files(fs) == f[d := g];
  }

  method Wipe(fs: FileSystem, d: nat, off: nat, ghost n: seq<Byte>) returns (panic: bool)
    requires Settled(fs) && d < |fs.inodes| && fs.inodes[d].typ == T_DIR && !L.IsDot(n) && EntryAt(fs, d, off, n)
    modifies fs
    ensures !panic && Settled(fs) && |fs.inodes| == |old(fs.inodes)|
    ensures fs.uses == old(fs.uses) && fs.loaded == old(fs.loaded)
    ensures Nodes(fs) == old(Nodes(fs))[d := old(Nodes(fs))[d].(dir := old(Nodes(fs))[d].dir - {n})]
    ensures Files(fs) == old(Files(fs))[d := Files(fs)[d]]
    ensures Blanked(old(Files(fs))[d].data, Files(fs)[d].data, n)
  {
    assert DirReady(fs, d);
    assert Key(0, (d, off));
    ghost var c, k := fs.Data(d), off / D.ENTRY;
    assert off == D.ENTRY * k;
    panic := Dir.EraseEntry(fs, d, off);
    forall j | 0 <= j < |fs.inodes| ensures DirReady(fs, j) && Dotted(fs, j) {
      assert old(DirReady(fs, j)) && old(Dotted(fs, j));
      if j == d {
        D.DotsStay(c, fs.Data(d), k, 0, []);
      }
    }
    assert D.Live(c, k, n) && BlankedAt(c, fs.Data(d), k);
  }

  /** isdirempty. */
  method Empty(fs: FileSystem, i: nat, ghost s: L.Nodes, ghost f: seq<File>, ghost home: seq<L.Name>)
    returns (empty: bool)
    requires Shows(fs, s, f, |s|) && L.Consistent(s, home) && i < |s| && s[i].typ == T_DIR
    modifies fs
    ensures unchanged(fs) && (empty <==> L.DirEmpty(s[i].dir))
  {
    Opened(fs, s, f, |s|);
    assert DirReady(fs, i) && Dotted(fs, i);
    empty := Dir.Isdirempty(fs, i);
    DotsOnly(s, home, i);
  }

  lemma {:induction false} DotsOnly(s: L.Nodes, home: seq<L.Name>, x: nat)
    requires L.Consistent(s, home) && x < |s| && s[x].typ == T_DIR
    ensures s[x].dir.Keys == {L.DOT, L.DOTDOT} <==> L.DirEmpty(s[x].dir)
  {
    assert L.DirOk(s, x);
  }

  /** ialloc: the lowest free inode, which holds nothing. */
  method NewInode(fs: FileSystem, typ: nat, ghost s: L.Nodes, ghost f: seq<File>) returns (panic: bool, x: nat)
    requires Shows(fs, s, f, |s|) && typ != 0
    modifies fs`inodes, fs`dinodes
    ensures panic ==> NoInodes(old(fs.inodes))
    ensures !panic ==>
              && 1 <= x < |s| && s[x].typ == 0 && (forall y | 1 <= y < x :: s[y].typ != 0)
              && Shows(fs, s[x := L.Node(typ, 0, map[])], f, x) && f[x].data == []
  {
    Opened(fs, s, f, |s|);
    panic, x := fs.Ialloc(typ);
    if panic {
      return;
    }
    D.EmptyWellFormed();
    forall j | 0 <= j < |fs.inodes| ensures DirReady(fs, j) && (j != x ==> Dotted(fs, j)) {
      assert old(DirReady(fs, j)) && old(Dotted(fs, j));
    }
    assert Nodes(fs) == s[x := L.Node(typ, 0, map[])];
    assert Files(fs) == f;
  }

  /** The entry "." of a new directory. */
  method EnterDot(fs: FileSystem, x: nat, ghost s: L.Nodes, ghost f: seq<File>) returns (panic: bool, ghost g: File)
    requires Shows(fs, s, f, x) && 0 < x < |s| <= D.USHORT && s[x] == L.Node(T_DIR, s[x].nlink, map[])
    requires f[x].data == []
    modifies fs
    ensures panic ==> DiskFull(fs)
    ensures !panic ==>
              && Shows(fs, s[x := s[x].(dir := map[L.DOT := x])], f[x := g], x) && FirstDot(g.data)
              && fs.uses == old(fs.uses) && fs.loaded == old(fs.loaded)
  {
    D.DotsCanon();
    var r;
    panic, r, g := Enter(fs, x, D.DOT, x, s, f, x);
    if !panic {
      ghost var k: nat :| D.Adds([], g.data, k, x, D.DOT);
      D.DotFirst(g.data, k, x);
    }
  }

  ghost predicate FirstDot(c: seq<Byte>) {
    |c| == D.ENTRY && D.Live(c, 0, D.DOT)
  }

  /** The entry ".." that follows it. */
  method EnterDotdot(fs: FileSystem, dp: nat, x: nat, ghost s: L.Nodes, ghost f: seq<File>)
    returns (panic: bool, ghost g: File)
    requires Shows(fs, s, f, x) && 0 < x < |s| <= D.USHORT && 0 < dp < |s|
    requires s[x] == L.Node(T_DIR, s[x].nlink, map[L.DOT := x]) && FirstDot(f[x].data)
    modifies fs
    ensures panic ==> DiskFull(fs)
    ensures !panic ==>
              && Shows(fs, s[x := s[x].(dir := map[L.DOT := x, L.DOTDOT := dp])], f[x := g], |s|)
              && fs.uses == old(fs.uses) && fs.loaded == old(fs.loaded)
  {
    D.DotsCanon();
    var r;
    panic, r, g := Enter(fs, x, D.DOTDOT, dp, s, f, x);
    if !panic {
      ghost var k: nat :| D.Adds(f[x].data, g.data, k, dp, D.DOTDOT);
      D.DotsFollow(f[x].data, g.data, k, dp);
      AllDotted(fs, s[x := s[x].(dir := map[L.DOT := x, L.DOTDOT := dp])], f[x := g], x);
    }
  }

  lemma {:induction false} AllDotted(fs: FileSystem, s: L.Nodes, f: seq<File>, x: nat)
    requires Shows(fs, s, f, x) && x < |s| && D.StartsWithDots(f[x].data)
    ensures Shows(fs, s, f, |s|)
  {
    Opened(fs, s, f, x);
    forall i | 0 <= i < |fs.inodes| ensures Dotted(fs, i) {
    }
  }

  // ----- the system calls -----

  /** sys_link: x is what the old path leads to, dp the directory of the new one. The count is raised
      first and lowered again when the name cannot be entered. No file but the directory changes. */
  method Link(fs: FileSystem, x: nat, dp: Option<nat>, name: seq<Byte>) returns (panic: bool, r: int)
    requires Settled(fs) && L.Counted(Nodes(fs)) && x < |fs.inodes| && fs.inodes[x].typ != 0
    requires dp.Some? ==> dp.value < |fs.inodes| && fs.inodes[dp.value].typ == T_DIR
    modifies fs
    ensures panic ==> dp.Some? && FullDir(old(Files(fs))[dp.value].data)
    ensures panic ==> |old(Files(fs))[dp.value].data| + D.ENTRY > MAXBYTES || DiskFull(fs)
    ensures !panic ==> Settled(fs) && (r == 0 || r == -1)
    ensures !panic ==> fs.uses == old(fs.uses) && fs.loaded == old(fs.loaded)
    ensures !panic ==>
              (r == 0 <==> old(Nodes(fs))[x].typ != T_DIR && dp.Some? && D.Canon(name) !in old(Nodes(fs))[dp.value].dir)
    ensures !panic && r == -1 ==> Nodes(fs) == old(Nodes(fs)) && Files(fs) == old(Files(fs))
    ensures !panic && r == 0 ==>
              && Nodes(fs) == L.Entered(old(Nodes(fs)), dp.value, D.Canon(name), x)
              && (L.Counted(Nodes(fs)) <==> L.LinkedDir(old(Nodes(fs)), dp.value))
    ensures !panic && r == 0 ==>
              var f, f', d := old(Files(fs)), Files(fs), dp.value;
              f' == f[d := f'[d]] && exists k: nat :: D.Adds(f[d].data, f'[d].data, k, x, name)
  {
    ghost var s, f := Nodes(fs), Files(fs);
    RootAndRange(s, x);
    ghost var g;
    panic, r, g := LinkTo(fs, x, dp, name, s, f);
    if !panic {
      Opened(fs, if r == 0 then L.Entered(s, dp.value, D.Canon(name), x) else s,
             if r == 0 then f[dp.value := g] else f, |s|);
      if r == 0 {
        LinkCounts(s, dp.value, D.Canon(name), x);
      }
    }
  }

  lemma {:induction false} LinkCounts(s: L.Nodes, d: nat, n: L.Name, x: nat)
    requires L.Counted(s) && x < |s| && s[x].typ != 0 && s[x].typ != T_DIR
    requires d < |s| && s[d].typ == T_DIR && n !in s[d].dir
    ensures L.Counted(L.Entered(s, d, n, x)) <==> L.LinkedDir(s, d)
  {
    var home :| L.Consistent(s, home);
    L.Linked(s, home, d, n, x);
  }

  method LinkTo(fs: FileSystem, x: nat, dp: Option<nat>, name: seq<Byte>, ghost s: L.Nodes, ghost f: seq<File>)
    returns (panic: bool, r: int, ghost g: File)
    requires Shows(fs, s, f, |s|) && 0 < x < |s| <= D.USHORT && s[x].typ != 0
    requires dp.Some? ==> dp.value < |s| && s[dp.value].typ == T_DIR
    modifies fs
    ensures panic ==> dp.Some? && FullDir(f[dp.value].data)
    ensures panic ==> |f[dp.value].data| + D.ENTRY > MAXBYTES || DiskFull(fs)
    ensures !panic ==> (r == 0 || r == -1)
    ensures !panic ==> fs.uses == old(fs.uses) && fs.loaded == old(fs.loaded)
    ensures !panic ==> (r == 0 <==> s[x].typ != T_DIR && dp.Some? && D.Canon(name) !in s[dp.value].dir)
    ensures !panic && r == -1 ==> Shows(fs, s, f, |s|)
    ensures !panic && r == 0 ==>
              && Shows(fs, L.Entered(s, dp.value, D.Canon(name), x), f[dp.value := g], |s|)
              && exists k: nat :: D.Adds(f[dp.value].data, g.data, k, x, name)
  {
    var typ, nlink := Look(fs, x, s, f, |s|);
    panic, r, g := false, -1, f[x];
    if typ == T_DIR {
      return;
    }
    ghost var s1 := s[x := s[x].(nlink := nlink + 1)];
    SetLinks(fs, x, nlink + 1, s, f, |s|);
    if dp.Some? {
      panic, r, g := Enter(fs, dp.value, name, x, s1, f, |s|);
    }
    if panic || r == 0 {
      assert !panic ==>
          s1[dp.value := s1[dp.value].(dir := s1[dp.value].dir[D.Canon(name) := x])] ==
          L.Entered(s, dp.value, D.Canon(name), x);
      return;
    }
    typ, nlink := Look(fs, x, s1, f, |s|);
    SetLinks(fs, x, nlink - 1, s1, f, |s|);
    assert s1[x := s1[x].(nlink := nlink - 1)] == s;
  }

  /** sys_unlink: a name other than "." and "..", of a file or of an empty directory. None of its panics
      can happen. The entry is blanked; no file but the directory changes, the one that loses the name
      included: it goes with its last reference. */
  method Unlink(fs: FileSystem, dp: nat, name: seq<Byte>) returns (panic: bool, r: int)
    requires Settled(fs) && L.Counted(Nodes(fs)) && dp < |fs.inodes| && fs.inodes[dp].typ == T_DIR
    modifies fs
    ensures !panic && Settled(fs) && L.Counted(Nodes(fs)) && (r == 0 || r == -1)
    ensures fs.uses == old(fs.uses) && fs.loaded == old(fs.loaded)
    ensures r == 0 <==> L.CanRemove(old(Nodes(fs)), dp, D.Canon(name))
    ensures r == -1 ==> Nodes(fs) == old(Nodes(fs)) && Files(fs) == old(Files(fs))
    ensures r == 0 ==>
              && old(Nodes(fs))[dp].dir[D.Canon(name)] != dp
              && Nodes(fs) == L.Removed(old(Nodes(fs)), dp, D.Canon(name))
    ensures r == 0 ==>
              var f, f' := old(Files(fs)), Files(fs);
              f' == f[dp := f'[dp]] && Blanked(f[dp].data, f'[dp].data, D.Canon(name))
  {
    ghost var s, f := Nodes(fs), Files(fs);
    ghost var home :| L.Consistent(s, home);
    ghost var g;
    panic, r, g := UnlinkFrom(fs, dp, name, s, f, home);
    if r == 0 {
      L.RemovedKeeps(s, home, dp, D.Canon(name));
    }
    Opened(fs, if r == 0 then L.Removed(s, dp, D.Canon(name)) else s, if r == 0 then f[dp := g] else f, |s|);
  }

  /** Exactly the names other than "." and ".." can be removed, those of directories only when nothing
      else is left in them. */
  lemma {:induction false} MayRemove(s: L.Nodes, d: nat, n: L.Name)
    requires L.Counted(s) && d < |s| && s[d].typ == T_DIR
    ensures L.CanRemove(s, d, n) <==>
              && n in s[d].dir && n != D.DOT && n != D.DOTDOT && s[d].dir[n] < |s|
              && (s[s[d].dir[n]].typ == T_DIR ==> s[s[d].dir[n]].dir.Keys == {D.DOT, D.DOTDOT})
  {
    var home :| L.Consistent(s, home);
    if n in s[d].dir && !L.IsDot(n) {
      UnlinkCounts(s, home, d, n);
      if s[s[d].dir[n]].typ == T_DIR { DotsOnly(s, home, s[d].dir[n]); }
    }
  }

  method UnlinkFrom(fs: FileSystem, dp: nat, name: seq<Byte>, ghost s: L.Nodes, ghost f: seq<File>,
                    ghost home: seq<L.Name>)
    returns (panic: bool, r: int, ghost g: File)
    requires Shows(fs, s, f, |s|) && L.Consistent(s, home) && dp < |s| && s[dp].typ == T_DIR
    modifies fs
    ensures !panic && (r == 0 || r == -1) && (r == 0 <==> L.CanRemove(s, dp, D.Canon(name)))
    ensures fs.uses == old(fs.uses) && fs.loaded == old(fs.loaded)
    ensures r == -1 ==> Shows(fs, s, f, |s|)
    ensures r == 0 ==>
              && s[dp].dir[D.Canon(name)] != dp && Shows(fs, L.Removed(s, dp, D.Canon(name)), f[dp := g], |s|)
              && Blanked(f[dp].data, g.data, D.Canon(name))
  {
    ghost var n := D.Canon(name);
    panic, r, g := false, -1, f[dp];
    if D.Canon(name) == D.DOT || D.Canon(name) == D.DOTDOT {
      return;
    }
    var found;
    panic, found := Find(fs, dp, name, s, f);
    if found.None? {
      return;
    }
    var x, off := found.value.0, found.value.1;
    UnlinkCounts(s, home, dp, n);
    var typ, nlink := Look(fs, x, s, f, |s|);
    if nlink < 1 {
      return true, -1, g;
    }
    if typ == T_DIR {
      var empty := Empty(fs, x, s, f, home);
      if !empty {
        return;
      }
    }
    panic, g := EraseAndLower(fs, dp, off, x, n, s, f);
    r := 0;
  }

  /** What sys_unlink relies on: a name other than the dots is in a linked directory and of an inode
      that has a link. */
  lemma {:induction false} UnlinkCounts(s: L.Nodes, home: seq<L.Name>, dp: nat, n: L.Name)
    requires L.Consistent(s, home) && dp < |s| && s[dp].typ == T_DIR && n in s[dp].dir && !L.IsDot(n)
    ensures L.LinkedDir(s, dp) && s[dp].dir[n] < |s|
    ensures s[s[dp].dir[n]].typ != 0 && s[s[dp].dir[n]].nlink >= 1 && s[dp].nlink >= 1
  {
    assert L.DirOk(s, dp) && L.EntryOk(s, home, dp, n);
    L.CountPositive(s, home, dp, n);
  }

  /** The part of sys_unlink that changes things. */
  method EraseAndLower(fs: FileSystem, dp: nat, off: nat, x: nat, ghost n: seq<Byte>, ghost s: L.Nodes,
                       ghost f: seq<File>)
    returns (panic: bool, ghost g: File)
    requires Shows(fs, s, f, |s|) && dp < |s| && s[dp].typ == T_DIR && !L.IsDot(n) && EntryAt(fs, dp, off, n)
    requires n in s[dp].dir && s[dp].dir[n] == x < |s| && x != dp
    requires s[x].typ != 0 && s[x].nlink >= 1 && s[dp].nlink >= 1
    modifies fs
    ensures !panic && Shows(fs, L.Removed(s, dp, n), f[dp := g], |s|)
    ensures fs.uses == old(fs.uses) && fs.loaded == old(fs.loaded) && Blanked(f[dp].data, g.data, n)
  {
    panic, g := Erase(fs, dp, off, n, s, f);
    ghost var s1, f1 := s[dp := s[dp].(dir := s[dp].dir - {n})], f[dp := g];
    var typ, nlink := Look(fs, x, s1, f1, |s|);
    if typ == T_DIR {
      var t, m := Look(fs, dp, s1, f1, |s|);
      SetLinks(fs, dp, m - 1, s1, f1, |s|);
      s1 := s1[dp := s1[dp].(nlink := m - 1)];
    }
    SetLinks(fs, x, nlink - 1, s1, f1, |s|);
    assert s1[x := s1[x].(nlink := nlink - 1)] == L.Removed(s, dp, n);
  }

  /** create: the inode of that name if it is there and fits, else the lowest free one, made anew. No
      file but the directory and the new inode changes, and the new inode is an empty file or a
      directory with its dots. */
  method Create(fs: FileSystem, dp: nat, name: seq<Byte>, typ: nat) returns (panic: bool, r: Option<nat>)
    requires Settled(fs) && L.Counted(Nodes(fs)) && dp < |fs.inodes| && fs.inodes[dp].typ == T_DIR && typ != 0
    modifies fs
    ensures panic ==> NoInodes(old(fs.inodes)) || DiskFull(fs) ||
                      (FullDir(old(Files(fs))[dp].data) && |old(Files(fs))[dp].data| + D.ENTRY > MAXBYTES)
    ensures !panic ==> Settled(fs) && fs.uses == old(fs.uses) && fs.loaded == old(fs.loaded)
    ensures !panic && D.Canon(name) in old(Nodes(fs))[dp].dir ==>
              var s, x := Nodes(fs), old(Nodes(fs))[dp].dir[D.Canon(name)];
              && s == old(Nodes(fs)) && Files(fs) == old(Files(fs))
              && x < |s| && r == if typ == T_FILE && s[x].typ == T_FILE then Some(x) else None
    ensures !panic && D.Canon(name) !in old(Nodes(fs))[dp].dir ==>
              var s := old(Nodes(fs));
              && r.Some? && 0 < r.value < |s| && r.value != dp && s[r.value].typ == 0
              && (forall y | 1 <= y < r.value :: s[y].typ != 0)
              && Nodes(fs) == L.Entered(L.Fresh(s, r.value, typ, dp), dp, D.Canon(name), r.value)
              && (L.Counted(Nodes(fs)) <==> L.LinkedDir(s, dp))
    ensures !panic && D.Canon(name) !in old(Nodes(fs))[dp].dir ==>
              var f, f', x := old(Files(fs)), Files(fs), r.value;
              && x < |f| == |f'| && f' == f[x := f'[x]][dp := f'[dp]] && f[x].data == []
              && (typ != T_DIR ==> f'[x] == f[x])
              && exists k: nat :: D.Adds(f[dp].data, f'[dp].data, k, x, name)
  {
    ghost var s, f := Nodes(fs), Files(fs);
    RootAndRange(s, dp);
    var found;
    panic, found := Find(fs, dp, name, s, f);
    if found.Some? {
      var t, _ := Look(fs, found.value.0, s, f, |s|);
      return false, if typ == T_FILE && t == T_FILE then Some(found.value.0) else None;
    }
    var x;
    ghost var g, h;
    panic, x, g, h := CreateNew(fs, dp, name, typ, s, f);
    if !panic {
      Opened(fs, L.Entered(L.Fresh(s, x, typ, dp), dp, D.Canon(name), x), f[x := g][dp := h], |s|);
      CreateCounts(s, x, typ, dp, D.Canon(name));
    }
    r := Some(x);
  }

  lemma {:induction false} RootAndRange(s: L.Nodes, d: nat)
    requires L.Counted(s) && d < |s| && s[d].typ != 0
    ensures 0 < d && forall n | n in s[d].dir :: s[d].dir[n] < |s|
  {
    var home :| L.Consistent(s, home);
    forall n | n in s[d].dir ensures s[d].dir[n] < |s| {
      L.NamesInRange(s, home, d, n);
    }
  }

  lemma {:induction false} CreateCounts(s: L.Nodes, x: nat, typ: nat, dp: nat, n: L.Name)
    requires L.Counted(s) && 0 < x < |s| && s[x].typ == 0 && typ != 0
    requires dp < |s| && s[dp].typ == T_DIR && n !in s[dp].dir
    ensures L.Counted(L.Entered(L.Fresh(s, x, typ, dp), dp, n, x)) <==> L.LinkedDir(s, dp)
  {
    var home :| L.Consistent(s, home);
    L.Created(s, home, x, typ, dp, n);
  }

  /** The part of create that makes a new inode; g is its file and h the directory's afterwards. */
  method CreateNew(fs: FileSystem, dp: nat, name: seq<Byte>, typ: nat, ghost s: L.Nodes, ghost f: seq<File>)
    returns (panic: bool, x: nat, ghost g: File, ghost h: File)
    requires Shows(fs, s, f, |s|) && 0 < dp < |s| <= D.USHORT && s[dp].typ == T_DIR && typ != 0
    requires D.Canon(name) !in s[dp].dir
    modifies fs
    ensures panic ==> NoInodes(old(fs.inodes)) || DiskFull(fs) ||
                      (FullDir(f[dp].data) && |f[dp].data| + D.ENTRY > MAXBYTES)
    ensures !panic ==> fs.uses == old(fs.uses) && fs.loaded == old(fs.loaded)
    ensures !panic ==>
              && 0 < x < |s| && x != dp && s[x].typ == 0 && (forall y | 1 <= y < x :: s[y].typ != 0)
              && Shows(fs, L.Entered(L.Fresh(s, x, typ, dp), dp, D.Canon(name), x), f[x := g][dp := h], |s|)
              && f[x].data == [] && (typ != T_DIR ==> g == f[x])
              && exists k: nat :: D.Adds(f[dp].data, h.data, k, x, name)
  {
    g, h := f[dp], f[dp];
    panic, x := NewInode(fs, typ, s, f);
    if panic {
      return;
    }
    ghost var s1, f1 := s[x := L.Node(typ, 0, map[])], f;
    g := f[x];
    SetLinks(fs, x, 1, s1, f, x);
    s1 := s1[x := s1[x].(nlink := 1)];
    if typ == T_DIR {
      panic, g := MakeDots(fs, dp, x, s1, f);
      if panic {
        return;
      }
      s1 := s1[dp := s1[dp].(nlink := s1[dp].nlink + 1)][x := s1[x].(dir := map[L.DOT := x, L.DOTDOT := dp])];
    } else {
      NoDots(fs, s1, f, x);
    }
    f1 := f[x := g];
    assert typ != T_DIR ==> f1 == f;
    var r;
    panic, r, h := Enter(fs, dp, name, x, s1, f1, |s|);
    if !panic {
      panic := r < 0;
      assert s1[dp := s1[dp].(dir := s1[dp].dir[D.Canon(name) := x])]
          == L.Entered(L.Fresh(s, x, typ, dp), dp, D.Canon(name), x);
    }
  }

  /** An inode that is not a directory needs no dots. */
  lemma {:induction false} NoDots(fs: FileSystem, s: L.Nodes, f: seq<File>, x: nat)
    requires Shows(fs, s, f, x) && x < |s| && s[x].typ != T_DIR
    ensures Shows(fs, s, f, |s|)
  {
    Opened(fs, s, f, x);
    forall i | 0 <= i < |fs.inodes| ensures Dotted(fs, i) {
    }
  }

  /** The entries "." and ".." of a new directory x in dp, and the link ".." is to dp. */
  method MakeDots(fs: FileSystem, dp: nat, x: nat, ghost s: L.Nodes, ghost f: seq<File>)
    returns (panic: bool, ghost g: File)
    requires Shows(fs, s, f, x) && 0 < dp < |s| <= D.USHORT && 0 < x < |s| && x != dp && s[dp].typ == T_DIR
    requires s[x] == L.Node(T_DIR, s[x].nlink, map[]) && f[x].data == []
    modifies fs
    ensures panic ==> DiskFull(fs)
    ensures !panic ==> fs.uses == old(fs.uses) && fs.loaded == old(fs.loaded)
    ensures !panic ==>
              Shows(fs, s[dp := s[dp].(nlink := s[dp].nlink + 1)]
                         [x := s[x].(dir := map[L.DOT := x, L.DOTDOT := dp])], f[x := g], |s|)
  {
    var t, m := Look(fs, dp, s, f, x);
    SetLinks(fs, dp, m + 1, s, f, x);
    ghost var s1 := s[dp := s[dp].(nlink := m + 1)];
    panic, g := EnterDot(fs, x, s1, f);
    if panic {
      return;
    }
    s1 := s1[x := s1[x].(dir := map[L.DOT := x])];
    ghost var f1 := f[x := g];
    panic, g := EnterDotdot(fs, dp, x, s1, f1);
    assert f1[x := g] == f[x := g];
    assert s1[x := s1[x].(dir := map[L.DOT := x, L.DOTDOT := dp])]
        == s[dp := s[dp].(nlink := s[dp].nlink + 1)][x := s[x].(dir := map[L.DOT := x, L.DOTDOT := dp])];
  }

  /** A file without blocks. */
  const Blank: File := File(seq(NDIRECT + 1, _ => 0), seq(SLOTS, _ => 0), [])

  /** iput: the last reference to an inode without links frees it, which keeps all counts right; every
      other file, and the file of every other reference, stays. */
  method Put(fs: FileSystem, i: nat) returns (panic: bool)
    requires Settled(fs) && L.Counted(Nodes(fs)) && i < |fs.inodes| && fs.uses[i] > 0
    modifies fs
    ensures !panic && Settled(fs) && L.Counted(Nodes(fs))
    ensures fs.uses == old(fs.uses)[i := old(fs.uses)[i] - 1]
    ensures old(fs.uses)[i] == 1 && old(fs.loaded)[i] && old(Nodes(fs))[i].nlink == 0 ==>
              && Nodes(fs) == old(Nodes(fs))[i := L.Node(0, 0, map[])] && Files(fs) == old(Files(fs))[i := Blank]
              && fs.loaded == old(fs.loaded)[i := false]
    ensures !(old(fs.uses)[i] == 1 && old(fs.loaded)[i] && old(Nodes(fs))[i].nlink == 0) ==>
              Nodes(fs) == old(Nodes(fs)) && Files(fs) == old(Files(fs)) && fs.loaded == old(fs.loaded)
  {
    ghost var s, f := Nodes(fs), Files(fs);
    ghost var home :| L.Consistent(s, home);
    ghost var last := fs.uses[i] == 1 && fs.loaded[i] && s[i].nlink == 0;
    panic := PutInode(fs, i, s, f);
    if s[i].nlink == 0 {
      L.FreedKeeps(s, home, i);
    }
    Opened(fs, if last then s[i := L.Node(0, 0, map[])] else s, if last then f[i := Blank] else f, |s|);
  }

  method PutInode(fs: FileSystem, i: nat, ghost s: L.Nodes, ghost f: seq<File>) returns (panic: bool)
    requires Shows(fs, s, f, |s|) && i < |s| && i < |fs.uses| && i < |fs.loaded| && fs.uses[i] > 0
    modifies fs
    ensures !panic && fs.uses == old(fs.uses)[i := old(fs.uses)[i] - 1]
    ensures old(fs.uses)[i] == 1 && old(fs.loaded)[i] && s[i].nlink == 0 ==>
              Shows(fs, s[i := L.Node(0, 0, map[])], f[i := Blank], |s|) && fs.loaded == old(fs.loaded)[i := false]
    ensures !(old(fs.uses)[i] == 1 && old(fs.loaded)[i] && s[i].nlink == 0) ==>
              Shows(fs, s, f, |s|) && fs.loaded == old(fs.loaded)
  {
    Opened(fs, s, f, |s|);
    ghost var last := fs.uses[i] == 1 && fs.loaded[i] && s[i].nlink == 0;
    panic := fs.Iput(i);
    forall j | 0 <= j < |fs.inodes| ensures DirReady(fs, j) && Dotted(fs, j) {
      assert old(DirReady(fs, j)) && old(Dotted(fs, j));
    }
    assert last ==> Nodes(fs) == s[i := L.Node(0, 0, map[])];
    assert !last ==> Nodes(fs) == s;
    assert last ==> Files(fs)[i].row == Blank.row;
    assert last ==> Files(fs) == f[i := Blank];
    assert !last ==> Files(fs) == f;
  }

  /** Make a directory, remove it while it is in use, and create something in it: from any state with
      right counts this leads to one with wrong counts, unless inodes or blocks run out. */
  method CreateInRemoved(fs: FileSystem, dp: nat, name: seq<Byte>, inner: seq<Byte>, typ: nat)
    returns (panic: bool, d: nat)
    requires Settled(fs) && L.Counted(Nodes(fs)) && dp < |fs.inodes| && typ != 0
    requires L.LinkedDir(Nodes(fs), dp) && D.Canon(name) !in Nodes(fs)[dp].dir && !L.IsDot(D.Canon(inner))
    modifies fs
    ensures !panic ==> Settled(fs) && !L.Counted(Nodes(fs))
  {
    panic, d := MakeAndRemove(fs, dp, name);
    if !panic {
      panic := CreateThere(fs, d, inner, typ);
    }
  }

  method CreateThere(fs: FileSystem, d: nat, name: seq<Byte>, typ: nat) returns (panic: bool)
    requires Settled(fs) && L.Counted(Nodes(fs)) && d < |fs.inodes| && fs.inodes[d].typ == T_DIR && typ != 0
    requires Nodes(fs)[d].nlink == 0 && L.DirEmpty(Nodes(fs)[d].dir) && !L.IsDot(D.Canon(name))
    modifies fs
    ensures !panic ==> Settled(fs) && !L.Counted(Nodes(fs))
  {
    var r;
    panic, r := Create(fs, d, name, typ);
  }

  /** A directory just made can be removed again. */
  lemma {:induction false} NewIsEmpty(s: L.Nodes, d: nat, dp: nat, n: L.Name)
    requires L.LinkedDir(s, dp) && d < |s| && d != dp && n !in s[dp].dir && !L.IsDot(n)
    ensures var made := L.Entered(L.Fresh(s, d, T_DIR, dp), dp, n, d);
            && L.CanRemove(made, dp, n) && made[dp].dir[n] == d
            && L.Removed(made, dp, n)[d] == L.Node(T_DIR, 0, map[L.DOT := d, L.DOTDOT := dp])
  {
    var made := L.Entered(L.Fresh(s, d, T_DIR, dp), dp, n, d);
    assert made[d] == L.Node(T_DIR, 1, map[L.DOT := d, L.DOTDOT := dp]);
  }

  lemma {:induction false} NotDots(s: L.Nodes, dp: nat, n: L.Name)
    requires L.Counted(s) && L.LinkedDir(s, dp) && n !in s[dp].dir
    ensures !L.IsDot(n)
  {
    var home :| L.Consistent(s, home);
    assert L.DirOk(s, dp);
  }

  method MakeAndRemove(fs: FileSystem, dp: nat, name: seq<Byte>) returns (panic: bool, d: nat)
    requires Settled(fs) && L.Counted(Nodes(fs)) && dp < |fs.inodes|
    requires L.LinkedDir(Nodes(fs), dp) && D.Canon(name) !in Nodes(fs)[dp].dir
    modifies fs
    ensures !panic ==>
              && Settled(fs) && L.Counted(Nodes(fs)) && d < |fs.inodes|
              && fs.inodes[d].typ == T_DIR && Nodes(fs)[d].nlink == 0 && L.DirEmpty(Nodes(fs)[d].dir)
  {
    ghost var s := Nodes(fs);
    NotDots(s, dp, D.Canon(name));
    var r;
    panic, r := Create(fs, dp, name, T_DIR);
    d := 0;
    if panic {
      return;
    }
    d := r.value;
    NewIsEmpty(s, d, dp, D.Canon(name));
    panic := RemoveNew(fs, dp, name, d, Nodes(fs));
  }

  method RemoveNew(fs: FileSystem, dp: nat, name: seq<Byte>, ghost d: nat, ghost s: L.Nodes) returns (panic: bool)
    requires Settled(fs) && Nodes(fs) == s && L.Counted(s) && dp < |s| && s[dp].typ == T_DIR && d < |s| && d != dp
    requires L.CanRemove(s, dp, D.Canon(name)) && s[dp].dir[D.Canon(name)] == d
    requires L.Removed(s, dp, D.Canon(name))[d].nlink == 0 && s[d].typ == T_DIR && L.DirEmpty(s[d].dir)
    modifies fs
    ensures !panic && Settled(fs) && L.Counted(Nodes(fs)) && d < |fs.inodes|
    ensures fs.inodes[d].typ == T_DIR && Nodes(fs)[d].nlink == 0 && L.DirEmpty(Nodes(fs)[d].dir)
  {
    var r;
    panic, r := Unlink(fs, dp, name);
  }
}
