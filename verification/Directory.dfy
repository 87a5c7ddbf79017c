/** dirlookup and dirlink of fs.c, and the erasing write of sys_unlink, on directories stored in
    inodes. */
module Directory {
  import opened Options
  import opened FsBlocks
  import opened FsOwner
  import opened FsImage
  import opened FileSystem
  import opened Stat
  import opened DirContent

  /** An entry inside the bytes read from its offset. */
  lemma {:induction false} EntryRead(c: seq<Byte>, off: nat)
    requires off % ENTRY == 0 && off + ENTRY <= |c|
    ensures var e, k := c[off..off + ENTRY], off / ENTRY;
            k < Count(c) && Inum(c, k) == Inum(e, 0) && Name(c, k) == Name(e, 0)
  {
    var e, k := c[off..off + ENTRY], off / ENTRY;
    assert ENTRY * k == off;
    assert c[off + 2..off + ENTRY] == e[2..ENTRY];
  }

  lemma {:induction false} EntryWritten(c: seq<Byte>, off: nat, e: seq<Byte>, k: nat, j: nat)
    requires |c| % ENTRY == 0 && off == ENTRY * k && off <= |c| && |e| == ENTRY && j < Count(Overwritten(c, off, e))
    ensures j == k ==> Inum(Overwritten(c, off, e), k) == Inum(e, 0) && Name(Overwritten(c, off, e), k) == Name(e, 0)
    ensures j != k ==> j < Count(c) && SameEntry(c, Overwritten(c, off, e), j)
  {
    var c' := Overwritten(c, off, e);
    if j == k {
      assert c'[ENTRY * k..ENTRY * k + ENTRY] == e;
      EntryRead(c', off);
    } else {
      assert ENTRY * j + ENTRY <= off || ENTRY * j >= off + ENTRY;
      assert c'[ENTRY * j + 2..ENTRY * j + ENTRY] == c[ENTRY * j + 2..ENTRY * j + ENTRY];
    }
  }

  lemma {:induction false} WriteReplaces(c: seq<Byte>, off: nat, e: seq<Byte>, k: nat, inum: nat, name: seq<Byte>)
    requires |c| % ENTRY == 0 && off == ENTRY * k && off <= |c| && |e| == ENTRY
    requires Inum(e, 0) == inum && (inum != 0 ==> Name(e, 0) == Canon(name))
    ensures Replaces(c, Overwritten(c, off, e), k, inum, name)
  {
    var c' := Overwritten(c, off, e);
    assert |c'| == if off + ENTRY > |c| then off + ENTRY else |c|;
    EntryWritten(c, off, e, k, k);
    forall j | 0 <= j < Count(c) && j != k ensures SameEntry(c, c', j) {
      EntryWritten(c, off, e, k, j);
    }
  }

  lemma {:induction false} EntryParts(inum: nat, name: seq<Byte>)
    requires inum < USHORT
    ensures Inum(Entry(inum, name), 0) == inum && Name(Entry(inum, name), 0) == Canon(name)
  {
    CanonPadded(name);
    assert Entry(inum, name)[2..ENTRY] == Padded(name);
  }

  lemma {:induction false} Offset(k: nat, n: nat)
    ensures ENTRY * k / ENTRY == k && ENTRY * k % ENTRY == 0
    ensures ENTRY * k < n < ENTRY * k + ENTRY ==> n % ENTRY != 0
    ensures ENTRY * k + ENTRY <= n ==> k < n / ENTRY
  {
  }

  /** Entry k, read through readi; a panic if the directory ends inside it. */
  method ReadEntry(fs: FileSystem, i: nat, off: nat, ghost k: nat) returns (panic: bool, inum: nat, name: seq<Byte>)
    requires fs.Valid() && i < |fs.inodes| && fs.NoHoles(i) && fs.inodes[i].typ == T_DIR
    requires off == ENTRY * k && off < fs.inodes[i].size
    modifies fs`bitmap, fs`blocks, fs`inodes, fs`refs, fs`owner
    ensures unchanged(fs)
    ensures panic <==> off + ENTRY > fs.inodes[i].size
    ensures !panic ==> k < Count(fs.Data(i)) && inum == Inum(fs.Data(i), k) && name == Name(fs.Data(i), k)
  {
    ghost var c := fs.Data(i);
    var de;
    panic, de := fs.Readi(i, off, ENTRY);
    if de == None || |de.value| != ENTRY {
      return true, 0, [];
    }
    assert off + ENTRY <= |c|;
    EntryRead(c, off);
    Offset(k, |c|);
    inum, name := Inum(de.value, 0), Name(de.value, 0);
  }

  /** The inode number and the offset of the entry with the given name. */
  method Dirlookup(fs: FileSystem, i: nat, name: seq<Byte>) returns (panic: bool, r: Option<(nat, nat)>)
    requires fs.Valid() && i < |fs.inodes| && fs.NoHoles(i)
    modifies fs`bitmap, fs`blocks, fs`inodes, fs`refs, fs`owner
    ensures unchanged(fs)
    ensures fs.inodes[i].typ != T_DIR ==> panic
    ensures fs.inodes[i].typ == T_DIR && WellFormed(fs.Data(i)) ==>
              && !panic
              && (r == None <==> Canon(name) !in DirContent.Directory(fs.Data(i)))
              && (r.Some? ==> r.value.0 == DirContent.Directory(fs.Data(i))[Canon(name)])
    ensures !panic && r.Some? ==>
              var k := r.value.1 / ENTRY;
              && r.value.1 == ENTRY * k && k < Count(fs.Data(i)) && r.value.0 == Inum(fs.Data(i), k)
              && Live(fs.Data(i), k, Canon(name)) && Missing(fs.Data(i), k, Canon(name))
    ensures !panic && r == None ==> Missing(fs.Data(i), Count(fs.Data(i)), Canon(name))
  {
    r := None;
    if fs.inodes[i].typ != T_DIR {
      return true, None;
    }
    panic := false;
    ghost var c := fs.Data(i);
    var off := 0;
    ghost var k := 0;
    while off < fs.inodes[i].size && !panic
      invariant unchanged(fs) && c == fs.Data(i) && off == ENTRY * k && k <= Count(c)
      invariant panic ==> |c| % ENTRY != 0
      invariant Missing(c, k, Canon(name))
      decreases |c| - off, !panic
    {
      var inum, entry;
      panic, inum, entry := ReadEntry(fs, i, off, k);
      Offset(k, |c|);
      if !panic {
        if inum != 0 && entry == Canon(name) {
          FoundEntry(c, k, Canon(name));
          return false, Some((inum, off));
        }
        MissingMore(c, k, Canon(name));
        off, k := off + ENTRY, k + 1;
      }
    }
    if !panic { NotFound(c, k, Canon(name)); }
  }

  /** None of the first n entries carries the name. */
  ghost predicate Missing(c: seq<Byte>, n: nat, name: seq<Byte>)
    requires n <= Count(c)
  {
    forall k | 0 <= k < n :: !Live(c, k, name)
  }

  lemma {:induction false} MissingMore(c: seq<Byte>, n: nat, name: seq<Byte>)
    requires n < Count(c) && Missing(c, n, name) && !(Inum(c, n) != 0 && Name(c, n) == name)
    ensures Missing(c, n + 1, name)
  {
    assert !Live(c, n, name);
  }

  lemma {:induction false} FoundEntry(c: seq<Byte>, k: nat, name: seq<Byte>)
    requires k < Count(c) && Live(c, k, name)
    ensures WellFormed(c) ==> name in DirContent.Directory(c) && DirContent.Directory(c)[name] == Inum(c, k)
  {
    if WellFormed(c) { InumOf(c, name, k); }
  }

  lemma {:induction false} NotFound(c: seq<Byte>, n: nat, name: seq<Byte>)
    requires n <= Count(c) && ENTRY * n >= |c| && Missing(c, n, name)
    ensures WellFormed(c) ==> name !in DirContent.Directory(c)
  {
    if WellFormed(c) && name in DirContent.Directory(c) {
      var k := NameOf(c, name);
    }
  }

  /** The first free entry, or the end of the directory if none is free. */
  method FreeEntry(fs: FileSystem, i: nat) returns (off: nat)
    requires fs.Valid() && i < |fs.inodes| && fs.NoHoles(i) && fs.inodes[i].typ == T_DIR && |fs.Data(i)| % ENTRY == 0
    modifies fs`bitmap, fs`blocks, fs`inodes, fs`refs, fs`owner
    ensures unchanged(fs)
    ensures off % ENTRY == 0 && off <= fs.inodes[i].size
    ensures off < fs.inodes[i].size ==> off / ENTRY < Count(fs.Data(i)) && Inum(fs.Data(i), off / ENTRY) == 0
    ensures off == fs.inodes[i].size ==> off / ENTRY == Count(fs.Data(i))
    ensures Taken(fs.Data(i), off / ENTRY)
  {
    off := 0;
    ghost var c, k := fs.Data(i), 0;
    while off < fs.inodes[i].size
      invariant unchanged(fs) && c == fs.Data(i) && off == ENTRY * k && off <= |c| && k == off / ENTRY
      invariant Taken(c, k)
    {
      Offset(k, |c|);
      var panic, inum, name := ReadEntry(fs, i, off, k);
      if inum == 0 {
        return;
      }
      off, k := off + ENTRY, k + 1;
      Offset(k, |c|);
    }
  }

  /** Adds the name, unless it is there, in the first free entry; only if none is free does the directory
      grow, for which there may be no room. */
  method Dirlink(fs: FileSystem, i: nat, name: seq<Byte>, inum: nat) returns (panic: bool, r: int)
    requires fs.Valid() && i < |fs.inodes| && fs.NoHoles(i) && fs.inodes[i].typ == T_DIR && WellFormed(fs.Data(i))
    requires 0 < inum < USHORT
    modifies fs
    ensures fs.Valid() && |fs.inodes| == |old(fs.inodes)|
    ensures panic ==> old(Taken(fs.Data(i), Count(fs.Data(i))))
    ensures panic ==> old(|fs.Data(i)|) + ENTRY > MAXBYTES || forall c | 0 <= c < |fs.blocks| :: fs.owner[c] != Free
    ensures !panic ==> fs.uses == old(fs.uses) && fs.loaded == old(fs.loaded)
    ensures !panic ==> r == 0 || r == -1
    ensures !panic ==> (r == -1 <==> Canon(name) in old(DirContent.Directory(fs.Data(i))))
    ensures !panic && r == -1 ==> unchanged(fs)
    ensures !panic && r == 0 ==> WellFormed(fs.Data(i))
    ensures !panic && r == 0 ==> exists k: nat :: Adds(old(fs.Data(i)), fs.Data(i), k, inum, name)
    ensures !panic && r == 0 ==>
              DirContent.Directory(fs.Data(i)) == old(DirContent.Directory(fs.Data(i)))[Canon(name) := inum]
    ensures !panic ==> |fs.refs| == |old(fs.refs)| && forall j | 0 <= j < |fs.inodes| && j != i ::
              fs.inodes[j] == old(fs.inodes[j]) && fs.refs[j] == old(fs.refs)[j] && fs.Data(j) == old(fs.Data(j))
    ensures !panic ==> fs.inodes[i].typ == T_DIR && fs.inodes[i].nlink == old(fs.inodes[i].nlink)
    ensures !panic ==> forall j | 0 <= j < |fs.inodes| && old(fs.NoHoles(j)) :: fs.NoHoles(j)
    ensures !panic && old(fs.Synced()) ==> fs.Synced()
  {
    var found;
    panic, found := Dirlookup(fs, i, name);
    if found != None {
      return false, -1;
    }
    var off := FreeEntry(fs, i);
    ghost var c := fs.Data(i);
    var n;
    panic, n := fs.Writei(i, Entry(inum, name), off);
    if n == -1 {
      panic := true;
    }
    r := 0;
    if !panic {
      EntryParts(inum, name);
      WriteReplaces(c, off, Entry(inum, name), off / ENTRY, inum, name);
      AddEntry(c, fs.Data(i), off / ENTRY, inum, name);
      assert Adds(c, fs.Data(i), off / ENTRY, inum, name);
    }
  }

  /** sys_unlink's write of a zeroed entry over the one dirlookup found. */
  method EraseEntry(fs: FileSystem, i: nat, off: nat) returns (panic: bool)
    requires fs.Valid() && i < |fs.inodes| && fs.NoHoles(i) && fs.inodes[i].typ == T_DIR && WellFormed(fs.Data(i))
    requires off % ENTRY == 0 && off / ENTRY < Count(fs.Data(i)) && Inum(fs.Data(i), off / ENTRY) != 0
    modifies fs
    ensures !panic && fs.Valid() && |fs.inodes| == |old(fs.inodes)|
    ensures fs.uses == old(fs.uses) && fs.loaded == old(fs.loaded)
    ensures WellFormed(fs.Data(i)) && Replaces(old(fs.Data(i)), fs.Data(i), off / ENTRY, 0, [])
    ensures off + ENTRY <= |old(fs.Data(i))| == |fs.Data(i)|
    ensures fs.Data(i)
         == old(fs.Data(i))[..off] + seq<Byte>(ENTRY, _ => 0) + old(fs.Data(i))[off + ENTRY..]
    ensures DirContent.Directory(fs.Data(i))
                       == old(DirContent.Directory(fs.Data(i))) - {old(Name(fs.Data(i), off / ENTRY))}
    ensures |fs.refs| == |old(fs.refs)| && forall j | 0 <= j < |fs.inodes| && j != i ::
              fs.inodes[j] == old(fs.inodes[j]) && fs.refs[j] == old(fs.refs)[j] && fs.Data(j) == old(fs.Data(j))
    ensures fs.inodes[i].typ == T_DIR && fs.inodes[i].nlink == old(fs.inodes[i].nlink)
    ensures forall j | 0 <= j < |fs.inodes| && old(fs.NoHoles(j)) :: fs.NoHoles(j)
    ensures old(fs.Synced()) ==> fs.Synced()
  {
    ghost var c := fs.Data(i);
    var zeros: seq<Byte> := seq(ENTRY, _ => 0);
    var n;
    panic, n := fs.Writei(i, zeros, off);
    WriteReplaces(c, off, zeros, off / ENTRY, 0, []);
    RemoveEntry(c, fs.Data(i), off / ENTRY);
    panic := panic || n != ENTRY;
  }

  /** isdirempty of sysfile.c: no entry in use after the first two. */
  method Isdirempty(fs: FileSystem, i: nat) returns (empty: bool)
    requires fs.Valid() && i < |fs.inodes| && fs.NoHoles(i) && fs.inodes[i].typ == T_DIR
    requires WellFormed(fs.Data(i)) && StartsWithDots(fs.Data(i))
    modifies fs`bitmap, fs`blocks, fs`inodes, fs`refs, fs`owner
    ensures unchanged(fs)
    ensures empty <==> DirContent.Directory(fs.Data(i)).Keys == {DOT, DOTDOT}
  {
    ghost var c, k := fs.Data(i), 2;
    OnlyDots(c);
    var off := 2 * ENTRY;
    while off < fs.inodes[i].size
      invariant unchanged(fs) && c == fs.Data(i) && off == ENTRY * k && 2 <= k <= Count(c)
      invariant FreeAfterDots(c, k)
    {
      var panic, inum, name := ReadEntry(fs, i, off, k);
      Offset(k, |c|);
      FreeOneMore(c, k);
      if inum != 0 {
        return false;
      }
      off, k := off + ENTRY, k + 1;
    }
    empty := true;
  }
}
