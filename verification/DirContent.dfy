/** The bytes of a directory: 16-byte entries of a 16-bit inode number and a name of at most 14
    bytes, as a finite map from names to inode numbers. */
module DirContent {
  import opened Options
  import opened FsBlocks

  const DIRSIZ: nat := 14
  const ENTRY: nat := 16
  const USHORT: nat := 0x1_0000

  /** A C string cut to its first n characters. */
  function Cut(s: seq<Byte>, n: nat): (r: seq<Byte>)
    ensures |r| <= n && |r| <= |s| && r == s[..|r|] && 0 !in r
    ensures |r| < n && |r| < |s| ==> s[|r|] == 0
  {
    if n == 0 || s == [] || s[0] == 0 then [] else [s[0]] + Cut(s[1..], n - 1)
  }

  /** What namecmp compares: names are equal when this part is. */
  function Canon(name: seq<Byte>): seq<Byte> {
    Cut(name, DIRSIZ)
  }

  /** strncpy(de.name, name, DIRSIZ) */
  function Padded(name: seq<Byte>): (r: seq<Byte>)
    ensures |r| == DIRSIZ
  {
    Canon(name) + seq(DIRSIZ - |Canon(name)|, _ => 0)
  }

  lemma {:induction false} CutOf(s: seq<Byte>, c: seq<Byte>, n: nat)
    requires |c| <= n && |c| <= |s| && c == s[..|c|] && 0 !in c && (|c| < n && |c| < |s| ==> s[|c|] == 0)
    ensures Cut(s, n) == c
  {
    if c != [] {
      assert s[0] == c[0];
      CutOf(s[1..], c[1..], n - 1);
      assert [c[0]] + c[1..] == c;
    }
  }

  lemma {:induction false} CanonPadded(name: seq<Byte>)
    ensures Canon(Padded(name)) == Canon(name)
  {
    CutOf(Padded(name), Canon(name), DIRSIZ);
  }

  // ----- entries -----

  function Inum(c: seq<Byte>, k: nat): nat
    requires ENTRY * k + ENTRY <= |c|
  {
    var lo: nat, hi: nat := c[ENTRY * k], c[ENTRY * k + 1];
    lo + 0x100 * hi
  }

  function Name(c: seq<Byte>, k: nat): seq<Byte>
    requires ENTRY * k + ENTRY <= |c|
  {
    Canon(c[ENTRY * k + 2..ENTRY * k + ENTRY])
  }

  function Entry(inum: nat, name: seq<Byte>): (e: seq<Byte>)
    requires inum < USHORT
    ensures |e| == ENTRY
  {
    [inum % 0x100, inum / 0x100] + Padded(name)
  }

  function Count(c: seq<Byte>): nat {
    |c| / ENTRY
  }

  /** The map that the first n entries stand for; inode number 0 marks a free entry. */
  function Names(c: seq<Byte>, n: nat): map<seq<Byte>, nat>
    requires n <= Count(c)
  {
    if n == 0 then map[]
    else if Inum(c, n - 1) == 0 then Names(c, n - 1)
    else Names(c, n - 1)[Name(c, n - 1) := Inum(c, n - 1)]
  }

  ghost predicate Distinct(c: seq<Byte>) {
    forall j, k | 0 <= j < Count(c) && 0 <= k < Count(c) && j != k :: Differ(c, j, k)
  }

  ghost predicate Differ(c: seq<Byte>, j: nat, k: nat)
    requires j < Count(c) && k < Count(c)
  {
    Inum(c, j) != 0 && Inum(c, k) != 0 ==> Name(c, j) != Name(c, k)
  }

  /** A directory's bytes: whole entries, and no live name twice. */
  ghost predicate WellFormed(c: seq<Byte>) {
    |c| % ENTRY == 0 && Distinct(c)
  }

  function Directory(c: seq<Byte>): map<seq<Byte>, nat> {
    Names(c, Count(c))
  }

  predicate Live(c: seq<Byte>, k: nat, name: seq<Byte>)
    requires k < Count(c)
  {
    Inum(c, k) != 0 && Name(c, k) == name
  }

  lemma {:induction false} NamesIs(c: seq<Byte>, n: nat, name: seq<Byte>)
    requires Distinct(c) && n <= Count(c)
    ensures name in Names(c, n) <==> exists k :: 0 <= k < n && Live(c, k, name)
    ensures forall k | 0 <= k < n && Live(c, k, name) :: name in Names(c, n) && Names(c, n)[name] == Inum(c, k)
  {
    if n > 0 {
      NamesIs(c, n - 1, name);
      forall k | 0 <= k < n && Live(c, k, name) ensures name in Names(c, n) && Names(c, n)[name] == Inum(c, k) {
        if k < n - 1 { assert Differ(c, k, n - 1); }
      }
      if name in Names(c, n) && name !in Names(c, n - 1) { assert Live(c, n - 1, name); }
    }
  }

  lemma {:induction false} NameOf(c: seq<Byte>, name: seq<Byte>) returns (k: nat)
    requires Distinct(c) && name in Directory(c)
    ensures k < Count(c) && Live(c, k, name) && Directory(c)[name] == Inum(c, k)
  {
    NamesIs(c, Count(c), name);
    k :| 0 <= k < Count(c) && Live(c, k, name);
  }

  lemma {:induction false} InumOf(c: seq<Byte>, name: seq<Byte>, k: nat)
    requires Distinct(c) && k < Count(c) && Live(c, k, name)
    ensures name in Directory(c) && Directory(c)[name] == Inum(c, k)
  {
    NamesIs(c, Count(c), name);
  }

  // ----- changing one entry -----

  /** c with entry k replaced, or appended. */
  ghost predicate Replaces(c: seq<Byte>, c': seq<Byte>, k: nat, inum: nat, name: seq<Byte>) {
    && |c| % ENTRY == 0 && |c'| % ENTRY == 0 && Count(c') == (if k < Count(c) then Count(c) else Count(c) + 1)
    && k < Count(c') && Inum(c', k) == inum && (inum != 0 ==> Name(c', k) == Canon(name))
    && forall j | 0 <= j < Count(c) && j != k :: SameEntry(c, c', j)
  }

  /** The first k entries are in use. */
  ghost predicate Taken(c: seq<Byte>, k: nat) {
    k <= Count(c) && forall j | 0 <= j < k :: Inum(c, j) != 0
  }

  /** c with a new entry in the first free place, or appended if there is none. */
  ghost predicate Adds(c: seq<Byte>, c': seq<Byte>, k: nat, inum: nat, name: seq<Byte>) {
    Replaces(c, c', k, inum, name) && inum != 0 && Taken(c, k) && (k < Count(c) ==> Inum(c, k) == 0)
  }

  ghost predicate SameEntry(c: seq<Byte>, c': seq<Byte>, j: nat)
    requires j < Count(c) && j < Count(c')
  {
    Inum(c', j) == Inum(c, j) && Name(c', j) == Name(c, j)
  }

  /** A new entry under a new name, in a free slot or at the end, adds exactly that name. */
  lemma {:induction false} AddEntry(c: seq<Byte>, c': seq<Byte>, k: nat, inum: nat, name: seq<Byte>)
    requires WellFormed(c) && Replaces(c, c', k, inum, name) && inum != 0 && Canon(name) !in Directory(c)
    requires k < Count(c) ==> Inum(c, k) == 0
    ensures WellFormed(c') && Directory(c') == Directory(c)[Canon(name) := inum]
  {
    NamesIs(c, Count(c), Canon(name));
    forall i, j | 0 <= i < Count(c') && 0 <= j < Count(c') && i != j ensures Differ(c', i, j) {
      if i != k { assert SameEntry(c, c', i); }
      if j != k { assert SameEntry(c, c', j); }
      if i != k && j != k {
        assert Differ(c, i, j);
      } else {
        var o := if i == k then j else i;
        assert Inum(c, o) != 0 ==> Live(c, o, Name(c, o));
      }
    }
    forall n ensures n in Directory(c') <==> n in Directory(c) || n == Canon(name) {
      AddEntryOne(c, c', k, inum, name, n);
    }
    forall n | n in Directory(c') ensures Directory(c')[n] == Directory(c)[Canon(name) := inum][n] {
      AddEntryOne(c, c', k, inum, name, n);
    }
  }

  lemma {:induction false} AddEntryOne(c: seq<Byte>, c': seq<Byte>, k: nat, inum: nat, name: seq<Byte>, n: seq<Byte>)
    requires WellFormed(c) && WellFormed(c') && Replaces(c, c', k, inum, name)
    requires inum != 0 && Canon(name) !in Directory(c)
    requires k < Count(c) ==> Inum(c, k) == 0
    ensures n in Directory(c') <==> n in Directory(c) || n == Canon(name)
    ensures n in Directory(c') ==> Directory(c')[n] == Directory(c)[Canon(name) := inum][n]
  {
    if n in Directory(c') {
      var j := NameOf(c', n);
      if j != k {
        assert SameEntry(c, c', j);
        InumOf(c, n, j);
      }
    }
    if n in Directory(c) {
      var j := NameOf(c, n);
      assert SameEntry(c, c', j);
      InumOf(c', n, j);
    }
    if n == Canon(name) { InumOf(c', n, k); }
  }

  /** Clearing the live entry of a name takes exactly that name away. */
  lemma {:induction false} RemoveEntry(c: seq<Byte>, c': seq<Byte>, k: nat)
    requires WellFormed(c) && Replaces(c, c', k, 0, []) && k < Count(c) && Inum(c, k) != 0
    ensures WellFormed(c') && Directory(c') == Directory(c) - {Name(c, k)}
  {
    forall i, j | 0 <= i < Count(c') && 0 <= j < Count(c') && i != j ensures Differ(c', i, j) {
      if i != k && j != k { assert SameEntry(c, c', i) && SameEntry(c, c', j) && Differ(c, i, j); }
    }
    forall n ensures n in Directory(c') <==> n in Directory(c) && n != Name(c, k) {
      RemoveEntryOne(c, c', k, n);
    }
    forall n | n in Directory(c') ensures Directory(c')[n] == Directory(c)[n] {
      RemoveEntryOne(c, c', k, n);
    }
  }

  lemma {:induction false} RemoveEntryOne(c: seq<Byte>, c': seq<Byte>, k: nat, n: seq<Byte>)
    requires WellFormed(c) && WellFormed(c') && Replaces(c, c', k, 0, []) && k < Count(c) && Inum(c, k) != 0
    ensures n in Directory(c') <==> n in Directory(c) && n != Name(c, k)
    ensures n in Directory(c') ==> Directory(c')[n] == Directory(c)[n]
  {
    if n in Directory(c') {
      var j := NameOf(c', n);
      assert SameEntry(c, c', j) && Differ(c, j, k);
      InumOf(c, n, j);
    }
    if n in Directory(c) && n != Name(c, k) {
      var j := NameOf(c, n);
      assert SameEntry(c, c', j);
      InumOf(c', n, j);
    }
  }

  const DOT: seq<Byte> := [46]
  const DOTDOT: seq<Byte> := [46, 46]

  /** A directory as create leaves it: "." and ".." come first. */
  ghost predicate StartsWithDots(c: seq<Byte>) {
    Count(c) >= 2 && Live(c, 0, DOT) && Live(c, 1, DOTDOT)
  }

  lemma {:induction false} EmptyWellFormed()
    ensures WellFormed([]) && Directory([]) == map[]
  {
  }

  /** Entries come and go behind the dots. */
  lemma {:induction false} DotsStay(c: seq<Byte>, c': seq<Byte>, k: nat, inum: nat, name: seq<Byte>)
    requires StartsWithDots(c) && Replaces(c, c', k, inum, name)
    requires k < Count(c) ==> Inum(c, k) == 0 || (Name(c, k) != DOT && Name(c, k) != DOTDOT)
    ensures StartsWithDots(c')
  {
    assert SameEntry(c, c', 0) && SameEntry(c, c', 1);
  }

  lemma {:induction false} DotsCanon()
    ensures Canon(DOT) == DOT && Canon(DOTDOT) == DOTDOT
  {
    CutOf(DOT, DOT, DIRSIZ);
    CutOf(DOTDOT, DOTDOT, DIRSIZ);
  }

  /** The first entry of a new directory, and its only one. */
  lemma {:induction false} DotFirst(c: seq<Byte>, k: nat, self: nat)
    requires Adds([], c, k, self, DOT)
    ensures |c| == ENTRY && Live(c, 0, DOT)
  {
    DotsCanon();
  }

  /** The second entry of a new directory goes behind the first. */
  lemma {:induction false} DotsFollow(c: seq<Byte>, c': seq<Byte>, k: nat, parent: nat)
    requires Count(c) == 1 && Live(c, 0, DOT) && Adds(c, c', k, parent, DOTDOT)
    ensures StartsWithDots(c')
  {
    DotsCanon();
    assert SameEntry(c, c', 0);
  }

  /** Entries 2 to n - 1 are free. */
  ghost predicate FreeAfterDots(c: seq<Byte>, n: nat)
    requires n <= Count(c)
  {
    forall k | 2 <= k < n :: Inum(c, k) == 0
  }

  lemma {:induction false} FreeOneMore(c: seq<Byte>, n: nat)
    requires n < Count(c) && FreeAfterDots(c, n)
    ensures Inum(c, n) == 0 ==> FreeAfterDots(c, n + 1)
    ensures 2 <= n && Inum(c, n) != 0 ==> !FreeAfterDots(c, Count(c))
  {
  }

  /** Having nothing but free entries after the first two is having no names but "." and "..". */
  lemma {:induction false} OnlyDots(c: seq<Byte>)
    requires WellFormed(c) && StartsWithDots(c)
    ensures FreeAfterDots(c, Count(c)) <==> Directory(c).Keys == {DOT, DOTDOT}
  {
    InumOf(c, DOT, 0);
    InumOf(c, DOTDOT, 1);
    if FreeAfterDots(c, Count(c)) {
      forall n | n in Directory(c) ensures n == DOT || n == DOTDOT {
        var k := NameOf(c, n);
      }
    }
    if Directory(c).Keys == {DOT, DOTDOT} {
      forall k | 2 <= k < Count(c) ensures Inum(c, k) == 0 {
        assert Differ(c, 0, k) && Differ(c, 1, k);
        if Inum(c, k) != 0 { InumOf(c, Name(c, k), k); }
      }
    }
  }
}
