/** fs.c: block allocation, block mapping, truncation, reading and writing of inodes. */
module FileSystem {
  import opened Options
  import opened FsBlocks
  import opened FsOwner
  import opened FsImage
  import opened Stat

  const ZEROS: Block := seq(BSIZE, _ => 0)

  ghost predicate SizesOk(inodes: Inodes) {
    forall i | 0 <= i < |inodes| :: inodes[i].size <= MAXBYTES
  }

  /** Pointer k of an inode leads to one of the blocks lo .. hi of its file, or to the indirect block
      when one of them needs it. */
  predicate Leads(k: nat, lo: nat, hi: nat) {
    lo < hi && (k < NDIRECT ==> lo <= k < hi) && (k == NDIRECT ==> NDIRECT < hi) && (k > NDIRECT ==> lo <= k - 1 < hi)
  }

  /** refs' has new pointers for blocks lo .. hi of inode i and differs in nothing else: a pointer once
      set stays. */
  ghost predicate Grows(refs: Refs, refs': Refs, i: nat, lo: nat, hi: nat) {
    && Shape(refs, |refs|) && Shape(refs', |refs|) && i < |refs| && refs' == refs[i := refs'[i]]
    && forall k | 0 <= k < SLOTS :: KeepsRef(refs, refs', i, k, lo, hi)
  }

  ghost predicate KeepsRef(refs: Refs, refs': Refs, i: nat, k: nat, lo: nat, hi: nat)
    requires i < |refs| == |refs'| && k < SLOTS == |refs[i]| == |refs'[i]|
  {
    refs'[i][k] == refs[i][k] || (refs[i][k] == 0 && Leads(k, lo, hi))
  }

  /** One past the last block that n bytes from off on touch. */
  function BlocksEnd(off: nat, n: nat): nat {
    if n == 0 then off / BSIZE else (off + n - 1) / BSIZE + 1
  }

  /** inodes' differs from inodes at most in the block pointers of inode i. */
  ghost predicate OnlyAddrs(inodes: Inodes, inodes': Inodes, i: nat) {
    i < |inodes| == |inodes'| && inodes' == inodes[i := inodes[i].(addrs := inodes'[i].addrs)]
  }

  /** All blocks of the file's first n bytes are there. */
  ghost predicate Filled(refs: Refs, i: nat, n: nat)
    requires i < |refs| && |refs[i]| == SLOTS && n <= MAXBYTES
  {
    forall bn | 0 <= bn < MAXFILE :: bn * BSIZE < n ==> HasBlock(refs, i, bn)
  }

  ghost predicate HasBlock(refs: Refs, i: nat, bn: nat)
    requires i < |refs| && |refs[i]| == SLOTS && bn < MAXFILE
  {
    refs[i][Slot0(bn)] != 0
  }

  lemma {:induction false} MapsTwice(refs0: Refs, blocks0: seq<Block>, inodes0: Inodes, refs1: Refs,
                                     blocks1: seq<Block>,
                                     inodes1: Inodes, refs2: Refs, blocks2: seq<Block>, inodes2: Inodes, i: nat,
                                     lo: nat, hi: nat, lo1: nat, hi1: nat, hi2: nat)
    requires SameBytes(refs0, blocks0, refs1, blocks1) && OnlyAddrs(inodes0, inodes1, i)
    requires SameBytes(refs1, blocks1, refs2, blocks2) && OnlyAddrs(inodes1, inodes2, i)
    requires Grows(refs0, refs1, i, lo, hi) && Grows(refs1, refs2, i, lo1, hi1)
    requires lo <= lo1 && hi <= hi2 && hi1 <= hi2
    ensures SameBytes(refs0, blocks0, refs2, blocks2) && OnlyAddrs(inodes0, inodes2, i)
    ensures Grows(refs0, refs2, i, lo, hi2)
  {
    forall j, x | 0 <= j < |refs0| && 0 <= x < MAXBYTES ensures SameByte(refs0, blocks0, refs2, blocks2, j, x) {
      assert SameByte(refs0, blocks0, refs1, blocks1, j, x) && SameByte(refs1, blocks1, refs2, blocks2, j, x);
    }
    GrowsTwice(refs0, refs1, refs2, i, lo, hi, lo1, hi1, hi2);
  }

  lemma {:induction false} GrowsTwice(refs0: Refs, refs1: Refs, refs2: Refs, i: nat, lo: nat, hi: nat,
                                      lo1: nat, hi1: nat, hi2: nat)
    requires Grows(refs0, refs1, i, lo, hi) && Grows(refs1, refs2, i, lo1, hi1)
    requires lo <= lo1 && hi <= hi2 && hi1 <= hi2
    ensures Grows(refs0, refs2, i, lo, hi2)
  {
    forall k | 0 <= k < SLOTS ensures KeepsRef(refs0, refs2, i, k, lo, hi2) {
      assert KeepsRef(refs0, refs1, i, k, lo, hi) && KeepsRef(refs1, refs2, i, k, lo1, hi1);
    }
  }

  lemma {:induction false} GrowsOne(refs: Refs, i: nat, k: nat, b: nat, lo: nat, hi: nat)
    requires Shape(refs, |refs|) && i < |refs| && k < SLOTS && refs[i][k] == 0 && Leads(k, lo, hi)
    ensures Grows(refs, Assigned(refs, i, k, b), i, lo, hi)
  {
    forall l | 0 <= l < SLOTS ensures KeepsRef(refs, Assigned(refs, i, k, b), i, l, lo, hi) {
    }
  }

  lemma {:induction false} MapsNothing(refs: Refs, blocks: seq<Block>, inodes: Inodes, i: nat, lo: nat, hi: nat)
    requires Shape(refs, |refs|) && i < |inodes| == |refs|
    ensures SameBytes(refs, blocks, refs, blocks) && Grows(refs, refs, i, lo, hi) && OnlyAddrs(inodes, inodes, i)
  {
    forall j, x | 0 <= j < |refs| && 0 <= x < MAXBYTES ensures SameByte(refs, blocks, refs, blocks, j, x) {
    }
  }

  lemma {:induction false} GrowsWider(refs: Refs, refs': Refs, i: nat, lo: nat, hi: nat, hi': nat)
    requires Grows(refs, refs', i, lo, hi) && hi <= hi'
    ensures Grows(refs, refs', i, lo, hi')
  {
    forall k | 0 <= k < SLOTS ensures KeepsRef(refs, refs', i, k, lo, hi') {
      assert KeepsRef(refs, refs', i, k, lo, hi);
    }
  }

  /** The block of byte x of the n bytes from off on is one of those they touch. */
  lemma {:induction false} Touched(off: nat, n: nat, x: nat)
    requires x < n
    ensures off / BSIZE <= (off + x) / BSIZE && (off + x) / BSIZE + 1 <= BlocksEnd(off, n)
  {
  }

  lemma {:induction false} FewerBlocks(off: nat, n: nat, n': nat)
    requires n <= n'
    ensures BlocksEnd(off, n) <= BlocksEnd(off, n')
  {
  }

  /** The block of byte x below size. */
  lemma {:induction false} BlockOf(refs: Refs, i: nat, x: nat, size: nat)
    requires x < size <= MAXBYTES && i < |refs| && |refs[i]| == SLOTS
    ensures x / BSIZE < MAXFILE
    ensures Filled(refs, i, size) ==> HasBlock(refs, i, x / BSIZE)
  {
    assert x / BSIZE * BSIZE <= x;
  }

  /** Size and type of an inode can change without its pointers. */
  lemma {:induction false} FieldsMirror(inodes: Inodes, blocks: seq<Block>, refs: Refs, i: nat, node: Inode)
    requires Mirror(inodes, blocks, refs) && i < |inodes| && node.addrs == inodes[i].addrs
    ensures Mirror(inodes[i := node], blocks, refs)
  {
    var inodes' := inodes[i := node];
    forall j, k | 0 <= j < |refs| && 0 <= k < SLOTS ensures Mirrors(inodes', blocks, refs, j, k) {
      assert Mirrors(inodes, blocks, refs, j, k);
    }
  }

  /** refs' has lost pointers of inode i and nothing else; the blocks they led to are free. */
  ghost predicate Drops(refs: Refs, owner: seq<Owner>, refs': Refs, owner': seq<Owner>, i: nat) {
    && Shape(refs, |refs|) && Shape(refs', |refs|) && |owner'| == |owner|
    && (forall j, k | 0 <= j < |refs| && 0 <= k < SLOTS :: DropsRef(refs, refs', i, j, k))
    && (forall b | 0 <= b < |owner| :: DropsOwner(owner, owner', i, b))
  }

  ghost predicate DropsRef(refs: Refs, refs': Refs, i: nat, j: nat, k: nat)
    requires j < |refs| == |refs'| && k < SLOTS == |refs[j]| == |refs'[j]|
  {
    refs'[j][k] == refs[j][k] || (j == i && refs'[j][k] == 0)
  }

  ghost predicate DropsOwner(owner: seq<Owner>, owner': seq<Owner>, i: nat, b: nat)
    requires b < |owner| == |owner'|
  {
    owner'[b] == owner[b] || (owner[b].Slot? && owner[b].i == i && owner'[b] == Free)
  }

  lemma {:induction false} DropsOne(refs0: Refs, owner0: seq<Owner>, refs: Refs, owner: seq<Owner>, i: nat,
                                    k: nat, b: nat)
    requires Drops(refs0, owner0, refs, owner, i) && i < |refs| && k < SLOTS && b < |owner| && owner[b] == Slot(i, k)
    ensures Drops(refs0, owner0, Assigned(refs, i, k, 0), owner[b := Free], i)
  {
    var refs', owner' := Assigned(refs, i, k, 0), owner[b := Free];
    forall j, l | 0 <= j < |refs0| && 0 <= l < SLOTS ensures DropsRef(refs0, refs', i, j, l) {
      assert DropsRef(refs0, refs, i, j, l);
    }
    forall c | 0 <= c < |owner0| ensures DropsOwner(owner0, owner', i, c) {
      assert DropsOwner(owner0, owner, i, c);
    }
  }

  lemma {:induction false} DropsNothing(refs: Refs, owner: seq<Owner>, i: nat)
    requires Shape(refs, |refs|)
    ensures Drops(refs, owner, refs, owner, i)
  {
    forall j, l | 0 <= j < |refs| && 0 <= l < SLOTS ensures DropsRef(refs, refs, i, j, l) {
    }
    forall c | 0 <= c < |owner| ensures DropsOwner(owner, owner, i, c) {
    }
  }

  lemma {:induction false} DropsTwice(refs0: Refs, owner0: seq<Owner>, refs1: Refs, owner1: seq<Owner>,
                                      refs2: Refs, owner2: seq<Owner>, i: nat)
    requires Drops(refs0, owner0, refs1, owner1, i) && Drops(refs1, owner1, refs2, owner2, i)
    ensures Drops(refs0, owner0, refs2, owner2, i)
  {
    forall j, l | 0 <= j < |refs0| && 0 <= l < SLOTS ensures DropsRef(refs0, refs2, i, j, l) {
      assert DropsRef(refs0, refs1, i, j, l) && DropsRef(refs1, refs2, i, j, l);
    }
    forall c | 0 <= c < |owner0| ensures DropsOwner(owner0, owner2, i, c) {
      assert DropsOwner(owner0, owner1, i, c) && DropsOwner(owner1, owner2, i, c);
    }
  }

  /** Once all pointers of inode i are gone, so is its ownership of any block. */
  lemma {:induction false} DropsAll(refs0: Refs, owner0: seq<Owner>, refs: Refs, owner: seq<Owner>, meta: nat, i: nat)
    requires Owned(refs0, owner0, meta) && Owned(refs, owner, meta)
    requires Drops(refs0, owner0, refs, owner, i) && i < |refs|
    requires forall k | 0 <= k < SLOTS :: refs[i][k] == 0
    ensures forall b | 0 <= b < |owner| && owner0[b].Slot? && owner0[b].i == i :: owner[b] == Free
    ensures forall b | 0 <= b < |owner| && !(owner0[b].Slot? && owner0[b].i == i) :: owner[b] == owner0[b]
    ensures forall j | 0 <= j < |refs| && j != i :: refs[j] == refs0[j]
  {
    forall b | 0 <= b < |owner|
      ensures owner0[b].Slot? && owner0[b].i == i ==> owner[b] == Free
      ensures !(owner0[b].Slot? && owner0[b].i == i) ==> owner[b] == owner0[b]
    {
      assert DropsOwner(owner0, owner, i, b) && Up(refs, owner, b);
      assert owner[b] == Meta <==> b < meta;
    }
    forall j | 0 <= j < |refs| && j != i ensures refs[j] == refs0[j] {
      forall k | 0 <= k < SLOTS ensures refs[j][k] == refs0[j][k] {
        assert DropsRef(refs0, refs, i, j, k);
      }
    }
  }

  lemma {:induction false} EmptyInode(inodes: Inodes, blocks: seq<Block>, refs: Refs, i: nat, refs1: Refs)
    requires Mirror(inodes, blocks, refs) && i < |inodes| && Shape(refs1, |refs|)
    requires forall k | 0 <= k < NDIRECT :: refs1[i][k] == 0
    requires forall k | 0 <= k < SLOTS :: refs[i][k] == refs1[i][k] || refs[i][k] == 0
    requires forall k | NDIRECT <= k < SLOTS :: refs[i][k] == 0
    ensures inodes[i].addrs == seq(NDIRECT + 1, _ => 0) && forall k | 0 <= k < SLOTS :: refs[i][k] == 0
  {
    forall k | 0 <= k <= NDIRECT ensures inodes[i].addrs[k] == 0 {
      assert Mirrors(inodes, blocks, refs, i, k);
    }
  }

  lemma {:induction false} SameRow(refs: Refs, refs': Refs, blocks: seq<Block>, j: nat, n: nat)
    requires j < |refs| == |refs'| && refs'[j] == refs[j] && |refs[j]| == SLOTS && n <= MAXBYTES
    ensures Content(refs', blocks, j, n) == Content(refs, blocks, j, n)
  {
  }

  /** Bytes off .. end lie in blocks that are there. */
  ghost predicate Covers(refs: Refs, i: nat, off: nat, end: nat)
    requires i < |refs| && |refs[i]| == SLOTS && end <= MAXBYTES
  {
    forall bn | 0 <= bn < MAXFILE :: off / BSIZE <= bn && bn * BSIZE < end ==> HasBlock(refs, i, bn)
  }

  lemma {:induction false} CoversMore(refs: Refs, refs': Refs, i: nat, off: nat, at: nat, m: nat, lo: nat, hi: nat)
    requires Grows(refs, refs', i, lo, hi) && off <= at && at + m <= MAXBYTES && at % BSIZE + m <= BSIZE && 0 < m
    requires (at == off || Covers(refs, i, off, at)) && HasBlock(refs', i, at / BSIZE)
    ensures Covers(refs', i, off, at + m)
  {
    forall bn | 0 <= bn < MAXFILE && off / BSIZE <= bn && bn * BSIZE < at + m ensures HasBlock(refs', i, bn) {
      if bn * BSIZE < at && at != off {
        assert HasBlock(refs, i, bn) && KeepsRef(refs, refs', i, Slot0(bn), lo, hi);
      } else {
        assert bn == at / BSIZE;
      }
    }
  }

  /** The first tot bytes of src are in place. */
  ghost predicate Progress(refs0: Refs, blocks0: seq<Block>, refs: Refs, blocks: seq<Block>, i: nat, off: nat,
                           src: seq<Byte>, tot: nat)
    requires off + |src| <= MAXBYTES
  {
    && tot <= |src| && Grows(refs0, refs, i, off / BSIZE, BlocksEnd(off, |src|))
    && Written(refs0, blocks0, refs, blocks, i, off, src[..tot])
    && (tot > 0 ==> Covers(refs, i, off, off + tot))
  }

  lemma {:induction false} ProgressMore(refs0: Refs, blocks0: seq<Block>, refs1: Refs, blocks1: seq<Block>,
                                        refs2: Refs, blocks2: seq<Block>, i: nat, off: nat, src: seq<Byte>,
                                        tot: nat, m: nat)
    requires off + |src| <= MAXBYTES && tot < |src| && 0 < m && (off + tot) % BSIZE + m <= BSIZE
    requires Progress(refs0, blocks0, refs1, blocks1, i, off, src, tot) && tot + m <= |src|
    requires Grows(refs1, refs2, i, (off + tot) / BSIZE, (off + tot) / BSIZE + 1)
    requires Written(refs1, blocks1, refs2, blocks2, i, off + tot, src[tot..tot + m])
    requires (off + tot) / BSIZE < MAXFILE && HasBlock(refs2, i, (off + tot) / BSIZE)
    ensures Progress(refs0, blocks0, refs2, blocks2, i, off, src, tot + m)
  {
    ProgressGrows(refs0, blocks0, refs1, blocks1, refs2, i, off, src, tot);
    assert src[..tot + m] == src[..tot] + src[tot..tot + m];
    assert SameBytes(refs1, blocks1, refs1, blocks1);
    WrittenMore(refs0, blocks0, refs1, blocks1, refs1, blocks1, refs2, blocks2, i, off,
                src[..tot], src[tot..tot + m]);
    CoversMore(refs1, refs2, i, off, off + tot, m, (off + tot) / BSIZE, (off + tot) / BSIZE + 1);
  }

  lemma {:induction false} ProgressGrows(refs0: Refs, blocks0: seq<Block>, refs1: Refs, blocks1: seq<Block>,
                                         refs2: Refs, i: nat, off: nat, src: seq<Byte>, tot: nat)
    requires off + |src| <= MAXBYTES && tot < |src|
    requires Progress(refs0, blocks0, refs1, blocks1, i, off, src, tot)
    requires Grows(refs1, refs2, i, (off + tot) / BSIZE, (off + tot) / BSIZE + 1)
    ensures Grows(refs0, refs2, i, off / BSIZE, BlocksEnd(off, |src|))
  {
    Touched(off, |src|, tot);
    GrowsTwice(refs0, refs1, refs2, i, off / BSIZE, BlocksEnd(off, |src|),
               (off + tot) / BSIZE, (off + tot) / BSIZE + 1, BlocksEnd(off, |src|));
  }

  lemma {:induction false} ProgressNone(refs: Refs, blocks: seq<Block>, inodes: Inodes, i: nat, off: nat,
                                        src: seq<Byte>)
    requires off + |src| <= MAXBYTES && Shape(refs, |refs|) && i < |inodes| == |refs|
    ensures Progress(refs, blocks, refs, blocks, i, off, src, 0)
  {
    MapsNothing(refs, blocks, inodes, i, off / BSIZE, BlocksEnd(off, |src|));
    WrittenNothing(refs, blocks, i, off);
    assert src[..0] == [];
  }

  /** A file without holes still has none after a write that starts inside it or at its end. */
  lemma {:induction false} FilledMore(refs: Refs, refs': Refs, i: nat, size: nat, off: nat, end: nat,
                                      lo: nat, hi: nat)
    requires Grows(refs, refs', i, lo, hi) && off <= size <= MAXBYTES && end <= MAXBYTES
    requires Filled(refs, i, size) && (off < end ==> Covers(refs', i, off, end))
    ensures Filled(refs', i, if off < end && end > size then end else size)
  {
    forall bn | 0 <= bn < MAXFILE && bn * BSIZE < (if off < end && end > size then end else size)
      ensures HasBlock(refs', i, bn)
    {
      if bn * BSIZE < size {
        assert HasBlock(refs, i, bn) && KeepsRef(refs, refs', i, Slot0(bn), lo, hi);
      } else {
        assert off / BSIZE <= bn;
      }
    }
  }

  lemma {:induction false} FilledRow(refs: Refs, refs': Refs, i: nat, size: nat)
    requires i < |refs| == |refs'| && refs'[i] == refs[i] && |refs[i]| == SLOTS
    requires size <= MAXBYTES && Filled(refs, i, size)
    ensures Filled(refs', i, size)
  {
    forall bn | 0 <= bn < MAXFILE && bn * BSIZE < size ensures HasBlock(refs', i, bn) {
      assert HasBlock(refs, i, bn);
    }
  }

  lemma {:induction false} BitPlace(base: nat, bi: nat)
    requires base % BPB == 0 && bi < BPB
    ensures (base + bi) / BPB == base / BPB && (base + bi) % BPB == bi
  {
  }

  class FileSystem {
    /** Blocks below meta hold metadata. */
    const meta: nat
    var bitmap: Bitmap
    var blocks: seq<Block>

    /** The inodes on disk, the copies in memory, and the reference counts and I_VALID flags of the
        copies. Where nothing is cached the copy stands for what ilock would load. */
    var dinodes: Inodes
    var inodes: Inodes
    var uses: seq<nat>
    var loaded: seq<bool>

    ghost var refs: Refs
    ghost var owner: seq<Owner>

    ghost predicate Valid()
      reads this
    {
      && Sound(bitmap, blocks, inodes, refs, owner, meta)
      && |dinodes| == |inodes| == |uses| == |loaded| && SizesOk(inodes)
    }

    /** Every in-memory inode equals its copy on disk: what an operation leaves behind. */
    ghost predicate Synced()
      reads this
    {
      dinodes == inodes
    }

    /** A disk as mkfs leaves it. */
    constructor (m: Bitmap, bs: seq<Block>, ds: Inodes, ghost rs: Refs, ghost os: seq<Owner>, metablocks: nat)
      requires Sound(m, bs, ds, rs, os, metablocks) && SizesOk(ds)
      ensures Valid() && Synced() && bitmap == m && blocks == bs && dinodes == ds && refs == rs && owner == os
      ensures meta == metablocks
    {
      meta, bitmap, blocks, dinodes, inodes := metablocks, m, bs, ds, ds;
      uses, loaded := seq(|ds|, _ => 0), seq(|ds|, _ => false);
      refs, owner := rs, os;
    }

    /** The lowest free block, marked in use and zeroed; a panic when there is none. */
    method Balloc() returns (panic: bool, b: nat)
      requires Valid()
      modifies `bitmap, `blocks
      ensures panic ==> bitmap == old(bitmap) && blocks == old(blocks)
      ensures panic ==> forall c | 0 <= c < |blocks| :: owner[c] != Free
      ensures !panic ==> b < |owner| && owner[b] == Free && forall c | 0 <= c < b :: owner[c] != Free
      ensures !panic ==> b / BPB < |old(bitmap)| && bitmap == PutBit(old(bitmap), b, true)
      ensures !panic ==> blocks == old(blocks)[b := ZEROS]
    {
      var base := 0;
      while base < |blocks|
        invariant bitmap == old(bitmap) && blocks == old(blocks)
        invariant base % BPB == 0 && (forall c | 0 <= c < base && c < |blocks| :: owner[c] != Free)
        decreases |blocks| - base
      {
        var bi := 0;
        while bi < BPB && base + bi < |blocks|
          invariant bitmap == old(bitmap) && blocks == old(blocks)
          invariant 0 <= bi <= BPB && base + bi <= |blocks|
          invariant forall c | 0 <= c < base + bi :: owner[c] != Free
        {
          BitPlace(base, bi);
          assert BitOk(bitmap, owner, base + bi);
          if !HasBit(bitmap[base / BPB][bi / 8], bi % 8) {
            bitmap := PutBit(bitmap, base + bi, true);
            blocks := blocks[base + bi := ZEROS];
            return false, base + bi;
          }
          bi := bi + 1;
        }
        base := base + BPB;
      }
      return true, 0;
    }

    /** Clears the bit of block b; a panic when it is clear. */
    method Bfree(b: nat) returns (panic: bool)
      requires b / BPB < |bitmap|
      modifies `bitmap
      ensures panic <==> !Bit(old(bitmap), b)
      ensures bitmap == if panic then old(bitmap) else PutBit(old(bitmap), b, false)
    {
      panic := !HasBit(bitmap[b / BPB][b % BPB / 8], b % BPB % 8);
      if !panic {
        bitmap := PutBit(bitmap, b, false);
      }
    }

    /** What mapping blocks lo .. hi of inode i does: no byte of any file changes, no pointer is lost,
        and none is set but to those blocks. */
    twostate predicate MapsOnly(i: nat, lo: nat, hi: nat)
      reads this
    {
      && |blocks| == |old(blocks)|
      && SameBytes(old(refs), old(blocks), refs, blocks) && Grows(old(refs), refs, i, lo, hi)
      && OnlyAddrs(old(inodes), inodes, i)
    }

    /** A fresh block for pointer k of the inode. */
    method AllocAddr(i: nat, k: nat, ghost lo: nat, ghost hi: nat) returns (panic: bool, b: nat)
      requires Valid() && i < |inodes| && k <= NDIRECT && refs[i][k] == 0 && Leads(k, lo, hi)
      modifies `bitmap, `blocks, `inodes, `refs, `owner
      ensures Valid() && MapsOnly(i, lo, hi)
      ensures panic ==> forall c | 0 <= c < |blocks| :: owner[c] != Free
      ensures !panic ==> b != 0 && refs == Assigned(old(refs), i, k, b)
    {
      ghost var m0, blocks0, inodes0, refs0, owner0 := bitmap, blocks, inodes, refs, owner;
      panic, b := Balloc();
      if !panic {
        inodes := WithAddr(inodes, i, k, b);
        refs, owner := Assigned(refs, i, k, b), owner[b := Slot(i, k)];
        BooksAssign(m0, |blocks0|, refs0, owner0, meta, i, k, b);
        AddrMirror(m0, blocks0, inodes0, refs0, owner0, meta, i, k, b, ZEROS);
        AssignBytes(refs0, owner0, meta, blocks0, i, k, b, blocks);
        GrowsOne(refs0, i, k, b, lo, hi);
      }
    }

    /** A fresh block for entry j of the inode's indirect block. */
    method AllocEntry(i: nat, j: nat) returns (panic: bool, b: nat)
      requires Valid() && i < |inodes| && j < NINDIRECT && refs[i][NDIRECT] != 0 && refs[i][NDIRECT + 1 + j] == 0
      modifies `bitmap, `blocks, `refs, `owner
      ensures Valid() && MapsOnly(i, NDIRECT + j, NDIRECT + j + 1)
      ensures panic ==> forall c | 0 <= c < |blocks| :: owner[c] != Free
      ensures !panic ==> b != 0 && refs == Assigned(old(refs), i, NDIRECT + 1 + j, b)
    {
      ghost var m0, blocks0, refs0, owner0 := bitmap, blocks, refs, owner;
      var ind := inodes[i].addrs[NDIRECT];
      assert Mirrors(inodes, blocks, refs, i, NDIRECT) && Down(refs, owner, i, NDIRECT);
      panic, b := Balloc();
      if !panic {
        EntryMirror(m0, blocks0, inodes, refs0, owner0, meta, i, j, b, ZEROS);
        blocks := blocks[ind := SetWord(blocks[ind], j, b)];
        refs, owner := Assigned(refs, i, NDIRECT + 1 + j, b), owner[b := Slot(i, NDIRECT + 1 + j)];
        BooksAssign(m0, |blocks0|, refs0, owner0, meta, i, NDIRECT + 1 + j, b);
        AssignBytes(refs0, owner0, meta, blocks0, i, NDIRECT + 1 + j, b, blocks);
        GrowsOne(refs0, i, NDIRECT + 1 + j, b, NDIRECT + j, NDIRECT + j + 1);
      }
    }

    /** The disk block of block bn of the file, allocated if it is not there. */
    method Bmap(i: nat, bn: nat) returns (panic: bool, addr: nat)
      requires Valid() && i < |inodes|
      modifies `bitmap, `blocks, `inodes, `refs, `owner
      ensures Valid() && MapsOnly(i, bn, bn + 1)
      ensures panic ==> bn >= MAXFILE || forall c | 0 <= c < |blocks| :: owner[c] != Free
      ensures !panic ==> bn < MAXFILE && addr == refs[i][Slot0(bn)] && addr != 0
      ensures bn < MAXFILE && HasBlock(old(refs), i, bn) ==> !panic && unchanged(this)
    {
      assert Mirrors(inodes, blocks, refs, i, Slot0(if bn < MAXFILE then bn else 0));
      assert Mirrors(inodes, blocks, refs, i, NDIRECT) && Down(refs, owner, i, NDIRECT);
      if bn < NDIRECT {
        panic, addr := false, inodes[i].addrs[bn];
        if addr == 0 {
          panic, addr := AllocAddr(i, bn, bn, bn + 1);
        }
      } else if bn - NDIRECT < NINDIRECT {
        panic, addr := BmapIndirect(i, bn - NDIRECT);
      } else {
        panic, addr := true, 0;
      }
    }

    method BmapIndirect(i: nat, j: nat) returns (panic: bool, addr: nat)
      requires Valid() && i < |inodes| && j < NINDIRECT
      modifies `bitmap, `blocks, `inodes, `refs, `owner
      ensures Valid() && MapsOnly(i, NDIRECT + j, NDIRECT + j + 1)
      ensures panic ==> forall c | 0 <= c < |blocks| :: owner[c] != Free
      ensures !panic ==> addr == refs[i][NDIRECT + 1 + j] && addr != 0
      ensures old(refs)[i][NDIRECT + 1 + j] != 0 ==> !panic && unchanged(this)
    {
      assert Mirrors(inodes, blocks, refs, i, NDIRECT) && Mirrors(inodes, blocks, refs, i, NDIRECT + 1 + j);
      panic, addr := false, inodes[i].addrs[NDIRECT];
      if addr == 0 {
        panic, addr := AllocAddr(i, NDIRECT, NDIRECT + j, NDIRECT + j + 1);
        if panic { return; }
      }
      label Ind:
      ghost var refs1, blocks1, inodes1 := refs, blocks, inodes;
      assert Mirrors(inodes, blocks, refs, i, NDIRECT) && Mirrors(inodes, blocks, refs, i, NDIRECT + 1 + j);
      assert Down(refs, owner, i, NDIRECT);
      addr := Word(blocks[addr], j);
      if addr == 0 {
        panic, addr := AllocEntry(i, j);
        MapsTwice(old(refs), old(blocks), old(inodes), refs1, blocks1, inodes1, refs, blocks, inodes, i,
                  NDIRECT + j, NDIRECT + j + 1, NDIRECT + j, NDIRECT + j + 1, NDIRECT + j + 1);
      }
    }

    // ----- contents -----

    ghost function Data(i: nat): (s: seq<Byte>)
      requires Valid() && i < |inodes|
      reads this
      ensures |s| == inodes[i].size
    {
      Content(refs, blocks, i, inodes[i].size)
    }

    /** Every block below the file's size is there. */
    ghost predicate NoHoles(i: nat)
      requires Valid() && i < |inodes|
      reads this
    {
      Filled(refs, i, inodes[i].size)
    }

    /** The bytes from off on, at most n of them and none past the end of the file. Reading changes
        nothing, unless the file has holes: bmap then fills them with zeroed blocks. */
    method Readi(i: nat, off: nat, n: nat) returns (panic: bool, r: Option<seq<Byte>>)
      requires Valid() && i < |inodes| && inodes[i].typ != T_DEV && off < UINT && n < UINT
      modifies `bitmap, `blocks, `inodes, `refs, `owner
      ensures Valid() && MapsOnly(i, off / BSIZE, BlocksEnd(off, n))
      ensures panic ==> forall c | 0 <= c < |blocks| :: owner[c] != Free
      ensures !panic ==> (r == None <==> off > old(inodes[i].size) || off + n >= UINT)
      ensures !panic && r.Some? && off + n <= old(inodes[i].size) ==> r.value == old(Data(i))[off..off + n]
      ensures !panic && r.Some? && off + n > old(inodes[i].size) ==> r.value == old(Data(i))[off..]
      ensures old(NoHoles(i)) ==> !panic && unchanged(this)
    {
      panic := false;
      MapsNothing(refs, blocks, inodes, i, off / BSIZE, BlocksEnd(off, n));
      if off > inodes[i].size || off + n >= UINT {
        return false, None;
      }
      var len := if off + n > inodes[i].size then inodes[i].size - off else n;
      var data: seq<Byte>;
      panic, data := ReadLoop(i, off, len);
      FewerBlocks(off, len, n);
      GrowsWider(old(refs), refs, i, off / BSIZE, BlocksEnd(off, len), BlocksEnd(off, n));
      r := Some(data);
    }

    method ReadLoop(i: nat, off: nat, n: nat) returns (panic: bool, data: seq<Byte>)
      requires Valid() && i < |inodes| && off + n <= inodes[i].size
      modifies `bitmap, `blocks, `inodes, `refs, `owner
      ensures Valid() && MapsOnly(i, off / BSIZE, BlocksEnd(off, n))
      ensures panic ==> forall c | 0 <= c < |blocks| :: owner[c] != Free
      ensures !panic ==> data == old(Data(i))[off..off + n]
      ensures old(NoHoles(i)) ==> !panic && unchanged(this)
    {
      panic, data := false, [];
      ghost var size := inodes[i].size;
      ghost var was := Data(i);
      ghost var lo, hi := off / BSIZE, BlocksEnd(off, n);
      MapsNothing(refs, blocks, inodes, i, lo, hi);
      while |data| < n && !panic
        invariant Valid() && MapsOnly(i, lo, hi) && |data| <= n
        invariant data == was[off..off + |data|]
        invariant panic ==> forall c | 0 <= c < |blocks| :: owner[c] != Free
        invariant old(NoHoles(i)) ==> !panic && unchanged(this)
        decreases n - |data|, !panic
      {
        ghost var refs1, blocks1, inodes1, at := refs, blocks, inodes, off + |data|;
        SameContent(old(refs), old(blocks), refs, blocks, i, size);
        var piece;
        panic, piece := ReadPiece(i, off + |data|, n - |data|);
        Touched(off, n, |data|);
        MapsTwice(old(refs), old(blocks), old(inodes), refs1, blocks1, inodes1, refs, blocks, inodes, i,
                  lo, hi, at / BSIZE, at / BSIZE + 1, hi);
        if !panic {
          assert was[off..at + |piece|] == was[off..at] + was[at..at + |piece|];
          data := data + piece;
        }
      }
    }

    /** One turn of the loop of readi: what the block of byte at has to offer, at most n bytes. */
    method ReadPiece(i: nat, at: nat, n: nat) returns (panic: bool, piece: seq<Byte>)
      requires Valid() && i < |inodes| && 0 < n && at + n <= inodes[i].size
      modifies `bitmap, `blocks, `inodes, `refs, `owner
      ensures Valid() && MapsOnly(i, at / BSIZE, at / BSIZE + 1)
      ensures panic ==> forall c | 0 <= c < |blocks| :: owner[c] != Free
      ensures !panic ==> 0 < |piece| <= n && piece == old(Data(i))[at..at + |piece|]
      ensures old(NoHoles(i)) ==> !panic && unchanged(this)
    {
      ghost var size := inodes[i].size;
      BlockOf(refs, i, at, size);
      var addr;
      panic, addr := Bmap(i, at / BSIZE);
      piece := [];
      if !panic {
        var m := if n < BSIZE - at % BSIZE then n else BSIZE - at % BSIZE;
        assert Down(refs, owner, i, Slot0(at / BSIZE));
        SameContent(old(refs), old(blocks), refs, blocks, i, size);
        ContentSlice(refs, blocks, i, at, m, size);
        piece := blocks[addr][at % BSIZE..at % BSIZE + m];
      }
    }

    /** A new number of links, in memory and on disk. */
    method SetLinks(i: nat, n: nat)
      requires Valid() && i < |inodes|
      modifies `inodes, `dinodes
      ensures Valid() && inodes == old(inodes)[i := old(inodes)[i].(nlink := n)]
      ensures i < |old(dinodes)| && dinodes == old(dinodes)[i := inodes[i]] && (old(Synced()) ==> Synced())
    {
      FieldsMirror(inodes, blocks, refs, i, inodes[i].(nlink := n));
      inodes := inodes[i := inodes[i].(nlink := n)];
      Iupdate(i);
    }

    /** A free inode holds no blocks: iput frees them before it frees the inode. */
    ghost predicate FreeEmpty()
      reads this
    {
      forall i | 0 <= i < |inodes| && inodes[i].typ == 0 ::
        inodes[i].size == 0 && inodes[i].addrs == seq(NDIRECT + 1, _ => 0)
    }

    /** ialloc: the lowest free inode from 1 on, cleared and given a type; a panic when there is none. */
    method Ialloc(typ: nat) returns (panic: bool, x: nat)
      requires Valid() && Synced() && FreeEmpty() && typ != 0
      modifies `inodes, `dinodes
      ensures Valid() && Synced()
      ensures panic <==> forall y | 1 <= y < |inodes| :: old(inodes)[y].typ != 0
      ensures panic ==> inodes == old(inodes)
      ensures !panic ==>
                && 1 <= x < |inodes| && old(inodes)[x].typ == 0 && (forall y | 1 <= y < x :: old(inodes)[y].typ != 0)
                && inodes == old(inodes)[x := Inode(typ, 0, 0, seq(NDIRECT + 1, _ => 0))]
    {
      x := 1;
      while x < |inodes|
        invariant 1 <= x && inodes == old(inodes) && dinodes == old(dinodes)
        invariant forall y | 1 <= y < x && y < |inodes| :: inodes[y].typ != 0
      {
        if dinodes[x].typ == 0 {
          FieldsMirror(inodes, blocks, refs, x, Inode(typ, 0, 0, seq(NDIRECT + 1, _ => 0)));
          dinodes := dinodes[x := Inode(typ, 0, 0, seq(NDIRECT + 1, _ => 0))];
          inodes := inodes[x := dinodes[x]];
          return false, x;
        }
        x := x + 1;
      }
      panic := true;
    }

    method Iupdate(i: nat)
      requires i < |inodes| == |dinodes|
      modifies `dinodes
      ensures dinodes == old(dinodes)[i := inodes[i]]
    {
      dinodes := dinodes[i := inodes[i]];
    }

    /** src in place of the bytes from off on, the file grown if need be; nothing at all if off is past
        the end or the result would be too large. Nothing changes in any other file, and no block is
        taken but for the bytes written. The disk copy follows the one in memory when the file grows. */
    method Writei(i: nat, src: seq<Byte>, off: nat) returns (panic: bool, r: int)
      requires Valid() && i < |inodes| && inodes[i].typ != T_DEV && off < UINT && |src| < UINT
      modifies this
      ensures Valid() && uses == old(uses) && loaded == old(loaded)
      ensures panic ==> forall c | 0 <= c < |blocks| :: owner[c] != Free
      ensures old(NoHoles(i)) && off + |src| <= old(inodes[i].size) ==> !panic
      ensures !panic ==> r == -1 || r == |src|
      ensures !panic ==> (r == -1 <==> off > old(inodes[i].size) || off + |src| >= UINT || off + |src| > MAXBYTES)
      ensures r == -1 ==> unchanged(this)
      ensures !panic && r == |src| ==> Data(i) == Overwritten(old(Data(i)), off, src)
      ensures !panic ==> |inodes| == |old(inodes)| && forall j | 0 <= j < |inodes| && j != i ::
                inodes[j] == old(inodes[j]) && Data(j) == old(Data(j))
      ensures !panic ==> inodes[i] == old(inodes[i]).(size := inodes[i].size, addrs := inodes[i].addrs)
      ensures !panic ==> Grows(old(refs), refs, i, off / BSIZE, BlocksEnd(off, |src|))
      ensures !panic ==> i < |dinodes| && dinodes == if inodes[i].size != old(inodes[i].size)
                                                     then old(dinodes)[i := inodes[i]] else old(dinodes)
      ensures !panic ==> forall j | 0 <= j < |inodes| && old(NoHoles(j)) :: NoHoles(j)
      ensures !panic && old(NoHoles(i) && Synced()) ==> Synced()
    {
      if off > inodes[i].size || off + |src| >= UINT || off + |src| > MAXBYTES {
        MapsNothing(refs, blocks, inodes, i, off / BSIZE, BlocksEnd(off, |src|));
        return false, -1;
      }
      ghost var size := inodes[i].size;
      panic := WriteLoop(i, src, off);
      r := |src|;
      if !panic {
        ghost var refs0, blocks0 := old(refs), old(blocks);
        if |src| > 0 && off + |src| > inodes[i].size {
          FieldsMirror(inodes, blocks, refs, i, inodes[i].(size := off + |src|));
          inodes := inodes[i := inodes[i].(size := off + |src|)];
          Iupdate(i);
        }
        ContentWritten(refs0, blocks0, refs, blocks, i, off, src, size);
        forall j | 0 <= j < |inodes| && j != i ensures Data(j) == old(Data(j)) {
          OtherContent(refs0, blocks0, refs, blocks, i, off, src, j, inodes[j].size);
        }
        forall j | 0 <= j < |inodes| && old(NoHoles(j)) ensures NoHoles(j) {
          if j == i {
            FilledMore(refs0, refs, i, size, off, off + |src|, off / BSIZE, BlocksEnd(off, |src|));
          } else {
            FilledRow(refs0, refs, j, inodes[j].size);
          }
        }
      }
    }

    method WriteLoop(i: nat, src: seq<Byte>, off: nat) returns (panic: bool)
      requires Valid() && i < |inodes| && off <= inodes[i].size && off + |src| <= MAXBYTES
      modifies `bitmap, `blocks, `inodes, `refs, `owner
      ensures Valid() && |blocks| == |old(blocks)| && OnlyAddrs(old(inodes), inodes, i)
      ensures Grows(old(refs), refs, i, off / BSIZE, BlocksEnd(off, |src|))
      ensures panic ==> forall c | 0 <= c < |blocks| :: owner[c] != Free
      ensures !panic ==> Written(old(refs), old(blocks), refs, blocks, i, off, src)
      ensures !panic && src != [] ==> Covers(refs, i, off, off + |src|)
      ensures off + |src| <= inodes[i].size && old(NoHoles(i)) ==> !panic && inodes == old(inodes)
    {
      var tot := 0;
      panic := false;
      ghost var size := inodes[i].size;
      ProgressNone(refs, blocks, inodes, i, off, src);
      while tot < |src| && !panic
        invariant Valid() && |blocks| == |old(blocks)| && OnlyAddrs(old(inodes), inodes, i)
        invariant tot <= |src|
        invariant panic ==> Grows(old(refs), refs, i, off / BSIZE, BlocksEnd(off, |src|))
        invariant panic ==> forall c | 0 <= c < |blocks| :: owner[c] != Free
        invariant !panic ==> Progress(old(refs), old(blocks), refs, blocks, i, off, src, tot)
        invariant off + |src| <= size && old(NoHoles(i)) ==> !panic && inodes == old(inodes) && refs == old(refs)
        decreases |src| - tot, !panic
      {
        ghost var at, refs1, blocks1 := off + tot, refs, blocks;
        BlockOf(old(refs), i, at, if at < size then size else MAXBYTES);
        var m;
        panic, m := WriteStep(i, src, off, tot);
        if panic {
          ProgressGrows(old(refs), old(blocks), refs1, blocks1, refs, i, off, src, tot);
        } else {
          ProgressMore(old(refs), old(blocks), refs1, blocks1, refs, blocks, i, off, src, tot, m);
          tot := tot + m;
        }
      }
      assert src[..|src|] == src;
    }

    /** One turn of the loop of writei: map the block of byte off + tot and copy what fits into it. */
    method WriteStep(i: nat, src: seq<Byte>, off: nat, tot: nat) returns (panic: bool, m: nat)
      requires Valid() && i < |inodes| && tot < |src| && off + |src| <= MAXBYTES
      modifies `bitmap, `blocks, `inodes, `refs, `owner
      ensures Valid() && |blocks| == |old(blocks)| && OnlyAddrs(old(inodes), inodes, i)
      ensures Grows(old(refs), refs, i, (off + tot) / BSIZE, (off + tot) / BSIZE + 1)
      ensures panic ==> forall c | 0 <= c < |blocks| :: owner[c] != Free
      ensures !panic ==> 0 < m && tot + m <= |src| && (off + tot) % BSIZE + m <= BSIZE
      ensures !panic ==> (off + tot) / BSIZE < MAXFILE && HasBlock(refs, i, (off + tot) / BSIZE)
      ensures !panic ==> Written(old(refs), old(blocks), refs, blocks, i, off + tot, src[tot..tot + m])
      ensures (off + tot) / BSIZE < MAXFILE && HasBlock(old(refs), i, (off + tot) / BSIZE) ==>
                !panic && inodes == old(inodes) && refs == old(refs)
    {
      var at := off + tot;
      BlockOf(refs, i, at, MAXBYTES);
      var addr;
      panic, addr := Bmap(i, at / BSIZE);
      m := if |src| - tot < BSIZE - at % BSIZE then |src| - tot else BSIZE - at % BSIZE;
      if !panic {
        ghost var blocks1, piece := blocks, src[tot..tot + m];
        assert Down(refs, owner, i, Slot0(at / BSIZE));
        CopyMirror(bitmap, blocks, inodes, refs, owner, meta, i, at / BSIZE,
                   Patch(blocks[addr], at % BSIZE, src[tot..tot + m]));
        CopyBytes(refs, owner, meta, blocks, i, at, piece);
        blocks := blocks[addr := Patch(blocks[addr], at % BSIZE, src[tot..tot + m])];
        WrittenNothing(old(refs), old(blocks), i, at);
        WrittenMore(old(refs), old(blocks), old(refs), old(blocks), refs, blocks1, refs, blocks, i, at, [], piece);
        assert [] + piece == piece;
      }
    }

    // ----- truncation -----

    /** bfree of the block of pointer k of inode i, which is never free already. */
    method FreeSlot(ghost i: nat, ghost k: nat, b: nat) returns (panic: bool)
      requires Books(bitmap, |blocks|, refs, owner, meta)
      requires i < |refs| && k < |refs[i]| && refs[i][k] == b && b != 0
      modifies `bitmap, `refs, `owner
      ensures !panic && Books(bitmap, |blocks|, refs, owner, meta)
      ensures refs == Assigned(old(refs), i, k, 0) && b < |old(owner)|
      ensures old(owner)[b] == Slot(i, k) && owner == old(owner)[b := Free]
    {
      BooksRelease(bitmap, |blocks|, refs, owner, meta, i, k);
      ReleaseKeeps(refs, owner, meta, i, k);
      panic := Bfree(b);
      refs, owner := Assigned(refs, i, k, 0), owner[b := Free];
    }

    /** The loop of itrunc over the direct blocks. */
    method TruncDirect(i: nat) returns (panic: bool)
      requires Valid() && i < |inodes|
      modifies `bitmap, `inodes, `refs, `owner
      ensures !panic && Valid() && OnlyAddrs(old(inodes), inodes, i)
      ensures Drops(old(refs), old(owner), refs, owner, i)
      ensures forall k | 0 <= k < NDIRECT :: refs[i][k] == 0
    {
      panic := false;
      DropsNothing(refs, owner, i);
      for k := 0 to NDIRECT
        invariant !panic && Valid() && OnlyAddrs(old(inodes), inodes, i)
        invariant Drops(old(refs), old(owner), refs, owner, i)
        invariant forall l | 0 <= l < k :: refs[i][l] == 0
      {
        assert Mirrors(inodes, blocks, refs, i, k);
        if inodes[i].addrs[k] != 0 {
          ghost var refs1, owner1 := refs, owner;
          DirectMirror(blocks, inodes, refs, i, k);
          panic := FreeSlot(i, k, inodes[i].addrs[k]);
          DropsOne(old(refs), old(owner), refs1, owner1, i, k, inodes[i].addrs[k]);
          inodes := WithAddr(inodes, i, k, 0);
        }
      }
    }

    /** The loop of itrunc over the entries of the indirect block ind. */
    method TruncEntries(i: nat, ind: nat) returns (panic: bool)
      requires Valid() && i < |inodes| && inodes[i].addrs[NDIRECT] == ind && ind != 0
      modifies `bitmap, `refs, `owner
      ensures !panic && Books(bitmap, |blocks|, refs, owner, meta)
      ensures MirrorBut(inodes, blocks, refs, i, NINDIRECT)
      ensures Drops(old(refs), old(owner), refs, owner, i)
    {
      panic := false;
      DropsNothing(refs, owner, i);
      for j := 0 to NINDIRECT
        invariant !panic && Books(bitmap, |blocks|, refs, owner, meta) && MirrorBut(inodes, blocks, refs, i, j)
        invariant Drops(old(refs), old(owner), refs, owner, i)
      {
        assert Mirrors(inodes, blocks, refs, i, NDIRECT) && Mirrors(inodes, blocks, refs, i, NDIRECT + 1 + j);
        assert Down(refs, owner, i, NDIRECT);
        EntryGone(inodes, blocks, refs, i, j);
        var a := Word(blocks[ind], j);
        if a != 0 {
          ghost var refs1, owner1 := refs, owner;
          panic := FreeSlot(i, NDIRECT + 1 + j, a);
          DropsOne(old(refs), old(owner), refs1, owner1, i, NDIRECT + 1 + j, a);
        }
      }
    }

    method TruncIndirect(i: nat) returns (panic: bool)
      requires Valid() && i < |inodes|
      modifies `bitmap, `inodes, `refs, `owner
      ensures !panic && Valid() && OnlyAddrs(old(inodes), inodes, i)
      ensures Drops(old(refs), old(owner), refs, owner, i)
      ensures forall k | NDIRECT <= k < SLOTS :: refs[i][k] == 0
    {
      panic := false;
      var ind := inodes[i].addrs[NDIRECT];
      assert Mirrors(inodes, blocks, refs, i, NDIRECT);
      if ind != 0 {
        panic := TruncEntries(i, ind);
        ghost var refs1, owner1 := refs, owner;
        assert Mirrors(inodes, blocks, refs, i, NDIRECT);
        IndirectGone(inodes, blocks, refs, i);
        panic := FreeSlot(i, NDIRECT, ind);
        DropsOne(old(refs), old(owner), refs1, owner1, i, NDIRECT, ind);
        inodes := WithAddr(inodes, i, NDIRECT, 0);
      } else {
        DropsNothing(refs, owner, i);
        forall k | NDIRECT <= k < SLOTS ensures refs[i][k] == 0 {
          assert Mirrors(inodes, blocks, refs, i, k);
        }
      }
    }

    /** Frees every block of the file, and nothing else, without ever meeting a free one; the file is
        empty afterwards, in memory and on disk. */
    method Itrunc(i: nat) returns (panic: bool)
      requires Valid() && i < |inodes|
      modifies `bitmap, `inodes, `dinodes, `refs, `owner
      ensures !panic && Valid() && i < |dinodes|
      ensures inodes == old(inodes)[i := inodes[i]] && dinodes == old(dinodes)[i := inodes[i]]
      ensures inodes[i] == old(inodes[i]).(size := 0, addrs := seq(NDIRECT + 1, _ => 0))
      ensures forall k | 0 <= k < SLOTS :: refs[i][k] == 0
      ensures |owner| == |old(owner)|
      ensures forall b | 0 <= b < |owner| && old(owner)[b].Slot? && old(owner)[b].i == i :: owner[b] == Free
      ensures forall b | 0 <= b < |owner| && !(old(owner)[b].Slot? && old(owner)[b].i == i) :: owner[b] == old(owner)[b]
      ensures forall j | 0 <= j < |inodes| && j != i :: refs[j] == old(refs)[j] && Data(j) == old(Data(j))
    {
      panic := TruncDirect(i);
      ghost var refs1, owner1, inodes1 := refs, owner, inodes;
      panic := TruncIndirect(i);
      DropsTwice(old(refs), old(owner), refs1, owner1, refs, owner, i);
      FieldsMirror(inodes, blocks, refs, i, inodes[i].(size := 0));
      forall k | 0 <= k < SLOTS ensures refs[i][k] == refs1[i][k] || refs[i][k] == 0 {
        assert DropsRef(refs1, refs, i, i, k);
      }
      EmptyInode(inodes, blocks, refs, i, refs1);
      inodes := inodes[i := inodes[i].(size := 0)];
      Iupdate(i);
      DropsAll(old(refs), old(owner), refs, owner, meta, i);
      forall j | 0 <= j < |inodes| && j != i ensures Data(j) == old(Data(j)) {
        SameRow(old(refs), refs, blocks, j, inodes[j].size);
      }
    }

    /** Drops a reference; the last one to a file without links frees the file. */
    method Iput(i: nat) returns (panic: bool)
      requires Valid() && i < |inodes| && uses[i] > 0
      modifies this
      ensures !panic && Valid()
      ensures uses == old(uses)[i := old(uses)[i] - 1] && blocks == old(blocks)
      ensures var last := old(uses)[i] == 1 && old(loaded)[i] && old(inodes[i]).nlink == 0;
              && (!last ==> inodes == old(inodes) && dinodes == old(dinodes) && loaded == old(loaded))
              && (!last ==> refs == old(refs) && bitmap == old(bitmap) && owner == old(owner))
              && (!last ==> Data(i) == old(Data(i)) && (old(NoHoles(i)) ==> NoHoles(i)))
              && (last ==> inodes[i] == Inode(0, 0, 0, seq(NDIRECT + 1, _ => 0)))
              && (last ==> forall k | 0 <= k < SLOTS :: refs[i][k] == 0)
              && (last ==> dinodes == old(dinodes)[i := inodes[i]] && loaded == old(loaded)[i := false])
              && |owner| == |old(owner)|
              && (last ==> forall b | 0 <= b < |owner| && old(owner)[b].Slot? && old(owner)[b].i == i ::
                    owner[b] == Free)
              && (last ==> forall b | 0 <= b < |owner| && !(old(owner)[b].Slot? && old(owner)[b].i == i) ::
                    owner[b] == old(owner)[b])
      ensures old(Synced()) ==> Synced()
      ensures |inodes| == |old(inodes)| && forall j | 0 <= j < |inodes| && j != i ::
                && inodes[j] == old(inodes[j]) && refs[j] == old(refs)[j]
                && Data(j) == old(Data(j)) && (old(NoHoles(j)) ==> NoHoles(j))
    {
      panic := false;
      if uses[i] == 1 && loaded[i] && inodes[i].nlink == 0 {
        panic := Itrunc(i);
        forall j | 0 <= j < |inodes| && j != i && old(NoHoles(j)) ensures NoHoles(j) {
          FilledRow(old(refs), refs, j, inodes[j].size);
        }
        FieldsMirror(inodes, blocks, refs, i, inodes[i].(typ := 0));
        inodes := inodes[i := inodes[i].(typ := 0)];
        Iupdate(i);
        loaded := loaded[i := false];
      }
      uses := uses[i := uses[i] - 1];
    }

    /** Loads the inode if it is not there; since every operation leaves disk and memory equal, that
        changes nothing. */
    method Ilock(i: nat) returns (panic: bool)
      requires Valid() && Synced() && i < |inodes| && uses[i] > 0
      modifies `inodes, `loaded
      ensures Valid() && inodes == old(inodes) && loaded == old(loaded)[i := true]
      ensures panic <==> !old(loaded)[i] && inodes[i].typ == 0
    {
      panic := false;
      if !loaded[i] {
        assert inodes[i := dinodes[i]] == inodes;
        inodes := inodes[i := dinodes[i]];
        panic := inodes[i].typ == 0;
      }
      loaded := loaded[i := true];
    }
  }
}
