/** The file system between two steps of fs.c: free map, blocks, inodes and who owns what, and what
    the small updates of fs.c do to it. */
module FsImage {
  import opened FsBlocks
  import opened FsOwner

  const MAXFILE: nat := 140
  const MAXBYTES: nat := 71680

  /** The fields of struct dinode that ordinary files and directories use. */
  datatype Inode = Inode(typ: nat, nlink: nat, size: nat, addrs: seq<nat>)

  type Inodes = seq<Inode>

  /** The pointer slot of block bn of a file: slot NDIRECT is the indirect block itself. */
  function Slot0(bn: nat): nat {
    if bn < NDIRECT then bn else bn + 1
  }

  // ----- pointers -----

  predicate Shaped(inodes: Inodes) {
    forall i | 0 <= i < |inodes| :: |inodes[i].addrs| == NDIRECT + 1
  }

  /** Pointer k of inode i as the inode and its indirect block hold it. */
  function Ptr(inodes: Inodes, blocks: seq<Block>, i: nat, k: nat): nat
    requires Shaped(inodes) && i < |inodes| && k < SLOTS
  {
    if k <= NDIRECT then inodes[i].addrs[k]
    else if inodes[i].addrs[NDIRECT] == 0 || inodes[i].addrs[NDIRECT] >= |blocks| then 0
    else Word(blocks[inodes[i].addrs[NDIRECT]], k - NDIRECT - 1)
  }

  ghost predicate Mirrors(inodes: Inodes, blocks: seq<Block>, refs: Refs, i: nat, k: nat)
    requires Shaped(inodes) && i < |inodes| == |refs| && k < SLOTS == |refs[i]|
  {
    refs[i][k] == Ptr(inodes, blocks, i, k)
  }

  ghost predicate Mirror(inodes: Inodes, blocks: seq<Block>, refs: Refs) {
    && Shaped(inodes) && |refs| == |inodes|
    && (forall i | 0 <= i < |refs| :: |refs[i]| == SLOTS)
    && (forall i, k | 0 <= i < |refs| && 0 <= k < SLOTS :: Mirrors(inodes, blocks, refs, i, k))
  }

  /** Ownership, and a free map that says exactly what is owned. */
  ghost predicate Books(m: Bitmap, n: nat, refs: Refs, owner: seq<Owner>, meta: nat) {
    && |owner| == n < UINT && n <= |m| * BPB
    && Owned(refs, owner, meta)
    && (forall b | 0 <= b < n :: BitOk(m, owner, b))
  }

  ghost predicate BitOk(m: Bitmap, owner: seq<Owner>, b: nat)
    requires b < |owner|
  {
    b / BPB < |m| && (Bit(m, b) <==> owner[b] != Free)
  }

  ghost predicate Sound(m: Bitmap, blocks: seq<Block>, inodes: Inodes, refs: Refs, owner: seq<Owner>, meta: nat) {
    Books(m, |blocks|, refs, owner, meta) && Mirror(inodes, blocks, refs)
  }

  /** The set bits of the free map are the metadata blocks and the blocks some inode points to. */
  lemma {:induction false} BitsExact(m: Bitmap, blocks: seq<Block>, inodes: Inodes, refs: Refs,
                                     owner: seq<Owner>, meta: nat, b: nat)
    requires Sound(m, blocks, inodes, refs, owner, meta) && b < |blocks|
    ensures b / BPB < |m|
    ensures Bit(m, b) <==>
              b < meta ||
              (b != 0 && exists i, k :: 0 <= i < |inodes| && 0 <= k < SLOTS && Ptr(inodes, blocks, i, k) == b)
  {
    assert BitOk(m, owner, b);
    OwnedExactly(refs, owner, meta, b);
    forall i, k | 0 <= i < |inodes| && 0 <= k < SLOTS ensures Ptr(inodes, blocks, i, k) == refs[i][k] {
      assert Mirrors(inodes, blocks, refs, i, k);
    }
  }

  /** No two pointers of the inodes and their indirect blocks lead to the same block. */
  lemma {:induction false} PointersApart(m: Bitmap, blocks: seq<Block>, inodes: Inodes, refs: Refs,
                                         owner: seq<Owner>, meta: nat,
                                         i: nat, k: nat, j: nat, l: nat)
    requires Sound(m, blocks, inodes, refs, owner, meta)
    requires i < |inodes| && j < |inodes| && k < SLOTS && l < SLOTS && Ptr(inodes, blocks, i, k) != 0
    ensures meta <= Ptr(inodes, blocks, i, k) < |blocks|
    ensures Ptr(inodes, blocks, i, k) == Ptr(inodes, blocks, j, l) ==> i == j && k == l
  {
    assert Mirrors(inodes, blocks, refs, i, k) && Mirrors(inodes, blocks, refs, j, l);
    PointersDistinct(refs, owner, meta, i, k, j, l);
  }

  // ----- contents -----

  /** Byte x of inode i; a block that is not there reads as zeros. */
  function ByteAt(refs: Refs, blocks: seq<Block>, i: nat, x: nat): Byte
    requires i < |refs| && |refs[i]| == SLOTS && x < MAXBYTES
  {
    var p := refs[i][Slot0(x / BSIZE)];
    if p == 0 || p >= |blocks| then 0 else blocks[p][x % BSIZE]
  }

  ghost predicate SameByte(refs: Refs, blocks: seq<Block>, refs': Refs, blocks': seq<Block>, i: nat, x: nat)
    requires i < |refs| == |refs'| && |refs[i]| == |refs'[i]| == SLOTS && x < MAXBYTES
  {
    ByteAt(refs', blocks', i, x) == ByteAt(refs, blocks, i, x)
  }

  ghost predicate Shape(refs: Refs, n: nat) {
    |refs| == n && forall i | 0 <= i < n :: |refs[i]| == SLOTS
  }

  ghost predicate SameBytes(refs: Refs, blocks: seq<Block>, refs': Refs, blocks': seq<Block>) {
    && Shape(refs, |refs|) && Shape(refs', |refs|)
    && forall i, x | 0 <= i < |refs| && 0 <= x < MAXBYTES :: SameByte(refs, blocks, refs', blocks', i, x)
  }

  // ----- a pointer comes to be -----

  function WithAddr(inodes: Inodes, i: nat, k: nat, b: nat): Inodes
    requires i < |inodes| && k < |inodes[i].addrs|
  {
    var addrs: seq<nat> := inodes[i].addrs[k := b];
    inodes[i := inodes[i].(addrs := addrs)]
  }

  lemma {:induction false} BooksAssign(m: Bitmap, n: nat, refs: Refs, owner: seq<Owner>, meta: nat, i: nat,
                                       k: nat, b: nat)
    requires Books(m, n, refs, owner, meta) && i < |refs| && k < |refs[i]| && refs[i][k] == 0
    requires b < n && owner[b] == Free
    ensures b / BPB < |m| && Books(PutBit(m, b, true), n, Assigned(refs, i, k, b), owner[b := Slot(i, k)], meta)
  {
    AssignKeeps(refs, owner, meta, i, k, b);
    assert BitOk(m, owner, b);
    var m', owner' := PutBit(m, b, true), owner[b := Slot(i, k)];
    forall c | 0 <= c < n ensures BitOk(m', owner', c) {
      assert BitOk(m, owner, c);
      BitPut(m, b, true, c);
    }
  }

  lemma {:induction false} BooksRelease(m: Bitmap, n: nat, refs: Refs, owner: seq<Owner>, meta: nat, i: nat, k: nat)
    requires Books(m, n, refs, owner, meta) && i < |refs| && k < |refs[i]| && refs[i][k] != 0
    ensures var b := refs[i][k];
            && b < n && b / BPB < |m| && Bit(m, b)
            && Books(PutBit(m, b, false), n, Assigned(refs, i, k, 0), owner[b := Free], meta)
  {
    var b := refs[i][k];
    ReleaseKeeps(refs, owner, meta, i, k);
    assert BitOk(m, owner, b);
    var m', owner' := PutBit(m, b, false), owner[b := Free];
    forall c | 0 <= c < n ensures BitOk(m', owner', c) {
      assert BitOk(m, owner, c);
      BitPut(m, b, false, c);
    }
  }

  /** No pointer leads to a free block. */
  lemma {:induction false} NotFree(refs: Refs, owner: seq<Owner>, meta: nat, i: nat, k: nat, b: nat)
    requires Owned(refs, owner, meta) && i < |refs| && k < |refs[i]| && b < |owner| && owner[b] == Free
    ensures refs[i][k] != b
  {
    assert Down(refs, owner, i, k);
  }

  /** Putting a fresh zeroed block into pointer k of the inode itself changes no byte. */
  lemma {:induction false} AddrMirror(m: Bitmap, blocks: seq<Block>, inodes: Inodes, refs: Refs,
                                      owner: seq<Owner>, meta: nat,
                                      i: nat, k: nat, b: nat, zero: Block)
    requires Sound(m, blocks, inodes, refs, owner, meta)
    requires i < |inodes| && k <= NDIRECT && refs[i][k] == 0 && b < |blocks| && owner[b] == Free && IsZero(zero)
    ensures Mirror(WithAddr(inodes, i, k, b), blocks[b := zero], Assigned(refs, i, k, b))
  {
    var inodes', blocks', refs' := WithAddr(inodes, i, k, b), blocks[b := zero], Assigned(refs, i, k, b);
    forall j, l | 0 <= j < |refs'| && 0 <= l < SLOTS ensures Mirrors(inodes', blocks', refs', j, l) {
      assert Mirrors(inodes, blocks, refs, j, l) && Mirrors(inodes, blocks, refs, j, NDIRECT);
      NotFree(refs, owner, meta, j, NDIRECT, b);
      if l > NDIRECT { WordZero(zero, l - NDIRECT - 1); }
    }
  }

  lemma {:induction false} AssignBytes(refs: Refs, owner: seq<Owner>, meta: nat, blocks: seq<Block>, i: nat,
                                       k: nat, b: nat,
                                       blocks': seq<Block>)
    requires Owned(refs, owner, meta) && |owner| == |blocks| == |blocks'| && i < |refs| && k < SLOTS && refs[i][k] == 0
    requires b < |blocks| && owner[b] == Free && IsZero(blocks'[b])
    requires forall c | 0 <= c < |blocks| && c != b && blocks'[c] != blocks[c] :: owner[c] == Slot(i, NDIRECT)
    ensures SameBytes(refs, blocks, Assigned(refs, i, k, b), blocks')
  {
    var refs' := Assigned(refs, i, k, b);
    forall j, x | 0 <= j < |refs| && 0 <= x < MAXBYTES ensures SameByte(refs, blocks, refs', blocks', j, x) {
      var s := Slot0(x / BSIZE);
      NotFree(refs, owner, meta, j, s, b);
      assert Down(refs, owner, j, s);
    }
  }

  /** The same for an entry of the indirect block. */
  lemma {:induction false} EntryMirror(m: Bitmap, blocks: seq<Block>, inodes: Inodes, refs: Refs,
                                       owner: seq<Owner>, meta: nat,
                                       i: nat, j: nat, b: nat, zero: Block)
    requires Sound(m, blocks, inodes, refs, owner, meta)
    requires i < |inodes| && j < NINDIRECT && refs[i][NDIRECT + 1 + j] == 0 && refs[i][NDIRECT] != 0
    requires b < |blocks| && owner[b] == Free
    ensures refs[i][NDIRECT] < |blocks| && refs[i][NDIRECT] != b && b < UINT
    ensures var ind := refs[i][NDIRECT];
            Mirror(inodes, blocks[b := zero][ind := SetWord(blocks[ind], j, b)], Assigned(refs, i, NDIRECT + 1 + j, b))
  {
    assert Down(refs, owner, i, NDIRECT);
    var ind := refs[i][NDIRECT];
    var blocks', refs' := blocks[b := zero][ind := SetWord(blocks[ind], j, b)], Assigned(refs, i, NDIRECT + 1 + j, b);
    forall a, l | 0 <= a < |refs'| && 0 <= l < SLOTS ensures Mirrors(inodes, blocks', refs', a, l) {
      assert Mirrors(inodes, blocks, refs, a, l) && Mirrors(inodes, blocks, refs, a, NDIRECT);
      NotFree(refs, owner, meta, a, NDIRECT, b);
      PointersDistinct(refs, owner, meta, i, NDIRECT, a, NDIRECT);
      if l > NDIRECT { WordSet(blocks[ind], j, b, l - NDIRECT - 1); }
    }
  }

  // ----- data is written -----

  function Patch(b: Block, at: nat, data: seq<Byte>): Block
    requires at + |data| <= BSIZE
  {
    b[..at] + data + b[at + |data|..]
  }

  ghost predicate WrittenByte(refs: Refs, blocks: seq<Block>, refs': Refs, blocks': seq<Block>,
                              i: nat, off: nat, data: seq<Byte>, j: nat, x: nat)
    requires j < |refs| == |refs'| && |refs[j]| == |refs'[j]| == SLOTS && x < MAXBYTES
  {
    && (j == i && off <= x < off + |data| ==> ByteAt(refs', blocks', j, x) == data[x - off])
    && (!(j == i && off <= x < off + |data|) ==> ByteAt(refs', blocks', j, x) == ByteAt(refs, blocks, j, x))
  }

  /** data has replaced the bytes from off on of inode i, and nothing else has changed. */
  ghost predicate Written(refs: Refs, blocks: seq<Block>, refs': Refs, blocks': seq<Block>, i: nat, off: nat,
                          data: seq<Byte>) {
    && Shape(refs, |refs|) && Shape(refs', |refs|)
    && forall j, x | 0 <= j < |refs| && 0 <= x < MAXBYTES ::
         WrittenByte(refs, blocks, refs', blocks', i, off, data, j, x)
  }

  lemma {:induction false} CopyMirror(m: Bitmap, blocks: seq<Block>, inodes: Inodes, refs: Refs,
                                      owner: seq<Owner>, meta: nat,
                                      i: nat, bn: nat, block: Block)
    requires Sound(m, blocks, inodes, refs, owner, meta) && i < |refs| && bn < MAXFILE && refs[i][Slot0(bn)] != 0
    ensures refs[i][Slot0(bn)] < |blocks| && Mirror(inodes, blocks[refs[i][Slot0(bn)] := block], refs)
  {
    var p := refs[i][Slot0(bn)];
    PointersDistinct(refs, owner, meta, i, Slot0(bn), i, Slot0(bn));
    var blocks' := blocks[p := block];
    forall j, l | 0 <= j < |refs| && 0 <= l < SLOTS ensures Mirrors(inodes, blocks', refs, j, l) {
      assert Mirrors(inodes, blocks, refs, j, l) && Mirrors(inodes, blocks, refs, j, NDIRECT);
      PointersDistinct(refs, owner, meta, i, Slot0(bn), j, NDIRECT);
    }
  }

  lemma {:induction false} CopyBytes(refs: Refs, owner: seq<Owner>, meta: nat, blocks: seq<Block>, i: nat,
                                     off: nat, data: seq<Byte>)
    requires Owned(refs, owner, meta) && |owner| == |blocks| && i < |refs| && off < MAXBYTES
    requires off % BSIZE + |data| <= BSIZE && refs[i][Slot0(off / BSIZE)] != 0
    ensures var p := refs[i][Slot0(off / BSIZE)];
            && p < |blocks|
            && Written(refs, blocks, refs, blocks[p := Patch(blocks[p], off % BSIZE, data)], i, off, data)
  {
    var bn, at := off / BSIZE, off % BSIZE;
    var p := refs[i][Slot0(bn)];
    PointersDistinct(refs, owner, meta, i, Slot0(bn), i, Slot0(bn));
    var blocks' := blocks[p := Patch(blocks[p], at, data)];
    forall j, x | 0 <= j < |refs| && 0 <= x < MAXBYTES
      ensures WrittenByte(refs, blocks, refs, blocks', i, off, data, j, x)
    {
      var s := Slot0(x / BSIZE);
      PointersDistinct(refs, owner, meta, i, Slot0(bn), j, s);
      InBlock(off, |data|, x);
    }
  }

  /** Where byte x falls when bytes off .. off + n lie in one block. */
  lemma {:induction false} InBlock(off: nat, n: nat, x: nat)
    requires off % BSIZE + n <= BSIZE
    ensures off <= x < off + n ==> x / BSIZE == off / BSIZE && x % BSIZE == off % BSIZE + (x - off)
    ensures x / BSIZE == off / BSIZE && !(off <= x < off + n) ==>
              x % BSIZE < off % BSIZE || x % BSIZE >= off % BSIZE + n
    ensures Slot0(x / BSIZE) == Slot0(off / BSIZE) ==> x / BSIZE == off / BSIZE
  {
  }

  lemma {:induction false} WrittenNothing(refs: Refs, blocks: seq<Block>, i: nat, off: nat)
    requires Shape(refs, |refs|)
    ensures Written(refs, blocks, refs, blocks, i, off, [])
  {
    forall j, x | 0 <= j < |refs| && 0 <= x < MAXBYTES
      ensures WrittenByte(refs, blocks, refs, blocks, i, off, [], j, x)
    {
    }
  }

  /** First data, then, with bytes kept in between, more data right after it. */
  lemma {:induction false} WrittenMore(refs0: Refs, blocks0: seq<Block>, refs1: Refs, blocks1: seq<Block>,
                                       refs2: Refs, blocks2: seq<Block>, refs3: Refs, blocks3: seq<Block>,
                                       i: nat, off: nat, data: seq<Byte>, more: seq<Byte>)
    requires Written(refs0, blocks0, refs1, blocks1, i, off, data) && SameBytes(refs1, blocks1, refs2, blocks2)
    requires Written(refs2, blocks2, refs3, blocks3, i, off + |data|, more)
    ensures Written(refs0, blocks0, refs3, blocks3, i, off, data + more)
  {
    forall j, x | 0 <= j < |refs0| && 0 <= x < MAXBYTES
      ensures WrittenByte(refs0, blocks0, refs3, blocks3, i, off, data + more, j, x)
    {
      assert WrittenByte(refs0, blocks0, refs1, blocks1, i, off, data, j, x);
      assert SameByte(refs1, blocks1, refs2, blocks2, j, x);
      assert WrittenByte(refs2, blocks2, refs3, blocks3, i, off + |data|, more, j, x);
    }
  }

  // ----- pointers go away -----

  lemma {:induction false} DirectMirror(blocks: seq<Block>, inodes: Inodes, refs: Refs, i: nat, k: nat)
    requires Mirror(inodes, blocks, refs) && i < |inodes| && k < NDIRECT
    ensures Mirror(WithAddr(inodes, i, k, 0), blocks, Assigned(refs, i, k, 0))
  {
    var inodes', refs' := WithAddr(inodes, i, k, 0), Assigned(refs, i, k, 0);
    forall j, l | 0 <= j < |refs'| && 0 <= l < SLOTS ensures Mirrors(inodes', blocks, refs', j, l) {
      assert Mirrors(inodes, blocks, refs, j, l) && Mirrors(inodes, blocks, refs, j, NDIRECT);
    }
  }

  /** Mirror but for the entries of inode i's indirect block, of which those below n are gone. */
  ghost predicate MirrorBut(inodes: Inodes, blocks: seq<Block>, refs: Refs, i: nat, n: nat) {
    && Shaped(inodes) && |refs| == |inodes| && i < |inodes|
    && (forall j | 0 <= j < |refs| :: |refs[j]| == SLOTS)
    && (forall j, k | 0 <= j < |refs| && 0 <= k < SLOTS && !(j == i && NDIRECT < k <= NDIRECT + n) ::
          Mirrors(inodes, blocks, refs, j, k))
    && (forall k | NDIRECT < k <= NDIRECT + n && k < SLOTS :: refs[i][k] == 0)
  }

  lemma {:induction false} EntryGone(inodes: Inodes, blocks: seq<Block>, refs: Refs, i: nat, n: nat)
    requires MirrorBut(inodes, blocks, refs, i, n) && n < NINDIRECT
    ensures MirrorBut(inodes, blocks, Assigned(refs, i, NDIRECT + 1 + n, 0), i, n + 1)
    ensures refs[i][NDIRECT + 1 + n] == 0 ==> MirrorBut(inodes, blocks, refs, i, n + 1)
  {
    var refs' := Assigned(refs, i, NDIRECT + 1 + n, 0);
    forall j, k | 0 <= j < |refs'| && 0 <= k < SLOTS && !(j == i && NDIRECT < k <= NDIRECT + n + 1)
      ensures Mirrors(inodes, blocks, refs', j, k) && Mirrors(inodes, blocks, refs, j, k)
    {
      assert Mirrors(inodes, blocks, refs, j, k);
    }
  }

  lemma {:induction false} IndirectGone(inodes: Inodes, blocks: seq<Block>, refs: Refs, i: nat)
    requires MirrorBut(inodes, blocks, refs, i, NINDIRECT)
    ensures Mirror(WithAddr(inodes, i, NDIRECT, 0), blocks, Assigned(refs, i, NDIRECT, 0))
  {
    var inodes', refs' := WithAddr(inodes, i, NDIRECT, 0), Assigned(refs, i, NDIRECT, 0);
    forall j, k | 0 <= j < |refs'| && 0 <= k < SLOTS ensures Mirrors(inodes', blocks, refs', j, k) {
      if !(j == i && NDIRECT < k) { assert Mirrors(inodes, blocks, refs, j, k); }
    }
  }

  // ----- contents as sequences -----

  /** The first n bytes of inode i. */
  function Content(refs: Refs, blocks: seq<Block>, i: nat, n: nat): (s: seq<Byte>)
    requires i < |refs| && |refs[i]| == SLOTS && n <= MAXBYTES
    ensures |s| == n
  {
    seq(n, x requires 0 <= x < n => ByteAt(refs, blocks, i, x))
  }

  lemma {:induction false} SameContent(refs: Refs, blocks: seq<Block>, refs': Refs, blocks': seq<Block>, i: nat, n: nat)
    requires SameBytes(refs, blocks, refs', blocks') && i < |refs| && n <= MAXBYTES
    ensures Content(refs', blocks', i, n) == Content(refs, blocks, i, n)
  {
    forall x | 0 <= x < n ensures Content(refs', blocks', i, n)[x] == Content(refs, blocks, i, n)[x] {
      assert SameByte(refs, blocks, refs', blocks', i, x);
    }
  }

  /** A slice of one block is a slice of the content. */
  lemma {:induction false} ContentSlice(refs: Refs, blocks: seq<Block>, i: nat, off: nat, m: nat, n: nat)
    requires i < |refs| && |refs[i]| == SLOTS && off + m <= n <= MAXBYTES && off % BSIZE + m <= BSIZE && m > 0
    requires var p := refs[i][Slot0(off / BSIZE)]; p != 0 && p < |blocks|
    ensures var p := refs[i][Slot0(off / BSIZE)];
            Content(refs, blocks, i, n)[off..off + m] == blocks[p][off % BSIZE..off % BSIZE + m]
  {
    var p := refs[i][Slot0(off / BSIZE)];
    var slice, part := Content(refs, blocks, i, n)[off..off + m], blocks[p][off % BSIZE..off % BSIZE + m];
    forall x | 0 <= x < m ensures slice[x] == part[x] {
      InBlock(off, m, off + x);
    }
  }

  /** s with data in place of what was at off, longer if need be. */
  function Overwritten(s: seq<Byte>, off: nat, data: seq<Byte>): seq<Byte>
    requires off <= |s|
  {
    if off + |data| <= |s| then s[..off] + data + s[off + |data|..] else s[..off] + data
  }

  lemma {:induction false} OtherContent(refs: Refs, blocks: seq<Block>, refs': Refs, blocks': seq<Block>,
                                        i: nat, off: nat, data: seq<Byte>, j: nat, n: nat)
    requires Written(refs, blocks, refs', blocks', i, off, data) && j < |refs| && j != i && n <= MAXBYTES
    ensures Content(refs', blocks', j, n) == Content(refs, blocks, j, n)
  {
    var c', c := Content(refs', blocks', j, n), Content(refs, blocks, j, n);
    forall x | 0 <= x < n ensures c'[x] == c[x] {
      assert WrittenByte(refs, blocks, refs', blocks', i, off, data, j, x);
    }
  }

  lemma {:induction false} OverwrittenAt(s: seq<Byte>, off: nat, data: seq<Byte>, x: nat)
    requires off <= |s| && x < |Overwritten(s, off, data)|
    ensures Overwritten(s, off, data)[x] ==
              if off <= x < off + |data| then data[x - off] else if x < |s| then s[x] else 0
    ensures |Overwritten(s, off, data)| == if off + |data| > |s| then off + |data| else |s|
  {
  }

  lemma {:induction false} ContentWritten(refs: Refs, blocks: seq<Block>, refs': Refs, blocks': seq<Block>,
                                          i: nat, off: nat, data: seq<Byte>, n: nat)
    requires Written(refs, blocks, refs', blocks', i, off, data) && i < |refs| && off <= n <= MAXBYTES
    requires off + |data| <= MAXBYTES
    ensures var n' := if off + |data| > n then off + |data| else n;
            Content(refs', blocks', i, n') == Overwritten(Content(refs, blocks, i, n), off, data)
  {
    var n' := if off + |data| > n then off + |data| else n;
    var c := Content(refs, blocks, i, n);
    var c', o := Content(refs', blocks', i, n'), Overwritten(c, off, data);
    assert |o| == n';
    forall x | 0 <= x < n' ensures c'[x] == o[x] {
      assert WrittenByte(refs, blocks, refs', blocks', i, off, data, i, x);
      OverwrittenAt(c, off, data, x);
    }
  }
}
