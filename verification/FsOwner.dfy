/** Who owns which disk block. An inode has SLOTS block pointers: the direct ones, the one to its
    indirect block, and the entries of that block. */
module FsOwner {
  const NDIRECT: nat := 12
  const SLOTS: nat := 141

  /** refs[i][k] is pointer k of inode i, 0 for none. */
  type Refs = seq<seq<nat>>

  datatype Owner = Free | Meta | Slot(i: nat, k: nat)

  ghost predicate Down(refs: Refs, owner: seq<Owner>, i: nat, k: nat)
    requires i < |refs| && k < |refs[i]|
  {
    refs[i][k] != 0 ==> refs[i][k] < |owner| && owner[refs[i][k]] == Slot(i, k)
  }

  ghost predicate Up(refs: Refs, owner: seq<Owner>, b: nat)
    requires b < |owner|
  {
    owner[b].Slot? ==>
      owner[b].i < |refs| && owner[b].k < |refs[owner[b].i]| && refs[owner[b].i][owner[b].k] == b
  }

  /** Blocks below meta are the boot block, the superblock, the log, the inodes and the free map. */
  ghost predicate Owned(refs: Refs, owner: seq<Owner>, meta: nat) {
    && 0 < meta <= |owner|
    && (forall i | 0 <= i < |refs| :: |refs[i]| == SLOTS)
    && (forall i, k | 0 <= i < |refs| && 0 <= k < |refs[i]| :: Down(refs, owner, i, k))
    && (forall b | 0 <= b < |owner| :: Up(refs, owner, b))
    && (forall b | 0 <= b < |owner| :: owner[b] == Meta <==> b < meta)
  }

  function Assigned(refs: Refs, i: nat, k: nat, b: nat): Refs
    requires i < |refs| && k < |refs[i]|
  {
    var row: seq<nat> := refs[i][k := b];
    refs[i := row]
  }

  lemma {:induction false} AssignKeeps(refs: Refs, owner: seq<Owner>, meta: nat, i: nat, k: nat, b: nat)
    requires Owned(refs, owner, meta) && i < |refs| && k < |refs[i]| && refs[i][k] == 0
    requires b < |owner| && owner[b] == Free
    ensures Owned(Assigned(refs, i, k, b), owner[b := Slot(i, k)], meta)
  {
    var refs', owner' := Assigned(refs, i, k, b), owner[b := Slot(i, k)];
    forall j, l | 0 <= j < |refs'| && 0 <= l < |refs'[j]| ensures Down(refs', owner', j, l) {
      assert Down(refs, owner, j, l);
    }
    forall c | 0 <= c < |owner'| ensures Up(refs', owner', c) {
      assert Up(refs, owner, c);
    }
  }

  lemma {:induction false} ReleaseKeeps(refs: Refs, owner: seq<Owner>, meta: nat, i: nat, k: nat)
    requires Owned(refs, owner, meta) && i < |refs| && k < |refs[i]| && refs[i][k] != 0
    ensures refs[i][k] < |owner| && owner[refs[i][k]] == Slot(i, k)
    ensures Owned(Assigned(refs, i, k, 0), owner[refs[i][k] := Free], meta)
  {
    assert Down(refs, owner, i, k);
    var refs', owner' := Assigned(refs, i, k, 0), owner[refs[i][k] := Free];
    forall j, l | 0 <= j < |refs'| && 0 <= l < |refs'[j]| ensures Down(refs', owner', j, l) {
      assert Down(refs, owner, j, l);
    }
    forall c | 0 <= c < |owner'| ensures Up(refs', owner', c) {
      assert Up(refs, owner, c);
    }
  }

  /** No two pointers of any inodes lead to the same block, and none leads to metadata. */
  lemma {:induction false} PointersDistinct(refs: Refs, owner: seq<Owner>, meta: nat, i: nat, k: nat, j: nat, l: nat)
    requires Owned(refs, owner, meta) && i < |refs| && k < |refs[i]| && j < |refs| && l < |refs[j]|
    requires refs[i][k] != 0
    ensures meta <= refs[i][k] < |owner| && (refs[j][l] == refs[i][k] ==> j == i && l == k)
  {
    assert Down(refs, owner, i, k) && Down(refs, owner, j, l);
  }

  /** The owned blocks are the metadata and the blocks some pointer leads to. */
  lemma {:induction false} OwnedExactly(refs: Refs, owner: seq<Owner>, meta: nat, b: nat)
    requires Owned(refs, owner, meta) && b < |owner|
    ensures owner[b] != Free <==>
              b < meta || (b != 0 && exists i, k :: 0 <= i < |refs| && 0 <= k < |refs[i]| && refs[i][k] == b)
  {
    assert Up(refs, owner, b);
    if owner[b].Slot? { assert refs[owner[b].i][owner[b].k] == b; }
    if b >= meta && exists i, k :: 0 <= i < |refs| && 0 <= k < |refs[i]| && refs[i][k] == b {
      var i, k :| 0 <= i < |refs| && 0 <= k < |refs[i]| && refs[i][k] == b;
      assert Down(refs, owner, i, k);
    }
  }
}
