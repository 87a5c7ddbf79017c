/** The free list of umalloc.c as values: blocks in address order, the static header base first.
    Addresses and sizes count header-sized units, as the C code does. */
module FreeList {
  datatype Header = Header(ptr: nat, size: nat)

  datatype Blk = Blk(addr: nat, size: nat) {
    function End(): nat { addr + size }

    predicate Has(u: nat) { addr <= u < addr + size }
  }

  function Succ(bl: seq<Blk>, i: nat): (j: nat)
    requires i < |bl|
    ensures j < |bl|
  {
    if i + 1 == |bl| then 0 else i + 1
  }

  /** The header of the block at i points to the next one. */
  ghost predicate LinkAt(mem: map<nat, Header>, bl: seq<Blk>, i: nat)
    requires i < |bl|
  {
    bl[i].addr in mem && mem[bl[i].addr] == Header(bl[Succ(bl, i)].addr, bl[i].size)
  }

  /** The headers in memory chain the blocks into a ring. */
  ghost predicate Linked(mem: map<nat, Header>, bl: seq<Blk>) {
    forall i | 0 <= i < |bl| :: LinkAt(mem, bl, i)
  }

  /** Addresses go up around the ring but for the one step back to base, and neighbours do not
      touch: every run of free units is one block. */
  ghost predicate Sorted(bl: seq<Blk>, base: nat, brk: nat) {
    && bl != [] && bl[0] == Blk(base, 0)
    && (forall i | 1 <= i < |bl| :: bl[i].size >= 1)
    && (forall i, j | 0 <= i < j < |bl| :: bl[i].End() < bl[j].addr)
    && (forall i | 0 <= i < |bl| :: bl[i].End() <= brk)
  }

  ghost predicate HasUnit(bl: seq<Blk>, u: nat) {
    exists i | 0 <= i < |bl| :: bl[i].Has(u)
  }

  /** A block that can be given back: above base, inside the heap, clear of every free block. */
  ghost predicate Outside(bl: seq<Blk>, b: Blk, base: nat, brk: nat) {
    && base < b.addr && b.size >= 1 && b.End() <= brk
    && forall i | 1 <= i < |bl| :: bl[i].End() <= b.addr || b.End() <= bl[i].addr
  }

  /** b belongs right after the block at k. */
  ghost predicate Slot(bl: seq<Blk>, k: nat, b: Blk) {
    && k < |bl|
    && bl[k].addr < b.addr && bl[k].End() <= b.addr
    && (k + 1 < |bl| ==> b.End() <= bl[k + 1].addr)
  }

  lemma {:induction false} FindSlot(bl: seq<Blk>, b: Blk, base: nat, brk: nat) returns (k: nat)
    requires Sorted(bl, base, brk) && Outside(bl, b, base, brk)
    ensures Slot(bl, k, b)
  {
    k := 0;
    while k + 1 < |bl| && bl[k + 1].addr < b.addr
      invariant k < |bl| && bl[k].addr < b.addr
    {
      k := k + 1;
    }
    assert k + 1 < |bl| ==> bl[k].End() < bl[k + 1].addr;
  }

  predicate TouchesNext(bl: seq<Blk>, k: nat, b: Blk)
    requires k < |bl|
  {
    k + 1 < |bl| && b.End() == bl[k + 1].addr
  }

  predicate TouchesPrev(bl: seq<Blk>, k: nat, b: Blk)
    requires k < |bl|
  {
    bl[k].End() == b.addr
  }

  /** b merged with the neighbours it touches. */
  function Merged(bl: seq<Blk>, k: nat, b: Blk): Blk
    requires k < |bl|
  {
    var size := b.size + if TouchesNext(bl, k, b) then bl[k + 1].size else 0;
    if TouchesPrev(bl, k, b) then Blk(bl[k].addr, bl[k].size + size) else Blk(b.addr, size)
  }

  /** The list after b is put behind the block at k and merged with the neighbours it touches. */
  function Insert(bl: seq<Blk>, k: nat, b: Blk): seq<Blk>
    requires k < |bl|
  {
    Splice(bl, if TouchesPrev(bl, k, b) then k else k + 1, Merged(bl, k, b),
           if TouchesNext(bl, k, b) then k + 2 else k + 1)
  }

  /** The first m blocks, then c, then the blocks from r on. */
  function Splice(bl: seq<Blk>, m: nat, c: Blk, r: nat): seq<Blk>
    requires m <= r <= |bl|
  {
    bl[..m] + [c] + bl[r..]
  }

  lemma {:induction false} SpliceSorted(bl: seq<Blk>, m: nat, c: Blk, r: nat, base: nat, brk: nat)
    requires Sorted(bl, base, brk) && 1 <= m <= r <= |bl|
    requires c.size >= 1 && c.End() <= brk
    requires bl[m - 1].End() < c.addr
    requires r < |bl| ==> c.End() < bl[r].addr
    ensures Sorted(Splice(bl, m, c, r), base, brk)
  {
    var now := Splice(bl, m, c, r);
    forall i | 0 <= i < m ensures bl[i].End() < c.addr {
      assert i < m - 1 ==> bl[i].End() < bl[m - 1].addr;
    }
    forall i | r <= i < |bl| ensures c.End() < bl[i].addr {
      assert r < i ==> bl[r].End() < bl[i].addr;
    }
    forall i, j | 0 <= i < j < |now| ensures now[i].End() < now[j].addr {
      if j <= m {
        assert now[i] == bl[i];
      } else {
        var y := r + j - m - 1;
        assert now[j] == bl[y];
        if i < m {
          assert now[i] == bl[i];
        } else if i > m {
          assert now[i] == bl[r + i - m - 1];
        }
      }
    }
  }

  lemma {:induction false} InsertSorted(bl: seq<Blk>, k: nat, b: Blk, base: nat, brk: nat)
    requires Sorted(bl, base, brk) && Outside(bl, b, base, brk) && Slot(bl, k, b)
    ensures Sorted(Insert(bl, k, b), base, brk)
  {
    var m := if TouchesPrev(bl, k, b) then k else k + 1;
    var r := if TouchesNext(bl, k, b) then k + 2 else k + 1;
    assert r < |bl| ==> bl[r - 1].End() < bl[r].addr;
    assert m == k ==> k > 0 && bl[k - 1].End() < bl[k].addr;
    SpliceSorted(bl, m, Merged(bl, k, b), r, base, brk);
  }

  lemma {:induction false} InsertAt(bl: seq<Blk>, k: nat, b: Blk)
    requires Slot(bl, k, b)
    ensures k < |Insert(bl, k, b)| && Insert(bl, k, b)[k].addr == bl[k].addr
    ensures var f := if TouchesPrev(bl, k, b) then k else k + 1;
            f < |Insert(bl, k, b)| && Insert(bl, k, b)[f].size >= b.size
  {
  }

  /** The headers after the last four assignments of free. */
  function Freed(mem: map<nat, Header>, p: nat, bp: nat): map<nat, Header>
    requires p in mem && bp in mem && mem[p].ptr in mem && p != bp
  {
    var next := mem[p].ptr;
    var up := if bp + mem[bp].size == next then
                Header(mem[next].ptr, mem[bp].size + mem[next].size)
              else
                Header(next, mem[bp].size);
    var down := if p + mem[p].size == bp then
                  Header(up.ptr, mem[p].size + up.size)
                else
                  Header(bp, mem[p].size);
    mem[bp := up][p := down]
  }

  lemma {:induction false} SpliceLinked(mem': map<nat, Header>, bl: seq<Blk>, m: nat, c: Blk, r: nat)
    requires 1 <= m <= r <= |bl|
    requires forall i | (0 <= i < m - 1 || r <= i < |bl|) :: LinkAt(mem', bl, i)
    requires bl[m - 1].addr in mem' && mem'[bl[m - 1].addr] == Header(c.addr, bl[m - 1].size)
    requires c.addr in mem' && mem'[c.addr] == Header(bl[if r < |bl| then r else 0].addr, c.size)
    ensures Linked(mem', Splice(bl, m, c, r))
  {
    var now := Splice(bl, m, c, r);
    forall i | 0 <= i < |now| ensures LinkAt(mem', now, i) {
      if i < m - 1 {
        assert LinkAt(mem', bl, i);
        assert now[i] == bl[i] && now[Succ(now, i)] == bl[Succ(bl, i)];
      } else if i == m - 1 {
        assert now[i] == bl[i] && now[Succ(now, i)] == c;
      } else if i == m {
        assert now[i] == c && now[Succ(now, i)] == bl[if r < |bl| then r else 0];
      } else {
        var y := r + i - m - 1;
        assert LinkAt(mem', bl, y);
        assert now[i] == bl[y] && now[Succ(now, i)] == bl[Succ(bl, y)];
      }
    }
  }

  /** free relinks the headers into exactly the list with the block inserted and merged. */
  lemma {:induction false} FreedLinked(mem: map<nat, Header>, bl: seq<Blk>, k: nat, b: Blk, base: nat, brk: nat)
    requires Linked(mem, bl) && Sorted(bl, base, brk) && Outside(bl, b, base, brk) && Slot(bl, k, b)
    requires b.addr in mem && mem[b.addr].size == b.size
    ensures bl[k].addr in mem && mem[bl[k].addr].ptr in mem && bl[k].addr != b.addr
    ensures Linked(Freed(mem, bl[k].addr, b.addr), Insert(bl, k, b))
  {
    forall i | 0 <= i < |bl| ensures bl[i].addr != b.addr && (i != k ==> bl[i].addr != bl[k].addr) {
      NotAlias(bl, k, b, base, brk, i);
    }
    NoUpToBase(bl, k, b, base, brk);
    FreedSplice(mem, bl, k, b);
  }

  /** What free must know about the list to link b behind the block at k. */
  ghost predicate FreePlace(mem: map<nat, Header>, bl: seq<Blk>, k: nat, b: Blk) {
    && k < |bl| && b.addr in mem && mem[b.addr].size == b.size
    && (forall i | 0 <= i < |bl| :: bl[i].addr != b.addr && (i != k ==> bl[i].addr != bl[k].addr))
    && (b.End() == bl[Succ(bl, k)].addr <==> TouchesNext(bl, k, b))
    && (TouchesPrev(bl, k, b) ==> k > 0)
  }

  /** The first block that is left after the merged one. */
  function AfterMerged(bl: seq<Blk>, k: nat, b: Blk): Blk
    requires k < |bl|
  {
    var r := if TouchesNext(bl, k, b) then k + 2 else k + 1;
    bl[if r < |bl| then r else 0]
  }

  lemma {:induction false} FreedParts(mem: map<nat, Header>, bl: seq<Blk>, k: nat, b: Blk)
    requires Linked(mem, bl) && FreePlace(mem, bl, k, b)
    ensures bl[k].addr in mem && mem[bl[k].addr].ptr in mem && (k > 0 ==> bl[k - 1].addr in mem)
    ensures var mem', h := Freed(mem, bl[k].addr, b.addr), Header(AfterMerged(bl, k, b).addr, Merged(bl, k, b).size);
            && (TouchesPrev(bl, k, b) ==>
                  mem'[bl[k].addr] == h && mem[bl[k - 1].addr] == Header(bl[k].addr, bl[k - 1].size))
            && (!TouchesPrev(bl, k, b) ==> mem'[b.addr] == h && mem'[bl[k].addr] == Header(b.addr, bl[k].size))
  {
    var p, next := bl[k].addr, bl[Succ(bl, k)];
    assert LinkAt(mem, bl, k) && LinkAt(mem, bl, Succ(bl, k));
    assert k > 0 ==> LinkAt(mem, bl, k - 1);
    assert TouchesNext(bl, k, b) ==> mem[next.addr].ptr == AfterMerged(bl, k, b).addr;
  }

  lemma {:induction false} FreedSplice(mem: map<nat, Header>, bl: seq<Blk>, k: nat, b: Blk)
    requires Linked(mem, bl) && FreePlace(mem, bl, k, b)
    ensures bl[k].addr in mem && mem[bl[k].addr].ptr in mem
    ensures Linked(Freed(mem, bl[k].addr, b.addr), Insert(bl, k, b))
  {
    FreedParts(mem, bl, k, b);
    var mem' := Freed(mem, bl[k].addr, b.addr);
    forall i | 0 <= i < |bl| && i != k ensures LinkAt(mem', bl, i) {
      assert LinkAt(mem, bl, i);
      FreedElsewhere(mem, bl[k].addr, b.addr, bl[i].addr);
    }
    var r := if TouchesNext(bl, k, b) then k + 2 else k + 1;
    SpliceLinked(mem', bl, if TouchesPrev(bl, k, b) then k else k + 1, Merged(bl, k, b), r);
  }

  lemma {:induction false} FreedElsewhere(mem: map<nat, Header>, p: nat, bp: nat, a: nat)
    requires p in mem && bp in mem && mem[p].ptr in mem && p != bp
    requires a in mem && a != p && a != bp
    ensures a in Freed(mem, p, bp) && Freed(mem, p, bp)[a] == mem[a]
  {
  }

  lemma {:induction false} NotAlias(bl: seq<Blk>, k: nat, b: Blk, base: nat, brk: nat, i: nat)
    requires Sorted(bl, base, brk) && Outside(bl, b, base, brk) && Slot(bl, k, b) && i < |bl|
    ensures bl[i].addr != b.addr
    ensures i != k ==> bl[i].addr != bl[k].addr
  {
  }

  lemma {:induction false} NoUpToBase(bl: seq<Blk>, k: nat, b: Blk, base: nat, brk: nat)
    requires Sorted(bl, base, brk) && Outside(bl, b, base, brk) && Slot(bl, k, b)
    ensures b.End() == bl[Succ(bl, k)].addr <==> TouchesNext(bl, k, b)
    ensures TouchesPrev(bl, k, b) ==> k > 0
  {
  }

  /** Giving back a block adds exactly its units. */
  lemma {:induction false} InsertUnits(bl: seq<Blk>, k: nat, b: Blk, u: nat)
    requires Slot(bl, k, b)
    ensures HasUnit(Insert(bl, k, b), u) <==> HasUnit(bl, u) || b.Has(u)
  {
    var up, down := TouchesNext(bl, k, b), TouchesPrev(bl, k, b);
    var now := Insert(bl, k, b);
    if i :| 0 <= i < |bl| && bl[i].Has(u) {
      var j := if i < k then i else if i == k then k
               else if i == k + 1 && up then (if down then k else k + 1)
               else i + 1 - (if up then 1 else 0) - (if down then 1 else 0);
      assert now[j].Has(u);
    }
    if b.Has(u) {
      assert now[if down then k else k + 1].Has(u);
    }
    if j :| 0 <= j < |now| && now[j].Has(u) {
      if j < k || (j == k && !down) {
        assert bl[j].Has(u);
      } else if j == (if down then k else k + 1) {
        assert bl[k].Has(u) || b.Has(u) || (up && bl[k + 1].Has(u));
      } else {
        assert bl[j - 1 + (if up then 1 else 0) + (if down then 1 else 0)].Has(u);
      }
    }
  }

  // ----- cutting a block off for malloc -----

  /** What malloc hands out: all of the block at j, or the top n units of it. */
  function Cut(bl: seq<Blk>, j: nat, n: nat): Blk
    requires j < |bl| && bl[j].size >= n
  {
    Blk(bl[j].addr + (bl[j].size - n), n)
  }

  function Without(bl: seq<Blk>, j: nat): seq<Blk>
    requires j < |bl|
  {
    bl[..j] + bl[j + 1..]
  }

  function Take(bl: seq<Blk>, j: nat, n: nat): seq<Blk>
    requires j < |bl| && bl[j].size >= n
  {
    if bl[j].size == n then Without(bl, j) else bl[j := Blk(bl[j].addr, bl[j].size - n)]
  }

  lemma {:induction false} TakeSorted(bl: seq<Blk>, j: nat, n: nat, base: nat, brk: nat)
    requires Sorted(bl, base, brk) && 1 <= j < |bl| && 1 <= n <= bl[j].size
    ensures Sorted(Take(bl, j, n), base, brk)
    ensures Outside(Take(bl, j, n), Cut(bl, j, n), base, brk)
  {
    var now := Take(bl, j, n);
    if bl[j].size == n {
      forall i | 0 <= i < |now| ensures now[i] == bl[i + (if i < j then 0 else 1)] {
      }
    }
  }

  lemma {:induction false} TakeUnits(bl: seq<Blk>, j: nat, n: nat, base: nat, brk: nat, u: nat)
    requires Sorted(bl, base, brk) && 1 <= j < |bl| && 1 <= n <= bl[j].size
    ensures HasUnit(Take(bl, j, n), u) <==> HasUnit(bl, u) && !Cut(bl, j, n).Has(u)
  {
    var now := Take(bl, j, n);
    if i :| 0 <= i < |now| && now[i].Has(u) {
      var y := if bl[j].size == n && i >= j then i + 1 else i;
      assert bl[y].Has(u);
    }
    if i :| 0 <= i < |bl| && bl[i].Has(u) {
      if !Cut(bl, j, n).Has(u) {
        var y := if bl[j].size == n && i > j then i - 1 else i;
        assert now[y].Has(u);
      }
    }
  }

  /** No other block starts where the block at j does. */
  ghost predicate Alone(bl: seq<Blk>, j: nat) {
    j < |bl| && forall i | 0 <= i < |bl| && i != j :: bl[i].addr != bl[j].addr
  }

  /** No block of the list starts where the cut is made. */
  ghost predicate CutApart(bl: seq<Blk>, j: nat, n: nat)
    requires j < |bl| && bl[j].size >= n
  {
    forall i | 0 <= i < |bl| :: bl[i].addr != Cut(bl, j, n).addr
  }

  lemma {:induction false} SortedAlone(bl: seq<Blk>, j: nat, base: nat, brk: nat)
    requires Sorted(bl, base, brk) && j < |bl|
    ensures Alone(bl, j)
  {
  }

  /** Exact fit: the predecessor skips the block. */
  lemma {:induction false} TakeAllLinked(mem: map<nat, Header>, bl: seq<Blk>, j: nat)
    requires Linked(mem, bl) && 1 <= j < |bl| && Alone(bl, j - 1)
    ensures bl[j - 1].addr in mem && bl[j].addr in mem
    ensures Linked(mem[bl[j - 1].addr := Header(mem[bl[j].addr].ptr, mem[bl[j - 1].addr].size)], Without(bl, j))
  {
    var now := Without(bl, j);
    assert LinkAt(mem, bl, j) && LinkAt(mem, bl, j - 1);
    var mem' := mem[bl[j - 1].addr := Header(mem[bl[j].addr].ptr, mem[bl[j - 1].addr].size)];
    forall i | 0 <= i < |now| ensures LinkAt(mem', now, i) {
      var y := if i < j then i else i + 1;
      assert now[i] == bl[y] && LinkAt(mem, bl, y);
      if y != j - 1 {
        assert now[Succ(now, i)] == bl[Succ(bl, y)];
      } else {
        assert now[Succ(now, i)] == bl[Succ(bl, j)];
      }
    }
  }

  /** The headers after the top n units of the block at p were cut off; x is what the word under
      the new header's link happened to hold. */
  function Shrunk(mem: map<nat, Header>, p: nat, n: nat, x: nat): map<nat, Header>
    requires p in mem && n < mem[p].size
  {
    mem[p := Header(mem[p].ptr, mem[p].size - n)][p + (mem[p].size - n) := Header(x, n)]
  }

  /** Otherwise the block shrinks, and a header is written where the cut begins. */
  lemma {:induction false} TakeTopLinked(mem: map<nat, Header>, bl: seq<Blk>, j: nat, n: nat, x: nat)
    requires Linked(mem, bl) && j < |bl| && 1 <= n < bl[j].size && Alone(bl, j)
    requires CutApart(bl, j, n)
    ensures bl[j].addr in mem && mem[bl[j].addr].size == bl[j].size
    ensures Linked(Shrunk(mem, bl[j].addr, n, x), Take(bl, j, n))
  {
    assert LinkAt(mem, bl, j);
    var now := Take(bl, j, n);
    var mem' := Shrunk(mem, bl[j].addr, n, x);
    forall i | 0 <= i < |now| ensures LinkAt(mem', now, i) {
      assert now[i].addr == bl[i].addr && now[Succ(now, i)].addr == bl[Succ(bl, i)].addr;
      assert LinkAt(mem, bl, i) && bl[i].addr != Cut(bl, j, n).addr;
    }
  }

  // ----- walking the ring -----

  /** The block reached from the one at t after 1 + w steps. */
  function Nth(len: nat, t: nat, w: nat): (i: nat)
    requires t < len && w < len
    ensures i < len
  {
    if t + 1 + w < len then t + 1 + w else t + 1 + w - len
  }

  /** free stops walking exactly at the slot of the block. */
  lemma {:induction false} SearchStops(bl: seq<Blk>, q: nat, k: nat, b: Blk, base: nat, brk: nat)
    requires Sorted(bl, base, brk) && base < b.addr && b.size >= 1 && Slot(bl, k, b) && q < |bl|
    ensures var p, next := bl[q].addr, bl[Succ(bl, q)].addr;
            (p < b.addr < next || (p >= next && (b.addr > p || b.addr < next))) <==> q == k
  {
    var p := bl[q].addr;
    if q + 1 < |bl| {
      assert bl[q].End() < bl[q + 1].addr;
      if q < k {
        assert q + 1 == k || bl[q + 1].End() < bl[k].addr;
      } else if k < q {
        assert k + 1 == q || bl[k + 1].End() < bl[q].addr;
      }
    } else {
      assert q == 0 || bl[0].End() < bl[q].addr;
      assert k + 1 < q ==> bl[k + 1].End() < bl[q].addr;
    }
  }

  /** The test on which the loop of free ends. */
  predicate Stops(p: nat, next: nat, bp: nat) {
    p < bp < next || (p >= next && (bp > p || bp < next))
  }

  ghost predicate StopsOnlyAt(bl: seq<Blk>, k: nat, bp: nat) {
    forall q {:trigger Succ(bl, q)} | 0 <= q < |bl| :: Stops(bl[q].addr, bl[Succ(bl, q)].addr, bp) <==> q == k
  }

  lemma {:induction false} SlotStops(bl: seq<Blk>, k: nat, b: Blk, base: nat, brk: nat)
    requires Sorted(bl, base, brk) && base < b.addr && b.size >= 1 && Slot(bl, k, b)
    ensures StopsOnlyAt(bl, k, b.addr)
  {
    forall q | 0 <= q < |bl| ensures Stops(bl[q].addr, bl[Succ(bl, q)].addr, b.addr) <==> q == k {
      SearchStops(bl, q, k, b, base, brk);
    }
  }

  lemma {:induction false} LinkedElsewhere(mem: map<nat, Header>, bl: seq<Blk>, a: nat, h: Header)
    requires Linked(mem, bl)
    requires forall i | 0 <= i < |bl| :: bl[i].addr != a
    ensures Linked(mem[a := h], bl)
  {
    var mem' := mem[a := h];
    forall i | 0 <= i < |bl| ensures LinkAt(mem', bl, i) {
      assert LinkAt(mem, bl, i);
    }
  }

  lemma {:induction false} AddressesBelow(bl: seq<Blk>, a: nat, base: nat, brk: nat)
    requires Sorted(bl, base, brk) && base < brk <= a
    ensures forall i | 0 <= i < |bl| :: bl[i].addr != a
  {
    forall i | 0 <= i < |bl| ensures bl[i].addr != a {
      assert bl[i].End() <= brk;
    }
  }
}
