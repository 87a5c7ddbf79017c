/** malloc and free of umalloc.c. */
module Heap {
  import opened FreeList
  import opened Sealing
  import opened Options

  /** Blocks the program holds, by header address, with their sizes in units. */
  type Live = map<nat, nat>

  ghost predicate LiveUnit(live: Live, u: nat) {
    exists a | a in live :: a <= u < a + live[a]
  }

  /** Held blocks keep their size field, lie clear of the free list, and do not overlap. */
  ghost predicate LiveOk(mem: map<nat, Header>, live: Live, bl: seq<Blk>, base: nat, brk: nat) {
    && (forall a | a in live :: a in mem && mem[a].size == live[a] && Outside(bl, Blk(a, live[a]), base, brk))
    && (forall a, b | a in live && b in live && a < b :: a + live[a] <= b)
  }

  /** Every unit that ever came from sbrk is in a free block or in a held one. */
  ghost predicate Accounts(obtained: set<nat>, bl: seq<Blk>, live: Live) {
    forall u :: u in obtained <==> HasUnit(bl, u) || LiveUnit(live, u)
  }

  ghost predicate Ready(mem: map<nat, Header>, bl: seq<Blk>, live: Live, base: nat, brk: nat) {
    Sorted(bl, base, brk) && Linked(mem, bl) && LiveOk(mem, live, bl, base, brk)
  }

  /** All of the above, sealed. */
  ghost predicate Sound(mem: map<nat, Header>, bl: seq<Blk>, live: Live, obtained: set<nat>, base: nat, brk: nat) {
    forall u: int | Key(u, (mem, bl)) :: Ready(mem, bl, live, base, brk) && Accounts(obtained, bl, live)
  }

  ghost predicate SameUnit(mem: map<nat, Header>, mem': map<nat, Header>, u: nat) {
    (u in mem' <==> u in mem) && (u in mem ==> mem'[u] == mem[u])
  }

  ghost predicate KeptAt(mem: map<nat, Header>, mem': map<nat, Header>, live: Live, a: nat) {
    a in live ==> forall u: nat | a <= u < a + live[a] :: SameUnit(mem, mem', u)
  }

  /** Every unit of every held block is as it was. */
  ghost predicate KeepsHeld(mem: map<nat, Header>, mem': map<nat, Header>, live: Live) {
    forall a: nat :: KeptAt(mem, mem', live, a)
  }

  lemma {:induction false} KeepsNothing(mem: map<nat, Header>, live: Live)
    ensures KeepsHeld(mem, mem, live)
  {
    forall a: nat ensures KeptAt(mem, mem, live, a) {
    }
  }

  lemma {:induction false} KeepsFirst(mem: map<nat, Header>, mem': map<nat, Header>, live: Live, first: bool)
    requires if first then live == map[] else mem' == mem
    ensures KeepsHeld(mem, mem', live)
  {
    forall a: nat ensures KeptAt(mem, mem', live, a) {
    }
  }

  lemma {:induction false} KeepsTwice(mem: map<nat, Header>, mem1: map<nat, Header>, mem2: map<nat, Header>, live: Live)
    requires KeepsHeld(mem, mem1, live) && KeepsHeld(mem1, mem2, live)
    ensures KeepsHeld(mem, mem2, live)
  {
    forall a: nat ensures KeptAt(mem, mem2, live, a) {
      assert KeptAt(mem, mem1, live, a) && KeptAt(mem1, mem2, live, a);
      if a in live {
        forall u: nat | a <= u < a + live[a] ensures SameUnit(mem, mem2, u) {
          assert SameUnit(mem, mem1, u) && SameUnit(mem1, mem2, u);
        }
      }
    }
  }

  /** Unit x lies outside the held block at a. */
  ghost predicate Misses(live: Live, a: nat, x: nat) {
    a in live ==> !(a <= x < a + live[a])
  }

  ghost predicate MissesAll(live: Live, x: nat) {
    forall a: nat :: Misses(live, a, x)
  }

  lemma {:induction false} StoreKeeps(mem: map<nat, Header>, x: nat, h: Header, live: Live)
    requires MissesAll(live, x)
    ensures KeepsHeld(mem, mem[x := h], live)
  {
    var mem' := mem[x := h];
    forall a: nat ensures KeptAt(mem, mem', live, a) {
      assert Misses(live, a, x);
    }
  }

  /** No free block starts inside a held one, nor would one cut from the top of a free block. */
  lemma {:induction false} FreeNotHeld(mem: map<nat, Header>, live: Live, bl: seq<Blk>, base: nat, brk: nat,
                                       i: nat, x: nat)
    requires LiveOk(mem, live, bl, base, brk) && i < |bl| && (i == 0 ==> x == base) && (i > 0 ==> bl[i].Has(x))
    ensures MissesAll(live, x)
  {
    forall a: nat ensures Misses(live, a, x) {
      if a in live { assert Outside(bl, Blk(a, live[a]), base, brk); }
    }
  }

  ghost predicate On(bl: seq<Blk>, a: nat) {
    exists i | 0 <= i < |bl| :: bl[i].addr == a
  }

  lemma {:induction false} FreeKeepsLive(mem: map<nat, Header>, bl: seq<Blk>, live: Live, k: nat, bp: nat,
                                         base: nat, brk: nat)
    requires Ready(mem, bl, live, base, brk) && bp in live && Slot(bl, k, Blk(bp, live[bp]))
    ensures bl[k].addr in mem && bp in mem && mem[bl[k].addr].ptr in mem && bl[k].addr != bp
    ensures Ready(Freed(mem, bl[k].addr, bp), Insert(bl, k, Blk(bp, live[bp])), live - {bp}, base, brk)
  {
    var b := Blk(bp, live[bp]);
    InsertSorted(bl, k, b, base, brk);
    FreedLinked(mem, bl, k, b, base, brk);
    var mem', bl' := Freed(mem, bl[k].addr, bp), Insert(bl, k, b);
    forall a | a in live - {bp}
      ensures a in mem' && mem'[a].size == live[a] && Outside(bl', Blk(a, live[a]), base, brk)
    {
      LiveNotFree(bl, a, live[a], k, base, brk);
      FreedElsewhere(mem, bl[k].addr, bp, a);
      InsertOutside(bl, k, b, Blk(a, live[a]), base, brk);
    }
  }

  lemma {:induction false} LiveNotFree(bl: seq<Blk>, a: nat, size: nat, k: nat, base: nat, brk: nat)
    requires Sorted(bl, base, brk) && Outside(bl, Blk(a, size), base, brk) && k < |bl|
    ensures bl[k].addr != a
  {
  }

  /** A block clear of the list and of b is clear of the list with b inserted. */
  lemma {:induction false} InsertOutside(bl: seq<Blk>, k: nat, b: Blk, c: Blk, base: nat, brk: nat)
    requires Sorted(bl, base, brk) && Slot(bl, k, b) && Outside(bl, c, base, brk)
    requires b.End() <= c.addr || c.End() <= b.addr
    requires b.size >= 1 && base < b.addr
    ensures Outside(Insert(bl, k, b), c, base, brk)
  {
    var now := Insert(bl, k, b);
    forall i | 1 <= i < |now| ensures now[i].End() <= c.addr || c.End() <= now[i].addr {
      if !(now[i].End() <= c.addr || c.End() <= now[i].addr) {
        var u := if now[i].addr <= c.addr then c.addr else now[i].addr;
        assert now[i].Has(u) && c.Has(u);
        assert HasUnit(now, u);
        InsertUnits(bl, k, b, u);
        var j :| 0 <= j < |bl| && bl[j].Has(u);
        assert false;
      }
    }
  }

  class Allocator {
    const base: nat
    var mem: map<nat, Header>
    var freep: nat
    var brk: nat
    ghost var free: seq<Blk>
    ghost var live: Live
    ghost var obtained: set<nat>

    ghost predicate Valid()
      reads this
    {
      && 0 < base < brk
      && (freep == 0 ==> free == [] && live == map[] && obtained == {})
      && (freep != 0 ==> Sound(mem, free, live, obtained, base, brk) && On(free, freep))
    }

    /** A process at start-up: base is a static header, the heap begins above it. */
    constructor (b: nat, top: nat)
      requires 0 < b < top
      ensures Valid() && freep == 0 && base == b && brk == top
    {
      base, brk, freep := b, top, 0;
      mem, free, live, obtained := map[], [], map[], {};
    }

    /** free of the block whose header is at bp: it joins the list right where it belongs. */
    method Free(bp: nat) returns (ghost k: nat)
      requires Valid() && bp in live
      modifies this`mem, this`freep, this`free, this`live
      ensures Valid() && freep != 0
      ensures live == old(live) - {bp} && KeepsHeld(old(mem), mem, live)
      ensures var b := Blk(bp, old(live)[bp]);
              Slot(old(free), k, b) && free == Insert(old(free), k, b) && freep == old(free)[k].addr
    {
      var p;
      p, k := Place(bp);
      Relink(p, bp);
      assert Sound(mem, Insert(free, k, Blk(bp, live[bp])), live - {bp}, obtained, base, brk);
      freep := p;
      free, live := Insert(free, k, Blk(bp, live[bp])), live - {bp};
    }

    method Place(bp: nat) returns (p: nat, ghost k: nat)
      requires Valid() && bp in live
      ensures Slot(free, k, Blk(bp, live[bp])) && p == free[k].addr && p != 0
      ensures p in mem && bp in mem && mem[p].ptr in mem && p != bp
      ensures On(Insert(free, k, Blk(bp, live[bp])), p)
      ensures Sound(Freed(mem, p, bp), Insert(free, k, Blk(bp, live[bp])), live - {bp}, obtained, base, brk)
      ensures KeepsHeld(mem, Freed(mem, p, bp), live - {bp})
    {
      k := PlanFree(mem, free, live, obtained, base, brk, bp);
      p := FindPlace(mem, freep, bp, free, k);
    }

    /** Join bp to the upper and to the lower neighbour, or link it between them. */
    method Relink(p: nat, bp: nat)
      requires p in mem && bp in mem && mem[p].ptr in mem && p != bp
      modifies this`mem
      ensures mem == Freed(old(mem), p, bp)
    {
      if bp + mem[bp].size == mem[p].ptr {
        mem := mem[bp := Header(mem[mem[p].ptr].ptr, mem[bp].size + mem[mem[p].ptr].size)];
      } else {
        mem := mem[bp := mem[bp].(ptr := mem[p].ptr)];
      }
      if p + mem[p].size == bp {
        mem := mem[p := Header(mem[bp].ptr, mem[p].size + mem[bp].size)];
      } else {
        mem := mem[p := mem[p].(ptr := bp)];
      }
    }

    /** Ask the system for at least nu units. The grant says how far the break had moved up since
        the last call, or that sbrk failed. The new memory is passed to free. */
    method Morecore(nu: nat, grant: Option<nat>) returns (ok: bool, ghost k: nat)
      requires Valid() && freep != 0
      modifies this`mem, this`freep, this`free, this`live, this`obtained, this`brk
      ensures Valid() && freep != 0 && ok == grant.Some?
      ensures live == old(live) && KeepsHeld(old(mem), mem, live)
      ensures !ok ==> free == old(free) && obtained == old(obtained) && freep == old(freep) && brk == old(brk)
      ensures ok ==> brk == old(brk) + grant.value + if nu < 4096 then 4096 else nu
      ensures ok ==> Cored(old(free), free, freep, Core(old(brk), grant.value, nu), k, old(obtained), obtained)
      ensures ok ==> !NoneFits(free, nu)
    {
      k := 0;
      var n := if nu < 4096 then 4096 else nu;
      if grant.None? {
        KeepsNothing(mem, live);
        return false, k;
      }
      var hp := brk + grant.value;
      Grow(hp, n);
      ghost var mem1 := mem;
      k := Free(hp);
      InsertAt(old(free), k, Blk(hp, n));
      KeepsTwice(old(mem), mem1, mem, old(live));
      ok := true;
    }

    /** sbrk succeeded: the header of the new memory is filled in as if it had been handed out. */
    method Grow(hp: nat, n: nat)
      requires Valid() && freep != 0 && brk <= hp && 1 <= n
      modifies this`mem, this`live, this`obtained, this`brk
      ensures Valid() && brk == hp + n
      ensures hp in live && live[hp] == n && live - {hp} == old(live) && KeepsHeld(old(mem), mem, old(live))
      ensures obtained == old(obtained) + Units(Blk(hp, n)) && Units(Blk(hp, n)) !! old(obtained)
    {
      PlanCore(mem, free, live, obtained, base, brk, hp, n);
      ghost var more, units := live[hp := n], obtained + Units(Blk(hp, n));
      assert hp in more && more[hp] == n && more - {hp} == live;
      brk, mem := hp + n, mem[hp := Header(0, n)];
      live, obtained := more, units;
      assert Sound(mem, free, live, obtained, base, brk);
    }

    /** The first call of malloc makes base a ring of one empty block. */
    method Start()
      requires Valid() && freep == 0
      modifies this`mem, this`freep, this`free
      ensures Valid() && freep == base && free == [Blk(base, 0)]
    {
      PlanStart(mem, base, brk);
      mem := mem[base := Header(base, 0)];
      freep := base;
      free := [Blk(base, 0)];
    }

    /** malloc for nbytes bytes. The result is the address of the block's header, one unit below
        the pointer C returns; 0 is failure. The search takes the first block after freep that fits.
        Only when it has been all round the ring does it ask for more memory, and then it finds a
        block before it gets round again. The ghost results say where: at j in the ring, after new
        memory went in behind the block at k if nothing fitted. */
    method Malloc(nbytes: nat, grant: Option<nat>) returns (r: nat, ghost j: nat, ghost k: nat)
      requires Valid()
      modifies this
      ensures Valid() && freep != 0 && KeepsHeld(old(mem), mem, old(live))
      ensures Outcome(UnitsFor(nbytes), grant, Ring(old(freep), old(free), base), From(old(freep), base),
                      old(brk), old(live), old(obtained), r, j, k, free, freep, brk, live, obtained)
    {
      var n := (nbytes + HEADER_BYTES - 1) / HEADER_BYTES + 1;
      if freep == 0 {
        Start();
      }
      KeepsFirst(old(mem), mem, old(live), old(freep) == 0);
      ghost var mem1 := mem;
      r, j, k := MallocUnits(n, grant);
      KeepsTwice(old(mem), mem1, mem, old(live));
    }

    /** The loop of malloc, one round of the ring per iteration. */
    method MallocUnits(n: nat, grant: Option<nat>) returns (r: nat, ghost j: nat, ghost k: nat)
      requires Valid() && freep != 0 && 1 <= n
      modifies this
      ensures Valid() && freep != 0 && KeepsHeld(old(mem), mem, old(live))
      ensures Outcome(n, grant, old(free), old(freep), old(brk), old(live), old(obtained),
                      r, j, k, free, freep, brk, live, obtained)
    {
      j, k := 0, 0;
      ghost var cored := false;
      KeepsNothing(mem, live);
      while true
        invariant Valid() && freep != 0 && live == old(live) && KeepsHeld(old(mem), mem, live)
        invariant !cored ==> free == old(free) && freep == old(freep) && obtained == old(obtained) && brk == old(brk)
        invariant cored ==> !NoneFits(free, n) && NoneFits(old(free), n) && grant.Some?
        invariant cored ==> brk == Core(old(brk), grant.value, n).End()
        invariant cored ==> Cored(old(free), free, freep, Core(old(brk), grant.value, n), k, old(obtained), obtained)
        decreases !cored
      {
        ghost var mem1 := mem;
        var found;
        found, r, j := SearchRound(n);
        if found {
          KeepsTwice(old(mem), mem1, mem, old(live));
          return;
        }
        var ok;
        ok, k := Morecore(n, grant);
        KeepsTwice(old(mem), mem1, mem, live);
        if !ok {
          return 0, j, k;
        }
        cored := true;
      }
    }

    /** One round of the ring, and the block taken if one fits. */
    method SearchRound(n: nat) returns (found: bool, r: nat, ghost j: nat)
      requires Valid() && freep != 0 && 1 <= n
      modifies this`mem, this`freep, this`free, this`live
      ensures Valid() && freep != 0 && found == !NoneFits(old(free), n)
      ensures !found ==> mem == old(mem) && freep == old(freep) && free == old(free) && live == old(live)
      ensures found ==>
                && r != 0 && r !in old(live) && live == old(live)[r := n] && KeepsHeld(old(mem), mem, old(live))
                && Takes(old(free), old(freep), j, n, r, free, freep)
    {
      ghost var t := PlanWalk(mem, free, live, obtained, base, brk, freep);
      var prevp, p;
      found, prevp, p, j := NextFit(mem, freep, n, free, t);
      r := 0;
      if found {
        assert free[j].size >= n;
        r := TakeBlock(prevp, p, n, j);
      }
    }

    /** malloc has found a block that is large enough: use it up or cut its top off. */
    method TakeBlock(prevp: nat, p: nat, n: nat, ghost j: nat) returns (r: nat)
      requires Valid() && freep != 0
      requires 1 <= j < |free| && p == free[j].addr && prevp == free[j - 1].addr && 1 <= n <= free[j].size
      modifies this`mem, this`freep, this`free, this`live
      ensures Valid() && freep == prevp && freep != 0 && r != 0
      ensures r == Cut(old(free), j, n).addr && free == Take(old(free), j, n)
      ensures r !in old(live) && live == old(live)[r := n] && KeepsHeld(old(mem), mem, old(live))
    {
      TakeAt(free, j, n);
      var m;
      ghost var x;
      PlanTake(mem, free, live, obtained, base, brk, j, n);
      m, r, x := Detach(mem, prevp, p, n);
      assert r == Cut(free, j, n).addr;
      PlanTaken(mem, free, live, obtained, base, brk, j, n, x);
      assert Sound(m, Take(free, j, n), live[r := n], obtained, base, brk);
      mem, freep := m, prevp;
      free, live := Take(free, j, n), live[r := n];
    }

    /** Whatever the program writes into a block it holds, other than over its header, the
        allocator is unharmed. */
    method UserWrite(a: nat, u: nat, h: Header)
      requires Valid() && a in live && a < u < a + live[a]
      modifies this`mem
      ensures Valid() && mem == old(mem)[u := h]
    {
      PlanWrite(mem, free, live, obtained, base, brk, a, u, h);
      mem := mem[u := h];
    }
  }

  // ----- what each operation may rely on, and why it leaves the heap sound -----

  lemma {:induction false} PlanFree(mem: map<nat, Header>, bl: seq<Blk>, live: Live, obtained: set<nat>,
                                    base: nat, brk: nat, bp: nat)
    returns (k: nat)
    requires Sound(mem, bl, live, obtained, base, brk) && bp in live && 0 < base
    ensures Linked(mem, bl) && Slot(bl, k, Blk(bp, live[bp])) && StopsOnlyAt(bl, k, bp)
    ensures bl[k].addr in mem && bp in mem && mem[bl[k].addr].ptr in mem && bl[k].addr != bp && bl[k].addr != 0
    ensures On(Insert(bl, k, Blk(bp, live[bp])), bl[k].addr)
    ensures Sound(Freed(mem, bl[k].addr, bp), Insert(bl, k, Blk(bp, live[bp])), live - {bp}, obtained, base, brk)
    ensures KeepsHeld(mem, Freed(mem, bl[k].addr, bp), live - {bp})
  {
    assert Key(0, (mem, bl));
    var b := Blk(bp, live[bp]);
    k := FindSlot(bl, b, base, brk);
    SlotStops(bl, k, b, base, brk);
    FreeKeepsLive(mem, bl, live, k, bp, base, brk);
    FreeKeepsAccounts(obtained, bl, live, k, bp);
    InsertAt(bl, k, b);
    assert k > 0 ==> bl[0].End() < bl[k].addr;
    FreedKeepsHeld(mem, bl, live, base, brk, k, bp);
  }

  lemma {:induction false} FreedKeepsHeld(mem: map<nat, Header>, bl: seq<Blk>, live: Live, base: nat, brk: nat,
                                          k: nat, bp: nat)
    requires LiveOk(mem, live, bl, base, brk) && k < |bl| && bl[0].addr == base && (k > 0 ==> bl[k].size >= 1)
    requires bp in live && bl[k].addr in mem && bp in mem && mem[bl[k].addr].ptr in mem && bl[k].addr != bp
    ensures KeepsHeld(mem, Freed(mem, bl[k].addr, bp), live - {bp})
  {
    var p, live' := bl[k].addr, live - {bp};
    FreeNotHeld(mem, live, bl, base, brk, k, p);
    forall a: nat ensures Misses(live', a, bp) && Misses(live', a, p) {
      assert Misses(live, a, p);
      if a in live' && a < bp { assert a in live && a + live[a] <= bp; }
    }
    FreedStores(mem, p, bp, live');
  }

  /** free stores to two headers. */
  lemma {:induction false} FreedStores(mem: map<nat, Header>, p: nat, bp: nat, live: Live)
    requires p in mem && bp in mem && mem[p].ptr in mem && p != bp
    requires MissesAll(live, bp) && MissesAll(live, p)
    ensures KeepsHeld(mem, Freed(mem, p, bp), live)
  {
    var mem' := Freed(mem, p, bp);
    StoreKeeps(mem, bp, mem'[bp], live);
    StoreKeeps(mem[bp := mem'[bp]], p, mem'[p], live);
    assert mem' == mem[bp := mem'[bp]][p := mem'[p]];
    KeepsTwice(mem, mem[bp := mem'[bp]], mem', live);
  }

  lemma {:induction false} PlanCore(mem: map<nat, Header>, bl: seq<Blk>, live: Live, obtained: set<nat>,
                                    base: nat, brk: nat,
                                    hp: nat, n: nat)
    requires Sound(mem, bl, live, obtained, base, brk)
    requires base < brk <= hp && n >= 1
    ensures Sound(mem[hp := Header(0, n)], bl, live[hp := n], obtained + Units(Blk(hp, n)), base, hp + n)
    ensures hp !in live && live[hp := n] - {hp} == live
    ensures Units(Blk(hp, n)) !! obtained
    ensures KeepsHeld(mem, mem[hp := Header(0, n)], live)
  {
    assert Key(0, (mem, bl));
    StoreAbove(mem, bl, live, base, brk, hp, Header(0, n));
    CoreKeeps(mem, bl, live, obtained, base, brk, Blk(hp, n), Header(0, n));
    AddThenRemove(live, hp, n);
  }

  lemma {:induction false} StoreAbove(mem: map<nat, Header>, bl: seq<Blk>, live: Live, base: nat, brk: nat, hp: nat,
                                      h: Header)
    requires LiveOk(mem, live, bl, base, brk) && brk <= hp
    ensures KeepsHeld(mem, mem[hp := h], live)
  {
    LiveBelow(mem, bl, live, base, brk);
    forall a: nat ensures Misses(live, a, hp) {
    }
    StoreKeeps(mem, hp, h, live);
  }

  lemma {:induction false} PlanStart(mem: map<nat, Header>, base: nat, brk: nat)
    requires 0 < base < brk
    ensures Sound(mem[base := Header(base, 0)], [Blk(base, 0)], map[], {}, base, brk)
    ensures On([Blk(base, 0)], base)
  {
    assert [Blk(base, 0)][0].addr == base;
  }

  lemma {:induction false} PlanWalk(mem: map<nat, Header>, bl: seq<Blk>, live: Live, obtained: set<nat>,
                                    base: nat, brk: nat, freep: nat)
    returns (t: nat)
    requires Sound(mem, bl, live, obtained, base, brk) && On(bl, freep)
    ensures Linked(mem, bl) && t < |bl| && bl[t].addr == freep && Alone(bl, t) && bl[0].size == 0
  {
    assert Key(0, (mem, bl));
    t :| 0 <= t < |bl| && bl[t].addr == freep;
    SortedAlone(bl, t, base, brk);
  }

  lemma {:induction false} PlanTake(mem: map<nat, Header>, bl: seq<Blk>, live: Live, obtained: set<nat>,
                                    base: nat, brk: nat,
                                    j: nat, n: nat)
    requires Sound(mem, bl, live, obtained, base, brk) && 1 <= j < |bl| && 1 <= n <= bl[j].size && 0 < base
    ensures bl[j].addr in mem && bl[j - 1].addr in mem && mem[bl[j].addr].size == bl[j].size
    ensures bl[j - 1].addr > 0 && bl[j].addr > 0
  {
    assert Key(0, (mem, bl));
    assert LinkAt(mem, bl, j) && LinkAt(mem, bl, j - 1);
    assert j - 1 > 0 ==> bl[0].End() < bl[j - 1].addr;
    assert bl[0].End() < bl[j].addr;
  }

  lemma {:induction false} PlanTaken(mem: map<nat, Header>, bl: seq<Blk>, live: Live, obtained: set<nat>,
                                     base: nat, brk: nat,
                                     j: nat, n: nat, x: nat)
    requires Sound(mem, bl, live, obtained, base, brk) && 1 <= j < |bl| && 1 <= n <= bl[j].size
    requires bl[j].addr in mem && bl[j - 1].addr in mem && mem[bl[j].addr].size == bl[j].size
    ensures Cut(bl, j, n).addr !in live
    ensures Sound(Detached(mem, bl[j - 1].addr, bl[j].addr, n, x), Take(bl, j, n),
                  live[Cut(bl, j, n).addr := n], obtained, base, brk)
    ensures KeepsHeld(mem, Detached(mem, bl[j - 1].addr, bl[j].addr, n, x), live)
  {
    assert Key(0, (mem, bl));
    var mem', cut := Detached(mem, bl[j - 1].addr, bl[j].addr, n, x), Cut(bl, j, n).addr;
    if bl[j].size == n {
      TakeAllKeeps(mem, bl, live, j, base, brk);
      assert Ready(mem', Take(bl, j, n), live[cut := n], base, brk);
    } else {
      TakeTopKeeps(mem, bl, live, j, n, x, base, brk);
      assert Ready(mem', Take(bl, j, n), live[cut := n], base, brk);
    }
    TakeKeepsAccounts(obtained, bl, live, j, n, base, brk);
    DetachedKeepsHeld(mem, bl, live, base, brk, j, n, x);
  }

  lemma {:induction false} DetachedKeepsHeld(mem: map<nat, Header>, bl: seq<Blk>, live: Live, base: nat, brk: nat,
                                             j: nat, n: nat, x: nat)
    requires LiveOk(mem, live, bl, base, brk) && 1 <= j < |bl| && 1 <= n <= bl[j].size
    requires bl[0].addr == base && (j > 1 ==> bl[j - 1].size >= 1)
    requires bl[j].addr in mem && bl[j - 1].addr in mem && mem[bl[j].addr].size == bl[j].size
    ensures KeepsHeld(mem, Detached(mem, bl[j - 1].addr, bl[j].addr, n, x), live)
  {
    FreeNotHeld(mem, live, bl, base, brk, j, bl[j].addr);
    FreeNotHeld(mem, live, bl, base, brk, j - 1, bl[j - 1].addr);
    FreeNotHeld(mem, live, bl, base, brk, j, Cut(bl, j, n).addr);
    DetachedStores(mem, bl[j - 1].addr, bl[j].addr, n, x, live);
  }

  lemma {:induction false} DetachedStores(mem: map<nat, Header>, prevp: nat, p: nat, n: nat, x: nat, live: Live)
    requires prevp in mem && p in mem && 1 <= n <= mem[p].size
    requires MissesAll(live, prevp) && MissesAll(live, p) && MissesAll(live, p + (mem[p].size - n))
    ensures KeepsHeld(mem, Detached(mem, prevp, p, n, x), live)
  {
    if mem[p].size == n {
      StoreKeeps(mem, prevp, mem[prevp].(ptr := mem[p].ptr), live);
    } else {
      var mem1 := mem[p := Header(mem[p].ptr, mem[p].size - n)];
      StoreKeeps(mem, p, mem1[p], live);
      StoreKeeps(mem1, p + (mem[p].size - n), Header(x, n), live);
      KeepsTwice(mem, mem1, Shrunk(mem, p, n, x), live);
    }
  }

  lemma {:induction false} PlanWrite(mem: map<nat, Header>, bl: seq<Blk>, live: Live, obtained: set<nat>,
                                     base: nat, brk: nat,
                                     a: nat, u: nat, h: Header)
    requires Sound(mem, bl, live, obtained, base, brk) && a in live && a < u < a + live[a]
    ensures Sound(mem[u := h], bl, live, obtained, base, brk)
  {
    assert Key(0, (mem, bl));
    WriteKeeps(mem, bl, live, base, brk, a, u, h);
  }

  /** The loop of free: the free block after which bp belongs. */
  method FindPlace(mem: map<nat, Header>, freep: nat, bp: nat, ghost bl: seq<Blk>, ghost k: nat) returns (p: nat)
    requires Linked(mem, bl) && k < |bl| && StopsOnlyAt(bl, k, bp) && On(bl, freep)
    ensures p == bl[k].addr
  {
    ghost var q :| 0 <= q < |bl| && bl[q].addr == freep;
    assert LinkAt(mem, bl, q);
    p := freep;
    while !(bp > p && bp < mem[p].ptr)
      invariant 0 <= q < |bl| && p == bl[q].addr && p in mem
      decreases if q <= k then k - q else |bl| + k - q
    {
      assert LinkAt(mem, bl, q);
      if p >= mem[p].ptr && (bp > p || bp < mem[p].ptr) {
        return;
      }
      p := mem[p].ptr;
      q := Succ(bl, q);
      assert LinkAt(mem, bl, q);
    }
    assert LinkAt(mem, bl, q);
  }

  /** The headers after a block was used up or its top n units were cut off. */
  function Detached(mem: map<nat, Header>, prevp: nat, p: nat, n: nat, x: nat): map<nat, Header>
    requires prevp in mem && p in mem && n <= mem[p].size
  {
    if mem[p].size == n then mem[prevp := mem[prevp].(ptr := mem[p].ptr)] else Shrunk(mem, p, n, x)
  }

  /** The assignments of malloc to the block it found. */
  method Detach(mem: map<nat, Header>, prevp: nat, p: nat, n: nat) returns (m: map<nat, Header>, r: nat, ghost x: nat)
    requires prevp in mem && p in mem && 1 <= n <= mem[p].size
    ensures m == Detached(mem, prevp, p, n, x) && r == p + (mem[p].size - n)
  {
    x := 0;
    if mem[p].size == n {
      m := mem[prevp := mem[prevp].(ptr := mem[p].ptr)];
      r := p;
    } else {
      m := mem[p := mem[p].(size := mem[p].size - n)];
      r := p + m[p].size;
      var link := if r in mem then mem[r].ptr else 0;
      x := link;
      m := m[r := Header(link, n)];
    }
  }

  /** What malloc of n units does to the free list was, searched from the block at from. */
  ghost predicate Outcome(n: nat, grant: Option<nat>, was: seq<Blk>, from: nat, brk: nat, live: Live,
                          obtained: set<nat>,
                          r: nat, j: nat, k: nat, free': seq<Blk>, freep': nat, brk': nat, live': Live,
                          obtained': set<nat>)
  {
    if r == 0 then
      && NoneFits(was, n) && grant.None?
      && free' == was && freep' == from && brk' == brk && live' == live && obtained' == obtained
    else
      && r !in live && live' == live[r := n]
      && if NoneFits(was, n) then
           && grant.Some?
           && var core := Blk(brk + grant.value, if n < 4096 then 4096 else n);
              && obtained' == obtained + Units(core) && Units(core) !! obtained && brk' == core.End()
              && Slot(was, k, core)
              && Takes(Insert(was, k, core), was[k].addr, j, n, r, free', freep')
         else
           obtained' == obtained && brk' == brk && Takes(was, from, j, n, r, free', freep')
  }

  ghost predicate Cored(was: seq<Blk>, now: seq<Blk>, freep: nat, core: Blk, k: nat, before: set<nat>,
                        after: set<nat>) {
    && Slot(was, k, core) && now == Insert(was, k, core) && freep == was[k].addr
    && after == before + Units(core) && Units(core) !! before
  }

  /** One round of the search: the steps from freep's successor on until a block fits or p is freep
      again. */
  method NextFit(mem: map<nat, Header>, freep: nat, n: nat, ghost bl: seq<Blk>, ghost t: nat)
    returns (found: bool, prevp: nat, p: nat, ghost j: nat)
    requires Linked(mem, bl) && t < |bl| && bl[t].addr == freep && Alone(bl, t) && bl[0].size == 0 && 1 <= n
    ensures found ==>
              && 1 <= j < |bl| && p == bl[j].addr && prevp == bl[j - 1].addr && n <= bl[j].size
              && FirstAfter(bl, freep, j, n)
    ensures !found ==> NoneFits(bl, n)
  {
    WalkStart(mem, bl, t, freep, n);
    found, prevp, p, j := WalkRing(mem, freep, n, bl, t);
  }

  /** The loop of that round. */
  method WalkRing(mem: map<nat, Header>, freep: nat, n: nat, ghost bl: seq<Blk>, ghost t: nat)
    returns (found: bool, prevp: nat, p: nat, ghost j: nat)
    requires freep in mem && OnWalk(mem, bl, t, 0, freep, freep, mem[freep].ptr, n)
    ensures found ==>
              && 1 <= j < |bl| && p == bl[j].addr && prevp == bl[j - 1].addr && n <= bl[j].size
              && FirstAfter(bl, freep, j, n)
    ensures !found ==> NoneFits(bl, n)
  {
    ghost var v := 0;
    prevp := freep;
    p := mem[prevp].ptr;
    WalkFacts(mem, bl, t, v, freep, prevp, p, n);
    while mem[p].size < n && p != freep
      invariant OnWalk(mem, bl, t, v, freep, prevp, p, n) && p in mem
      decreases |bl| - v
    {
      WalkFacts(mem, bl, t, v, freep, prevp, p, n);
      prevp := p;
      p := mem[p].ptr;
      v := v + 1;
      WalkFacts(mem, bl, t, v, freep, prevp, p, n);
    }
    WalkFacts(mem, bl, t, v, freep, prevp, p, n);
    j := Nth(|bl|, t, v);
    found := mem[p].size >= n;
  }

  /** Next fit over two calls: the first leaves freep at the block before the one it took from, at j - 1
      in the list that is left, and the second takes the first block that fits from j on round the ring. */
  lemma {:induction false} SearchGoesOn(bl: seq<Blk>, from: nat, j: nat, n: nat, r: nat, left: seq<Blk>, freep: nat,
                                        base: nat, brk: nat,
                                        i: nat, m: nat, q: nat, rest: seq<Blk>, freep': nat)
    returns (v: nat)
    requires Takes(bl, from, j, n, r, left, freep) && 1 <= n && Sorted(bl, base, brk)
    requires Takes(left, freep, i, m, q, rest, freep')
    ensures j - 1 < |left| && left[j - 1].addr == freep && v < |left| && i == Nth(|left|, j - 1, v)
    ensures forall w {:trigger Nth(|left|, j - 1, w)} | 0 <= w < v :: left[Nth(|left|, j - 1, w)].size < m
  {
    TakeSorted(bl, j, n, base, brk);
    assert left[j - 1].addr == bl[j - 1].addr;
    SortedAlone(left, j - 1, base, brk);
    var t, u :| 0 <= t < |left| && 0 <= u < |left| && FirstFit(left, freep, t, u, i, m);
    assert t == j - 1;
    v := u;
  }

  const HEADER_BYTES: nat := 16

  /** The header and enough units for the bytes. */
  function UnitsFor(nbytes: nat): (n: nat)
    ensures n >= 1 && (n - 1) * HEADER_BYTES >= nbytes
    ensures n >= 2 ==> (n - 2) * HEADER_BYTES < nbytes
  {
    (nbytes + HEADER_BYTES - 1) / HEADER_BYTES + 1
  }

  const UINT: nat := 0x1_0000_0000
  const ULONG: nat := 0x1_0000_0000_0000_0000

  /** nbytes and nunits are 32-bit numbers, but sizeof(Header) makes the sum and the product around them
      64 bits wide: nothing that malloc and morecore compute wraps around. */
  lemma {:induction false} UnitsExact(nbytes: nat)
    requires nbytes < UINT
    ensures nbytes + HEADER_BYTES - 1 < ULONG && UnitsFor(nbytes) < UINT
    ensures Core(0, 0, UnitsFor(nbytes)).size * HEADER_BYTES < ULONG
  {
    var n := UnitsFor(nbytes);
    assert (n - 2) * HEADER_BYTES < UINT;
  }

  /** Nor does a size field, of 32 bits, while the heap is at most 2^32 units, or 64 GB, long: the sums
      that free stores are sizes of blocks of the heap. */
  lemma {:induction false} SizesExact(mem: map<nat, Header>, bl: seq<Blk>, live: Live, obtained: set<nat>,
                                      base: nat, brk: nat)
    requires Sound(mem, bl, live, obtained, base, brk) && brk <= base + UINT
    ensures forall i | 0 <= i < |bl| :: bl[i].addr in mem && mem[bl[i].addr].size < UINT
    ensures forall a | a in live :: a in mem && mem[a].size < UINT
  {
    assert Key(0, (mem, bl));
    forall i | 0 <= i < |bl| ensures bl[i].addr in mem && mem[bl[i].addr].size < UINT {
      assert LinkAt(mem, bl, i);
      assert i > 0 ==> bl[0].End() < bl[i].addr;
    }
  }

  function Ring(freep: nat, bl: seq<Blk>, base: nat): seq<Blk> {
    if freep == 0 then [Blk(base, 0)] else bl
  }

  function From(freep: nat, base: nat): nat {
    if freep == 0 then base else freep
  }

  function Core(brk: nat, gap: nat, n: nat): Blk {
    Blk(brk + gap, if n < 4096 then 4096 else n)
  }

  ghost predicate NoneFits(bl: seq<Blk>, n: nat) {
    forall i | 0 <= i < |bl| :: bl[i].size < n
  }

  /** v blocks after the one at t have been passed over as too small; p is the next. */
  ghost predicate Walking(bl: seq<Blk>, t: nat, v: nat, freep: nat, prevp: nat, p: nat, n: nat) {
    && t < |bl| && v < |bl| && bl[t].addr == freep
    && p == bl[Nth(|bl|, t, v)].addr
    && prevp == bl[if v == 0 then t else Nth(|bl|, t, v - 1)].addr
    && forall w {:trigger Nth(|bl|, t, w)} | 0 <= w < v :: bl[Nth(|bl|, t, w)].size < n
  }

  /** The n units at r are the top of the block at j, the first that fits after the one at from. The
      search ends with freep at the block before it. */
  ghost predicate Takes(bl: seq<Blk>, from: nat, j: nat, n: nat, r: nat, left: seq<Blk>, freep': nat) {
    && 1 <= j < |bl| && n <= bl[j].size
    && r == bl[j].addr + bl[j].size - n && left == Take(bl, j, n) && freep' == bl[j - 1].addr
    && FirstAfter(bl, from, j, n)
  }

  ghost predicate FirstAfter(bl: seq<Blk>, from: nat, j: nat, n: nat) {
    exists t, v | 0 <= t < |bl| && 0 <= v < |bl| :: FirstFit(bl, from, t, v, j, n)
  }

  ghost predicate FirstFit(bl: seq<Blk>, from: nat, t: nat, v: nat, j: nat, n: nat)
    requires t < |bl| && v < |bl|
  {
    && bl[t].addr == from && j == Nth(|bl|, t, v)
    && forall w {:trigger Nth(|bl|, t, w)} | 0 <= w < v :: bl[Nth(|bl|, t, w)].size < n
  }

  /** What the loop of malloc knows about the ring while it walks. Sealed. */
  ghost predicate OnWalk(mem: map<nat, Header>, bl: seq<Blk>, t: nat, v: nat, freep: nat, prevp: nat, p: nat, n: nat) {
    && t < |bl| && 1 <= n
    && forall u: int | Key(u, (bl, t, v)) ::
         Linked(mem, bl) && Walking(bl, t, v, freep, prevp, p, n) && Alone(bl, t) && bl[0].size == 0
  }

  lemma {:induction false} WalkStart(mem: map<nat, Header>, bl: seq<Blk>, t: nat, freep: nat, n: nat)
    requires Linked(mem, bl) && t < |bl| && bl[t].addr == freep && Alone(bl, t) && bl[0].size == 0 && 1 <= n
    ensures freep in mem && OnWalk(mem, bl, t, 0, freep, freep, mem[freep].ptr, n)
  {
    assert LinkAt(mem, bl, t);
  }

  /** What a step of the search may use: prevp precedes p in the ring, and p is freep only after a
      full round. */
  lemma {:induction false} WalkFacts(mem: map<nat, Header>, bl: seq<Blk>, t: nat, v: nat, freep: nat,
                                     prevp: nat, p: nat, n: nat)
    requires OnWalk(mem, bl, t, v, freep, prevp, p, n)
    ensures v < |bl| && p == bl[Nth(|bl|, t, v)].addr
    ensures prevp in mem && p in mem && mem[prevp].ptr == p
    ensures var j := Nth(|bl|, t, v);
            && mem[p].size == bl[j].size
            && (mem[p].size >= n ==> 1 <= j && prevp == bl[j - 1].addr && FirstAfter(bl, freep, j, n))
    ensures mem[p].size < n && p == freep ==> NoneFits(bl, n)
    ensures mem[p].size < n && p != freep ==> OnWalk(mem, bl, t, v + 1, freep, p, mem[p].ptr, n)
  {
    assert Key(0, (bl, t, v));
    var j := Nth(|bl|, t, v);
    var i := if v == 0 then t else Nth(|bl|, t, v - 1);
    assert j == Succ(bl, i);
    assert LinkAt(mem, bl, i);
    assert LinkAt(mem, bl, j);
    if mem[p].size >= n {
      assert FirstFit(bl, freep, t, v, j, n);
    } else if p == freep {
      WentRound(bl, t, v, n);
    } else {
      WalkOn(bl, t, v, freep, prevp, p, n);
    }
  }

  lemma {:induction false} WalkOn(bl: seq<Blk>, t: nat, v: nat, freep: nat, prevp: nat, p: nat, n: nat)
    requires Walking(bl, t, v, freep, prevp, p, n) && bl[Nth(|bl|, t, v)].size < n && p != freep
    ensures v < |bl| - 1 && Walking(bl, t, v + 1, freep, p, bl[Succ(bl, Nth(|bl|, t, v))].addr, n)
  {
    assert Succ(bl, Nth(|bl|, t, v)) == Nth(|bl|, t, v + 1);
  }

  lemma {:induction false} WentRound(bl: seq<Blk>, t: nat, v: nat, n: nat)
    requires t < |bl| && v < |bl| && Nth(|bl|, t, v) == t
    requires forall w {:trigger Nth(|bl|, t, w)} | 0 <= w < v :: bl[Nth(|bl|, t, w)].size < n
    requires bl[t].size < n
    ensures NoneFits(bl, n)
  {
    forall i | 0 <= i < |bl| ensures bl[i].size < n {
      var w := if t + 1 <= i then i - t - 1 else |bl| + i - t - 1;
      assert Nth(|bl|, t, w) == i;
    }
  }

  lemma {:induction false} AddThenRemove(live: Live, a: nat, n: nat)
    ensures a !in live ==> live[a := n] - {a} == live
  {
  }

  ghost function Units(b: Blk): set<nat> {
    set u | b.addr <= u < b.addr + b.size && b.Has(u)
  }

  lemma {:induction false} WriteKeeps(mem: map<nat, Header>, bl: seq<Blk>, live: Live, base: nat, brk: nat,
                                      a: nat, u: nat, h: Header)
    requires Ready(mem, bl, live, base, brk) && a in live && a < u < a + live[a]
    ensures Ready(mem[u := h], bl, live, base, brk)
  {
    forall i | 0 <= i < |bl| ensures bl[i].addr != u {
      assert Outside(bl, Blk(a, live[a]), base, brk);
    }
    LinkedElsewhere(mem, bl, u, h);
    assert forall b | b in live :: b != u;
  }

  /** Fresh memory above the break is a block that can be freed. */
  lemma {:induction false} CoreKeeps(mem: map<nat, Header>, bl: seq<Blk>, live: Live, obtained: set<nat>,
                                     base: nat, brk: nat, core: Blk, h: Header)
    requires Ready(mem, bl, live, base, brk) && Accounts(obtained, bl, live)
    requires base < brk <= core.addr && core.size >= 1 && h.size == core.size
    ensures Ready(mem[core.addr := h], bl, live[core.addr := core.size], base, core.End())
    ensures Accounts(obtained + Units(core), bl, live[core.addr := core.size])
    ensures core.addr !in live && Units(core) !! obtained
  {
    AddressesBelow(bl, core.addr, base, brk);
    LinkedElsewhere(mem, bl, core.addr, h);
    LiveBelow(mem, bl, live, base, brk);
    forall u | u in obtained ensures u < brk {
      assert HasUnit(bl, u) || LiveUnit(live, u);
    }
    CoreLive(mem, bl, live, base, brk, core, h);
    CoreAccounts(obtained, bl, live, core);
  }

  lemma {:induction false} LiveBelow(mem: map<nat, Header>, bl: seq<Blk>, live: Live, base: nat, brk: nat)
    requires LiveOk(mem, live, bl, base, brk)
    ensures forall a | a in live :: a + live[a] <= brk
  {
    forall a | a in live ensures a + live[a] <= brk {
      assert Outside(bl, Blk(a, live[a]), base, brk);
    }
  }

  lemma {:induction false} CoreLive(mem: map<nat, Header>, bl: seq<Blk>, live: Live, base: nat, brk: nat, core: Blk,
                                    h: Header)
    requires LiveOk(mem, live, bl, base, brk) && base < brk <= core.addr && core.size >= 1 && h.size == core.size
    requires (forall a | a in live :: a + live[a] <= brk) && (forall i | 0 <= i < |bl| :: bl[i].End() <= brk)
    ensures LiveOk(mem[core.addr := h], live[core.addr := core.size], bl, base, core.End())
    ensures core.addr !in live
  {
    var live' := live[core.addr := core.size];
    forall a | a in live ensures live[a] >= 1 {
      assert Outside(bl, Blk(a, live[a]), base, brk);
    }
    forall a | a in live' ensures Outside(bl, Blk(a, live'[a]), base, core.End()) {
      if a != core.addr {
        assert Outside(bl, Blk(a, live[a]), base, brk);
      }
    }
  }

  lemma {:induction false} CoreAccounts(obtained: set<nat>, bl: seq<Blk>, live: Live, core: Blk)
    requires Accounts(obtained, bl, live) && core.addr !in live
    ensures Accounts(obtained + Units(core), bl, live[core.addr := core.size])
  {
    var live' := live[core.addr := core.size];
    forall u: nat ensures u in obtained + Units(core) <==> HasUnit(bl, u) || LiveUnit(live', u) {
      if LiveUnit(live, u) {
        var a :| a in live && a <= u < a + live[a];
        assert a in live';
      }
      if u in Units(core) {
        assert core.addr in live';
      }
    }
  }

  lemma {:induction false} TakeAt(bl: seq<Blk>, j: nat, n: nat)
    requires 1 <= j < |bl| && n <= bl[j].size
    ensures j - 1 < |Take(bl, j, n)| && Take(bl, j, n)[j - 1].addr == bl[j - 1].addr
  {
  }

  lemma {:induction false} FreeKeepsAccounts(obtained: set<nat>, bl: seq<Blk>, live: Live, k: nat, bp: nat)
    requires Accounts(obtained, bl, live) && bp in live && Slot(bl, k, Blk(bp, live[bp]))
    ensures Accounts(obtained, Insert(bl, k, Blk(bp, live[bp])), live - {bp})
  {
    var b := Blk(bp, live[bp]);
    forall u: nat ensures u in obtained <==> HasUnit(Insert(bl, k, b), u) || LiveUnit(live - {bp}, u) {
      InsertUnits(bl, k, b, u);
      if LiveUnit(live, u) && !b.Has(u) {
        var a :| a in live && a <= u < a + live[a];
        assert a in live - {bp};
      }
    }
  }

  /** A block clear of the list stays clear of what is left, and of what was cut off. */
  lemma {:induction false} TakeOutside(bl: seq<Blk>, j: nat, n: nat, c: Blk, base: nat, brk: nat)
    requires Sorted(bl, base, brk) && 1 <= j < |bl| && 1 <= n <= bl[j].size && Outside(bl, c, base, brk)
    ensures Outside(Take(bl, j, n), c, base, brk)
    ensures Cut(bl, j, n).End() <= c.addr || c.End() <= Cut(bl, j, n).addr
  {
    var now := Take(bl, j, n);
    forall i | 1 <= i < |now| ensures now[i].End() <= c.addr || c.End() <= now[i].addr {
      var y := if bl[j].size == n && i >= j then i + 1 else i;
      assert bl[y].End() <= c.addr || c.End() <= bl[y].addr;
    }
  }

  /** One more held block, clear of the list and of the others. */
  lemma {:induction false} LiveExtends(mem: map<nat, Header>, live: Live, bl: seq<Blk>, c: Blk, base: nat, brk: nat)
    requires forall a | a in live :: a in mem && mem[a].size == live[a] && Outside(bl, Blk(a, live[a]), base, brk)
    requires forall a, b | a in live && b in live && a < b :: a + live[a] <= b
    requires c.addr in mem && mem[c.addr].size == c.size && Outside(bl, c, base, brk)
    requires forall a | a in live :: c.End() <= a || a + live[a] <= c.addr
    ensures LiveOk(mem, live[c.addr := c.size], bl, base, brk)
  {
    var live' := live[c.addr := c.size];
    forall a | a in live' ensures a in mem && mem[a].size == live'[a] && Outside(bl, Blk(a, live'[a]), base, brk) {
      assert a == c.addr || a in live;
    }
    forall a, b | a in live' && b in live' && a < b ensures a + live'[a] <= b {
      assert a == c.addr || a in live;
      assert b == c.addr || b in live;
    }
  }

  /** After an exact fit. */
  lemma {:induction false} TakeAllKeeps(mem: map<nat, Header>, bl: seq<Blk>, live: Live, j: nat, base: nat, brk: nat)
    requires Ready(mem, bl, live, base, brk) && 1 <= j < |bl|
    ensures bl[j].addr in mem && bl[j - 1].addr in mem && bl[j].addr !in live
    ensures var p, prevp, n := bl[j].addr, bl[j - 1].addr, bl[j].size;
            Ready(mem[prevp := mem[prevp].(ptr := mem[p].ptr)], Take(bl, j, n), live[p := n], base, brk)
  {
    var p, prevp, n := bl[j].addr, bl[j - 1].addr, bl[j].size;
    assert LinkAt(mem, bl, j) && LinkAt(mem, bl, j - 1);
    var mem' := mem[prevp := mem[prevp].(ptr := mem[p].ptr)];
    SortedAlone(bl, j - 1, base, brk);
    TakeAllLinked(mem, bl, j);
    TakeSorted(bl, j, n, base, brk);
    forall a | a in live
      ensures a in mem' && mem'[a].size == live[a] && Outside(Take(bl, j, n), Blk(a, live[a]), base, brk)
      ensures p + n <= a || a + live[a] <= p
    {
      TakeOutside(bl, j, n, Blk(a, live[a]), base, brk);
    }
    LiveExtends(mem', live, Take(bl, j, n), Blk(p, n), base, brk);
  }

  /** After the top of a larger block was cut off. */
  lemma {:induction false} TakeTopKeeps(mem: map<nat, Header>, bl: seq<Blk>, live: Live, j: nat, n: nat, x: nat,
                                        base: nat, brk: nat)
    requires Ready(mem, bl, live, base, brk) && 1 <= j < |bl| && 1 <= n < bl[j].size
    ensures bl[j].addr in mem && mem[bl[j].addr].size == bl[j].size && Cut(bl, j, n).addr !in live
    ensures Ready(Shrunk(mem, bl[j].addr, n, x), Take(bl, j, n), live[Cut(bl, j, n).addr := n], base, brk)
  {
    assert LinkAt(mem, bl, j);
    TakeTopList(mem, bl, j, n, x, base, brk);
    TakeTopLive(mem, bl, live, j, n, x, base, brk);
  }

  lemma {:induction false} TakeTopList(mem: map<nat, Header>, bl: seq<Blk>, j: nat, n: nat, x: nat, base: nat, brk: nat)
    requires Sorted(bl, base, brk) && Linked(mem, bl) && 1 <= j < |bl| && 1 <= n < bl[j].size
    requires bl[j].addr in mem && mem[bl[j].addr].size == bl[j].size
    ensures Sorted(Take(bl, j, n), base, brk) && Linked(Shrunk(mem, bl[j].addr, n, x), Take(bl, j, n))
    ensures Outside(Take(bl, j, n), Cut(bl, j, n), base, brk)
  {
    TakeSorted(bl, j, n, base, brk);
    SortedAlone(bl, j, base, brk);
    CutInside(bl, j, n, base, brk);
    TakeTopLinked(mem, bl, j, n, x);
  }

  lemma {:induction false} TakeTopLive(mem: map<nat, Header>, bl: seq<Blk>, live: Live, j: nat, n: nat, x: nat,
                                       base: nat, brk: nat)
    requires Sorted(bl, base, brk) && LiveOk(mem, live, bl, base, brk) && 1 <= j < |bl| && 1 <= n < bl[j].size
    requires bl[j].addr in mem && mem[bl[j].addr].size == bl[j].size
    requires Outside(Take(bl, j, n), Cut(bl, j, n), base, brk)
    ensures Cut(bl, j, n).addr !in live
    ensures LiveOk(Shrunk(mem, bl[j].addr, n, x), live[Cut(bl, j, n).addr := n], Take(bl, j, n), base, brk)
  {
    var p, cut := bl[j].addr, Cut(bl, j, n).addr;
    var mem' := Shrunk(mem, p, n, x);
    forall a | a in live
      ensures a in mem' && mem'[a].size == live[a] && Outside(Take(bl, j, n), Blk(a, live[a]), base, brk)
      ensures cut + n <= a || a + live[a] <= cut
    {
      TakeOutside(bl, j, n, Blk(a, live[a]), base, brk);
      LiveNotFree(bl, a, live[a], j, base, brk);
    }
    LiveExtends(mem', live, Take(bl, j, n), Blk(cut, n), base, brk);
  }

  lemma {:induction false} CutInside(bl: seq<Blk>, j: nat, n: nat, base: nat, brk: nat)
    requires Sorted(bl, base, brk) && 1 <= j < |bl| && 1 <= n < bl[j].size
    ensures CutApart(bl, j, n)
  {
    forall i | 0 <= i < |bl| ensures bl[i].addr != Cut(bl, j, n).addr {
      assert i < j ==> bl[i].End() < bl[j].addr;
      assert i > j ==> bl[j].End() < bl[i].addr;
    }
  }

  lemma {:induction false} TakeKeepsAccounts(obtained: set<nat>, bl: seq<Blk>, live: Live, j: nat, n: nat,
                                             base: nat, brk: nat)
    requires Accounts(obtained, bl, live) && Sorted(bl, base, brk) && 1 <= j < |bl| && 1 <= n <= bl[j].size
    requires Cut(bl, j, n).addr !in live
    ensures Accounts(obtained, Take(bl, j, n), live[Cut(bl, j, n).addr := n])
  {
    var cut := Cut(bl, j, n);
    var live' := live[cut.addr := n];
    forall u: nat ensures u in obtained <==> HasUnit(Take(bl, j, n), u) || LiveUnit(live', u) {
      TakeUnits(bl, j, n, base, brk, u);
      if LiveUnit(live, u) {
        var a :| a in live && a <= u < a + live[a];
        assert a in live';
      }
      if cut.Has(u) {
        assert cut.addr in live' && bl[j].Has(u);
      }
    }
  }

  // ----- conservation -----

  ghost function TotalFree(bl: seq<Blk>): nat {
    if bl == [] then 0 else TotalFree(bl[..|bl| - 1]) + bl[|bl| - 1].size
  }

  ghost function TotalLive(live: Live): nat {
    if live == map[] then 0
    else
      var a :| a in live;
      live[a] + TotalLive(live - {a})
  }

  lemma {:induction false} UnitsCount(b: Blk)
    ensures |Units(b)| == b.size
    decreases b.size
  {
    if b.size == 0 {
      assert Units(b) == {};
    } else {
      var c := Blk(b.addr, b.size - 1);
      UnitsCount(c);
      assert Units(b) == Units(c) + {b.addr + b.size - 1};
    }
  }

  ghost function FreeUnits(bl: seq<Blk>): set<nat> {
    if bl == [] then {} else FreeUnits(bl[..|bl| - 1]) + Units(bl[|bl| - 1])
  }

  lemma {:induction false} FreeUnitsAt(bl: seq<Blk>, u: nat)
    ensures u in FreeUnits(bl) <==> HasUnit(bl, u)
    decreases |bl|
  {
    if bl != [] {
      var m := |bl| - 1;
      FreeUnitsAt(bl[..m], u);
      if HasUnit(bl[..m], u) {
        var i :| 0 <= i < m && bl[..m][i].Has(u);
        assert bl[i].Has(u);
      }
      if i :| 0 <= i < |bl| && bl[i].Has(u) {
        assert i < m ==> bl[..m][i].Has(u);
      }
    }
  }

  /** The free units of a sorted list are as many as its sizes add up to. */
  lemma {:induction false} CountFree(bl: seq<Blk>, base: nat, brk: nat)
    requires Sorted(bl, base, brk)
    ensures |FreeUnits(bl)| == TotalFree(bl)
    decreases |bl|
  {
    var m := |bl| - 1;
    UnitsCount(bl[m]);
    if m == 0 {
      assert FreeUnits(bl[..0]) == {} && TotalFree(bl[..0]) == 0;
    } else {
      CountFree(bl[..m], base, brk);
      forall u | u in FreeUnits(bl[..m]) ensures u !in Units(bl[m]) {
        FreeUnitsAt(bl[..m], u);
        var i :| 0 <= i < m && bl[..m][i].Has(u);
        assert bl[i].End() < bl[m].addr;
      }
    }
  }

  ghost function LiveUnits(live: Live): set<nat> {
    set a, u | a in live && u in Units(Blk(a, live[a])) :: u
  }

  lemma {:induction false} LiveUnitsAt(live: Live, u: nat)
    ensures u in LiveUnits(live) <==> LiveUnit(live, u)
  {
    if a :| a in live && a <= u < a + live[a] {
      assert u in Units(Blk(a, live[a]));
    }
  }

  lemma {:induction false} LiveUnitsSplit(live: Live, a: nat)
    requires a in live
    ensures LiveUnits(live) == LiveUnits(live - {a}) + Units(Blk(a, live[a]))
  {
    var less := live - {a};
    forall u | u in LiveUnits(live) ensures u in LiveUnits(less) + Units(Blk(a, live[a])) {
      var c :| c in live && u in Units(Blk(c, live[c]));
      assert c != a ==> c in less && u in Units(Blk(c, less[c]));
    }
    forall u | u in LiveUnits(less) ensures u in LiveUnits(live) {
      var c :| c in less && u in Units(Blk(c, less[c]));
      assert c in live && u in Units(Blk(c, live[c]));
    }
  }

  ghost predicate LiveApart(live: Live) {
    forall a, b | a in live && b in live && a < b :: a + live[a] <= b
  }

  lemma {:induction false} LiveApartFrom(live: Live, a: nat)
    requires LiveApart(live) && a in live
    ensures forall u | u in LiveUnits(live - {a}) :: u !in Units(Blk(a, live[a]))
  {
    forall u | u in LiveUnits(live - {a}) ensures u !in Units(Blk(a, live[a])) {
      LiveUnitsAt(live - {a}, u);
      var c :| c in live - {a} && c <= u < c + (live - {a})[c];
      assert if c < a then c + live[c] <= a else a + live[a] <= c;
    }
  }

  lemma {:induction false} CountLive(live: Live)
    requires LiveApart(live)
    ensures |LiveUnits(live)| == TotalLive(live)
    decreases |live|
  {
    if live == map[] {
      assert LiveUnits(live) == {};
    } else {
      var a :| a in live && TotalLive(live) == live[a] + TotalLive(live - {a});
      var less, b := live - {a}, Blk(a, live[a]);
      assert less.Keys == live.Keys - {a};
      CountLive(less);
      UnitsCount(b);
      LiveApartFrom(live, a);
      LiveUnitsSplit(live, a);
    }
  }

  /** At any time the units in free blocks and the units in held blocks add up to all the units ever
      obtained from morecore, and no unit is counted twice. */
  lemma {:induction false} Conservation(mem: map<nat, Header>, bl: seq<Blk>, live: Live, obtained: set<nat>,
                                        base: nat, brk: nat)
    requires Sound(mem, bl, live, obtained, base, brk)
    ensures |obtained| == TotalFree(bl) + TotalLive(live)
  {
    assert Key(0, (mem, bl));
    CountFree(bl, base, brk);
    CountLive(live);
    AccountsAsSets(obtained, bl, live);
    forall u | u in FreeUnits(bl) ensures u !in LiveUnits(live) {
      FreeUnitsAt(bl, u);
      FreeNotLive(bl, live, u, base, brk);
    }
  }

  lemma {:induction false} AccountsAsSets(obtained: set<nat>, bl: seq<Blk>, live: Live)
    requires Accounts(obtained, bl, live)
    ensures obtained == FreeUnits(bl) + LiveUnits(live)
  {
    forall u: nat ensures u in obtained <==> u in FreeUnits(bl) + LiveUnits(live) {
      FreeUnitsAt(bl, u);
      LiveUnitsAt(live, u);
    }
  }

  lemma {:induction false} FreeNotLive(bl: seq<Blk>, live: Live, u: nat, base: nat, brk: nat)
    requires forall a | a in live :: Outside(bl, Blk(a, live[a]), base, brk)
    requires HasUnit(bl, u) && bl != [] && bl[0].size == 0
    ensures u !in LiveUnits(live)
  {
    var i :| 0 <= i < |bl| && bl[i].Has(u);
    forall a | a in live ensures u !in Units(Blk(a, live[a])) {
      assert Outside(bl, Blk(a, live[a]), base, brk);
    }
  }
}
