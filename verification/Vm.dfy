/** vm.c over kalloc.c. A true panic result stands for any of their panics; nothing is promised about
    the machine after one. */
module Vm {
  import opened PageTable
  import opened Options
  import opened Kalloc

  /** The flags walkpgdir and allocuvm give an entry: present, writeable, user. */
  const RWU: nat := PTE_P + PTE_W + PTE_U

  /** Memory k keeps everything of h that is in use, but for new entries in tables of space s, and
      puts free frames to no use but in space s. */
  ghost predicate KeepsFrame(h: Phys, k: Phys, s: nat, f: nat)
    requires Sized(h) && Sized(k) && |h.mem| == |k.mem| && f < |h.mem|
  {
    if h.role[f] == Free then
      k.role[f] == Free || (k.role[f].Node? && k.role[f].space == s)
    else
      && k.role[f] == h.role[f]
      && (!(IsTable(h.role[f]) && h.role[f].space == s) ==> k.mem[f] == h.mem[f])
  }

  ghost predicate Grows(h: Phys, k: Phys, s: nat) {
    && Sized(h) && Sized(k) && |h.mem| == |k.mem|
    && forall f: nat | f < |h.mem| :: KeepsFrame(h, k, s, f)
  }

  /** A table of the given level and key is on the way to one of the pages from a up to b. */
  ghost predicate OnWay(a: nat, b: nat, level: nat, key: nat) {
    exists v: nat | a <= v < b :: Ancestor(v, level) == key
  }

  /** A free frame became a table only if a page from a up to b needs it. */
  ghost predicate NeededAt(h: Phys, k: Phys, a: nat, b: nat, f: nat)
    requires Sized(h) && Sized(k) && |h.mem| == |k.mem| && f < |h.mem|
  {
    var r := k.role[f];
    h.role[f] == Free && IsTable(r) && r.level < 4 ==> OnWay(a, b, r.level, r.key)
  }

  ghost predicate Needed(h: Phys, k: Phys, a: nat, b: nat) {
    && Sized(h) && Sized(k) && |h.mem| == |k.mem|
    && forall f: nat | f < |h.mem| :: NeededAt(h, k, a, b, f)
  }

  /** A frame in use did not become a table. */
  ghost predicate NoNewTable(k: Phys, m: Phys, f: nat)
    requires Sized(k) && Sized(m) && |k.mem| == |m.mem| && f < |k.mem|
  {
    k.role[f] != Free && IsTable(m.role[f]) ==> m.role[f] == k.role[f]
  }

  lemma {:induction false} NeededMore(h: Phys, k: Phys, m: Phys, a: nat, b: nat, c: nat, d: nat, e: nat)
    requires Needed(h, k, a, b) && Needed(k, m, c, d) && e >= b && e >= d && c >= a
    requires forall f: nat | f < |k.mem| :: NoNewTable(k, m, f)
    ensures Needed(h, m, a, e)
  {
    forall f: nat | f < |h.mem| ensures NeededAt(h, m, a, e, f) {
      assert NeededAt(h, k, a, b, f) && NeededAt(k, m, c, d, f) && NoNewTable(k, m, f);
      var r := m.role[f];
      if h.role[f] == Free && IsTable(r) && r.level < 4 {
        var v: nat :| (a <= v < b || c <= v < d) && Ancestor(v, r.level) == r.key;
      }
    }
  }

  lemma {:induction false} NeededNone(h: Phys, a: nat, b: nat)
    requires Sized(h)
    ensures Needed(h, h, a, b)
  {
    forall f: nat | f < |h.mem| ensures NeededAt(h, h, a, b, f) {
    }
  }

  ghost predicate SamePte(h: Phys, k: Phys, s: nat, v: nat) {
    Pte(k.mem, s, v) == Pte(h.mem, s, v)
  }

  ghost predicate MappedAt(h: Phys, s: nat, v: nat) {
    Present(Pte(h.mem, s, v))
  }

  /** Some page from a on and below b of space s is mapped. */
  ghost predicate AnyMapped(h: Phys, s: nat, a: nat, b: nat) {
    exists v: nat | a <= v < b :: MappedAt(h, s, v)
  }

  /** No translation of any address space changes. */
  ghost predicate SameMaps(h: Phys, k: Phys) {
    forall s: nat, v: nat | Space(h, s) && v < USERPAGES :: SamePte(h, k, s, v)
  }

  lemma {:induction false} GrowsTransitive(h: Phys, k: Phys, m: Phys, s: nat)
    requires Grows(h, k, s) && Grows(k, m, s)
    ensures Grows(h, m, s)
  {
    forall f: nat | f < |h.mem| ensures KeepsFrame(h, m, s, f) {
      assert KeepsFrame(h, k, s, f) && KeepsFrame(k, m, s, f);
    }
  }

  lemma {:induction false} GrowsKeepsSpace(h: Phys, k: Phys, s: nat, t: nat)
    requires Grows(h, k, s) && Space(h, t)
    ensures Space(k, t)
  {
    assert KeepsFrame(h, k, s, t);
  }

  lemma {:induction false} SameMapsTransitive(h: Phys, k: Phys, m: Phys, s: nat)
    requires SameMaps(h, k) && SameMaps(k, m) && Grows(h, k, s)
    ensures SameMaps(h, m)
  {
    forall t: nat, v: nat | Space(h, t) && v < USERPAGES ensures SamePte(h, m, t, v) {
      GrowsKeepsSpace(h, k, s, t);
      assert SamePte(h, k, t, v) && SamePte(k, m, t, v);
    }
  }

  class Machine {
    const lo: nat
    var mem: Mem
    var freelist: nat
    var kpml4: nat
    var kpdpt: nat
    ghost var role: seq<Role>
    ghost var up: seq<nat>
    ghost var free: seq<nat>

    ghost function H(): Phys
      reads this
    {
      Phys(mem, role, up)
    }

    ghost predicate FreeListOk()
      reads this
    {
      FreeOk(mem, role, freelist, free, lo)
    }

    /** The free list and all address spaces are sound, and every one of them has the kernel's half. */
    ghost predicate Valid()
      reads this
    {
      FreeListOk() && Tree(H()) && KernelOk(H(), kpml4, kpdpt)
    }

    /** kalloc. */
    method KallocPage() returns (panic: bool, g: nat)
      requires FreeListOk()
      modifies this`freelist, this`role, this`free
      ensures FreeListOk()
      ensures panic <==> old(free) == []
      ensures panic ==> role == old(role) && free == old(free)
      ensures !panic ==>
                && lo <= g < |mem| && old(free) == [g] + free
                && old(role)[g] == Free && role == old(role)[g := Held]
    {
      if freelist == 0 {
        return true, 0;
      }
      PopKeeps(mem, role, freelist, free, lo);
      g := freelist;
      freelist := mem[g][0] / PGSIZE;
      role, free := role[g := Held], free[1..];
      panic := false;
    }

    /** kfree of a page that is in use and not one of the kernel's tables. */
    method KfreePage(g: nat)
      requires FreeListOk() && lo <= g < |mem| && role[g] != Free && role[g] != Shared
      modifies this`mem, this`freelist, this`role, this`free
      ensures FreeListOk()
      ensures mem == old(mem)[g := JunkPage(old(freelist))]
      ensures mem[g][0] == old(freelist) * PGSIZE && forall x | 1 <= x < ENTRIES :: mem[g][x] == JUNK
      ensures role == old(role)[g := Free] && free == [g] + old(free)
    {
      PushKeeps(mem, role, freelist, free, lo, g);
      mem := mem[g := JunkPage(freelist)];
      freelist := g;
      role, free := role[g := Free], [g] + free;
    }

    /** One level of walkpgdir: the page that entry x of table f points to, made if need be. */
    method Step(f: nat, x: nat, alloc: bool, ghost v: nat) returns (panic: bool, g: Option<nat>)
      requires Valid() && f < |mem| && UserEntry(role[f], x) && role[f].level > 1
      requires role[f].key * ENTRIES + x == Ancestor(v, role[f].level - 1)
      modifies this`mem, this`freelist, this`role, this`up, this`free
      ensures panic ==> alloc && old(free) == [] == free
      ensures !panic ==> |old(free)| <= |free| + 1
      ensures !panic ==>
                && Valid() && Grows(old(H()), H(), old(role)[f].space) && SameMaps(old(H()), H())
                && Needed(old(H()), H(), v, v + 1)
                && (alloc ==> g.Some?)
                && (!alloc ==> H() == old(H()) && free == old(free) && freelist == old(freelist))
                && (g.None? ==> !Present(mem[f][x]))
                && (g.Some? ==>
                      && g.value < |mem| && Present(mem[f][x]) && Frame(mem[f][x]) == g.value
                      && role[g.value] ==
                           Node(old(role)[f].space, old(role)[f].level - 1, old(role)[f].key * ENTRIES + x))
    {
      var e := mem[f][x];
      NeededNone(H(), v, v + 1);
      if Present(e) {
        assert Down(H(), f, x);
        StaysPut(H(), role[f].space);
        return false, Some(Frame(e));
      }
      if !alloc {
        StaysPut(H(), role[f].space);
        return false, None;
      }
      var page;
      ghost var h := H();
      panic, page := NewTable(f, x);
      if !panic {
        NeededTable(h, H(), v, page);
      }
      return panic, if panic then None else Some(page);
    }

    /** The allocating branch of a level of walkpgdir: a zeroed page becomes the table behind entry x. */
    method NewTable(f: nat, x: nat) returns (panic: bool, g: nat)
      requires Valid() && f < |mem| && UserEntry(role[f], x) && role[f].level > 1 && !Present(mem[f][x])
      modifies this`mem, this`freelist, this`role, this`up, this`free
      ensures panic <==> old(free) == []
      ensures panic ==> free == []
      ensures !panic ==> |old(free)| == |free| + 1
      ensures !panic ==>
                && Valid() && Grows(old(H()), H(), old(role)[f].space) && SameMaps(old(H()), H())
                && g < |mem| && Present(mem[f][x]) && Frame(mem[f][x]) == g
                && role ==
                     old(role)[g := Node(old(role)[f].space, old(role)[f].level - 1, old(role)[f].key * ENTRIES + x)]
    {
      ghost var h := H();
      panic, g := KallocPage();
      if panic {
        return;
      }
      AddTable(h, freelist, free, lo, f, x, g);
      AddTableKernel(h, kpml4, kpdpt, f, x, g);
      EntryParts(g, RWU);
      ghost var k := Link(Touch(h, g, ZeroPage, Held), f, x, g, RWU);
      mem := mem[g := ZeroPage];
      mem := mem[f := mem[f][x := Entry(g, RWU)]];
      role, up := k.role, up[g := f];
      assert H() == k;
    }

    /** walkpgdir: the page table for page number v, whose entry v % ENTRIES is the one sought. */
    method Walkpgdir(s: nat, v: nat, alloc: bool) returns (panic: bool, pt: Option<nat>)
      requires Valid() && Space(H(), s) && v < USERPAGES
      modifies this`mem, this`freelist, this`role, this`up, this`free
      ensures panic ==> alloc && |old(free)| < 3 && free == []
      ensures !panic ==> |old(free)| <= |free| + 3
      ensures !panic ==>
                && Valid() && Grows(old(H()), H(), s) && SameMaps(old(H()), H())
                && Needed(old(H()), H(), v, v + 1)
                && (alloc ==> pt.Some?)
                && (!alloc ==> H() == old(H()) && free == old(free) && freelist == old(freelist))
                && (pt.None? ==> Pte(mem, s, v) == 0 && Reach(mem, s, 1, v / ENTRIES) == None)
                && (pt.Some? ==>
                      && pt.value < |mem| && role[pt.value] == Node(s, 1, v / ENTRIES)
                      && Pte(mem, s, v) == mem[pt.value][v % ENTRIES])
    {
      var a := v / ENTRIES;
      ghost var h := H();
      var pd;
      Ancestors(v);
      panic, pd := WalkToPd(s, a / ENTRIES, alloc, v);
      if panic || pd.None? {
        return panic, None;
      }
      ghost var k := H();
      GrowsKeepsSpace(h, k, s, s);
      panic, pt := Step(pd.value, a % ENTRIES, alloc, v);
      if panic {
        return true, None;
      }
      Compose(h, k, H(), s);
      NeededTwice(h, k, H(), s, v);
      if pt.None? {
        ReachChild(k, s, 2, a / ENTRIES, pd.value);
      } else {
        PteAt(H(), s, pt.value, v);
      }
    }

    /** The upper half of walkpgdir: the page directory for the page numbers v with v / 512 / 512 == b. */
    method WalkToPd(s: nat, b: nat, alloc: bool, ghost v: nat) returns (panic: bool, pd: Option<nat>)
      requires Valid() && Space(H(), s) && b < KeyBound(2) && b == Ancestor(v, 2) && b / ENTRIES == Ancestor(v, 3)
      modifies this`mem, this`freelist, this`role, this`up, this`free
      ensures panic ==> alloc && |old(free)| < 2 && free == []
      ensures !panic ==> |old(free)| <= |free| + 2
      ensures !panic ==>
                && Valid() && Grows(old(H()), H(), s) && SameMaps(old(H()), H())
                && Needed(old(H()), H(), v, v + 1)
                && (alloc ==> pd.Some?)
                && (!alloc ==> H() == old(H()) && free == old(free) && freelist == old(freelist))
                && (pd.None? ==> Reach(mem, s, 2, b) == None)
                && (pd.Some? ==> pd.value < |mem| && role[pd.value] == Node(s, 2, b))
    {
      var c := b / ENTRIES;
      ghost var h := H();
      var pdp;
      panic, pdp := Step(s, c % ENTRIES, alloc, v);
      if panic || pdp.None? {
        return panic, None;
      }
      ghost var k := H();
      GrowsKeepsSpace(h, k, s, s);
      panic, pd := Step(pdp.value, b % ENTRIES, alloc, v);
      if panic {
        return true, None;
      }
      Compose(h, k, H(), s);
      NeededTwice(h, k, H(), s, v);
      if pd.None? {
        ReachChild(k, s, 3, c, pdp.value);
      }
    }

    /** mappages: map the pages that hold the addresses va up to va + size to consecutive frames from
        pa on, which the caller has just allocated. An entry already present is the panic "remap". */
    method Mappages(s: nat, va: nat, size: nat, pa: nat, perm: nat) returns (panic: bool)
      requires Valid() && Space(H(), s) && size > 0 && va + size <= USERPAGES * PGSIZE
      requires pa % PGSIZE == 0 && perm < PGSIZE
      requires HeldRun(role, pa / PGSIZE, (va + size - 1) / PGSIZE - va / PGSIZE)
      modifies this`mem, this`freelist, this`role, this`up, this`free
      ensures panic ==>
                || AnyMapped(old(H()), s, va / PGSIZE, (va + size - 1) / PGSIZE + 1)
                || (|old(free)| < 3 * ((va + size - 1) / PGSIZE + 1 - va / PGSIZE) && free == [])
      ensures !panic ==> |old(free)| <= |free| + 3 * ((va + size - 1) / PGSIZE + 1 - va / PGSIZE)
      ensures !panic ==> Valid() && Space(H(), s)
      ensures !panic ==>
                Mapped(old(H()), H(), s, va / PGSIZE, (va + size - 1) / PGSIZE + 1, pa / PGSIZE, WithPresent(perm))
    {
      var a, last := va / PGSIZE, (va + size - 1) / PGSIZE;
      var frame := pa / PGSIZE;
      ghost var h, first := H(), a;
      MappedNone(h, s, first, frame, WithPresent(perm));
      while true
        invariant first <= a <= last && frame == pa / PGSIZE + (a - first)
        invariant Valid() && Space(H(), s)
        invariant Mapped(h, H(), s, first, a, pa / PGSIZE, WithPresent(perm))
        invariant |old(free)| <= |free| + 3 * (a - first)
        decreases last - a
      {
        assert HeldAt(old(role), frame);
        panic := MapNext(h, s, first, pa / PGSIZE, a, frame, perm);
        if panic {
          return;
        }
        if a == last {
          return;
        }
        a, frame := a + 1, frame + 1;
      }
    }

    /** One turn of the loop of mappages, which has mapped the pages from first on and below a. */
    method MapNext(ghost h: Phys, s: nat, ghost first: nat, ghost base: nat, a: nat, frame: nat, perm: nat)
      returns (panic: bool)
      requires Valid() && Space(h, s) && Space(H(), s)
      requires Mapped(h, H(), s, first, a, base, WithPresent(perm)) && a < USERPAGES
      requires frame == base + (a - first) && frame < |h.mem| && h.role[frame] == Held && perm < PGSIZE
      modifies this`mem, this`freelist, this`role, this`up, this`free
      ensures panic ==> MappedAt(h, s, a) || (|old(free)| < 3 && free == [])
      ensures !panic ==> |old(free)| <= |free| + 3
      ensures !panic ==> Valid() && Space(H(), s) && Mapped(h, H(), s, first, a + 1, base, WithPresent(perm))
    {
      ghost var k := H();
      HeldStill(h, k, s, first, a, base, WithPresent(perm), frame);
      assert MappedPte(h, k, s, first, a, base, WithPresent(perm), s, a);
      panic := MapOne(s, a, frame, perm);
      if !panic {
        MappedMore(h, k, H(), s, first, a, base, WithPresent(perm));
      }
    }

    /** The body of the loop of mappages. */
    method MapOne(s: nat, v: nat, g: nat, perm: nat) returns (panic: bool)
      requires Valid() && Space(H(), s) && v < USERPAGES && g < |mem| && role[g] == Held && perm < PGSIZE
      modifies this`mem, this`freelist, this`role, this`up, this`free
      ensures panic ==> MappedAt(old(H()), s, v) || (|old(free)| < 3 && free == [])
      ensures !panic ==> |old(free)| <= |free| + 3
      ensures !panic ==> Valid() && Space(H(), s) && Mapped(old(H()), H(), s, v, v + 1, g, WithPresent(perm))
    {
      ghost var h := H();
      var pt;
      panic, pt := Walkpgdir(s, v, true);
      if panic {
        return;
      }
      var x := v % ENTRIES;
      if Present(mem[pt.value][x]) {
        assert SamePte(h, H(), s, v);
        return true;
      }
      AddPage(h, H(), freelist, free, lo, s, v, pt.value, g, WithPresent(perm));
      assert KeepsFrame(h, H(), s, g);
      LinkKernel(H(), kpml4, kpdpt, pt.value, x, g, WithPresent(perm));
      ghost var k := Link(H(), pt.value, x, g, WithPresent(perm));
      mem := mem[pt.value := mem[pt.value][x := Entry(g, WithPresent(perm))]];
      role, up := k.role, k.up;
    }

    /** The machine before kinit1: the kernel image lies below frame first, and nothing is free. */
    constructor (image: Mem, first: nat)
      requires 0 < first <= |image|
      ensures lo == first && mem == image && |up| == |image|
      ensures role == seq(|image|, f => if f < first then Kernel else Held)
    {
      lo, mem, freelist, kpml4, kpdpt := first, image, 0, 0, 0;
      role := seq(|image|, f => if f < first then Kernel else Held);
      up := seq(|image|, _ => 0);
      free := [];
    }

    /** kinit1: an empty list, then freerange. */
    method Kinit1(vstart: nat, vend: nat) returns (panic: bool)
      requires 0 < lo <= |mem| == |up| && role == seq(|mem|, f => if f < lo then Kernel else Held)
      modifies this`mem, this`freelist, this`role, this`free
      ensures panic <==> OutOfRange(lo, |old(mem)|, PagesIn(vstart), vend / PGSIZE)
      ensures !panic ==>
                && FreeListOk() && Tree(H()) && |mem| == |old(mem)|
                && FreedRun(old(role), role, PagesIn(vstart), vend / PGSIZE)
                && |free| == if PagesIn(vstart) <= vend / PGSIZE then vend / PGSIZE - PagesIn(vstart) else 0
    {
      freelist, free := 0, [];
      forall g: nat | g < |role| ensures Listed(role, free, lo, g) {
      }
      NoSpaces(H());
      panic := Freerange(vstart, vend);
    }

    /** freerange: every whole page from vstart up to vend goes on the free list; kfree panics on a page
        of the kernel image or beyond the end of memory. */
    method Freerange(vstart: nat, vend: nat) returns (panic: bool)
      requires FreeListOk() && Tree(H())
      requires forall f: nat | PagesIn(vstart) <= f < vend / PGSIZE && lo <= f < |mem| :: HeldAt(role, f)
      modifies this`mem, this`freelist, this`role, this`free
      ensures panic <==> OutOfRange(lo, |old(mem)|, PagesIn(vstart), vend / PGSIZE)
      ensures !panic ==>
                && FreeListOk() && Tree(H()) && |mem| == |old(mem)|
                && FreedRun(old(role), role, PagesIn(vstart), vend / PGSIZE)
                && (forall f: nat | f < |mem| && role[f] != Free :: mem[f] == old(mem)[f])
                && |free| == |old(free)| +
                     if PagesIn(vstart) <= vend / PGSIZE then vend / PGSIZE - PagesIn(vstart) else 0
    {
      var first, f := PagesIn(vstart), PagesIn(vstart);
      PagesFit(f, vend);
      while f * PGSIZE + PGSIZE <= vend
        invariant first <= f && (f <= vend / PGSIZE || f == first)
        invariant |mem| == |old(mem)| && !OutOfRange(lo, |mem|, first, f)
        invariant FreeListOk() && Tree(H()) && |free| == |old(free)| + (f - first)
        invariant FreedRun(old(role), role, first, f)
        invariant forall g: nat | g < |mem| && role[g] != Free :: mem[g] == old(mem)[g]
        decreases vend / PGSIZE - f
      {
        PagesFit(f, vend);
        if f < lo || f >= |mem| {
          assert first <= f < vend / PGSIZE;
          return true;
        }
        assert HeldAt(old(role), f);
        TouchKeeps(H(), f, JunkPage(freelist), Free);
        KfreePage(f);
        f := f + 1;
        PagesFit(f, vend);
      }
      return false;
    }

    /** kvmalloc: the kernel's PML4 and the PDPT that all address spaces share, which maps the first and
        the fourth gigabyte of physical memory. */
    method Kvmalloc() returns (panic: bool)
      requires FreeListOk() && Tree(H()) && (forall s: nat :: !Space(H(), s))
      modifies this`mem, this`freelist, this`role, this`free, this`kpml4, this`kpdpt
      ensures panic <==> |old(free)| < 2
      ensures !panic ==>
                && Valid() && (forall s: nat :: !Space(H(), s)) && |mem| == |old(mem)|
                && kpml4 != kpdpt && old(role)[kpml4] == old(role)[kpdpt] == Free
                && role == old(role)[kpml4 := Shared][kpdpt := Shared]
    {
      panic, kpml4 := KallocShared(ZeroPage);
      if panic {
        return;
      }
      panic, kpdpt := KallocShared(ZeroPage);
      if panic {
        return;
      }
      WriteShared(kpml4, mem[kpml4][ENTRIES / 2 := Entry(kpdpt, PTE_P + PTE_W)]);
      WriteShared(kpdpt, mem[kpdpt][0 := PTE_PS + PTE_P + PTE_W]);
      WriteShared(kpdpt, mem[kpdpt][3 := 3 * GIGABYTE + PTE_PS + PTE_P + PTE_W + PTE_PWT + PTE_PCD]);
      assert mem[kpdpt] == KernelPdpt();
      assert mem[kpml4] == RootPage(kpdpt);
      forall s: nat ensures HasKernel(H(), s, kpdpt) && !Space(H(), s) {
        assert !Space(old(H()), s);
      }
    }

    /** kalloc of a page for the kernel's own tables, with its first contents. */
    method KallocShared(page: Page) returns (panic: bool, g: nat)
      requires FreeListOk() && Tree(H())
      modifies this`mem, this`freelist, this`role, this`free
      ensures panic <==> old(free) == []
      ensures !panic ==>
                && FreeListOk() && Tree(H()) && g < |mem| && old(role)[g] == Free
                && mem == old(mem)[g := page] && role == old(role)[g := Shared] && |old(free)| == |free| + 1
    {
      ghost var h := H();
      panic, g := KallocPage();
      if panic {
        return;
      }
      TouchKeeps(h, g, page, Shared);
      UseKeepsFree(mem, role, freelist, free, lo, g, page, Shared);
      mem, role := mem[g := page], role[g := Shared];
      assert role == h.role[g := Shared];
    }

    /** A store to one of the kernel's own tables. */
    method WriteShared(g: nat, page: Page)
      requires FreeListOk() && Tree(H()) && g < |mem| && role[g] == Shared
      modifies this`mem
      ensures FreeListOk() && Tree(H()) && mem == old(mem)[g := page]
    {
      TouchKeeps(H(), g, page, Shared);
      UseKeepsFree(mem, role, freelist, free, lo, g, page, Shared);
      assert role[g := Shared] == role;
      mem := mem[g := page];
    }

    /** allocuvm: grow space s from oldsz to newsz bytes with zeroed pages. */
    method Allocuvm(s: nat, oldsz: nat, newsz: nat) returns (panic: bool, sz: nat)
      requires Valid() && Space(H(), s)
      requires newsz <= USERPAGES * PGSIZE || newsz >= KERNBASE
      modifies this`mem, this`freelist, this`role, this`up, this`free
      ensures newsz >= KERNBASE ==> !panic && sz == 0 && H() == old(H())
      ensures newsz < KERNBASE && newsz < oldsz ==> !panic && sz == oldsz && H() == old(H())
      ensures panic ==>
                || AnyMapped(old(H()), s, PagesIn(oldsz), PagesIn(newsz))
                || (|old(free)| < 4 * (PagesIn(newsz) - PagesIn(oldsz)) && free == [])
      ensures !panic && newsz < KERNBASE && oldsz <= newsz ==>
                && sz == newsz && Valid() && Space(H(), s) && Grown(old(H()), H(), s, PagesIn(oldsz), PagesIn(newsz))
                && KernelKept(old(H()), H(), kpml4, kpdpt)
    {
      if newsz >= KERNBASE {
        return false, 0;
      }
      if newsz < oldsz {
        return false, oldsz;
      }
      panic := AllocPages(s, PagesIn(oldsz), newsz);
      return panic, if panic then 0 else newsz;
    }

    /** The loop of allocuvm: add the pages from a on that hold addresses below newsz. */
    method AllocPages(s: nat, a: nat, newsz: nat) returns (panic: bool)
      requires Valid() && Space(H(), s) && newsz <= USERPAGES * PGSIZE && a <= PagesIn(newsz)
      modifies this`mem, this`freelist, this`role, this`up, this`free
      ensures panic ==> AnyMapped(old(H()), s, a, PagesIn(newsz)) ||
                        (|old(free)| < 4 * (PagesIn(newsz) - a) && free == [])
      ensures !panic ==> Valid() && Space(H(), s) && Grown(old(H()), H(), s, a, PagesIn(newsz))
    {
      ghost var h := H();
      var b := a;
      GrownNone(h, s, a);
      while b * PGSIZE < newsz
        invariant a <= b <= PagesIn(newsz)
        invariant Valid() && Space(H(), s) && Grown(h, H(), s, a, b)
        invariant |old(free)| <= |free| + 4 * (b - a)
        decreases PagesIn(newsz) - b
      {
        PagesBelow(b, newsz);
        panic := AllocNext(h, s, a, b);
        if panic {
          return;
        }
        b := b + 1;
      }
      PagesBelow(b, newsz);
      panic := false;
    }

    /** One turn of the loop of allocuvm, which has added the pages from first on and below a. */
    method AllocNext(ghost h: Phys, s: nat, ghost first: nat, a: nat) returns (panic: bool)
      requires Valid() && Space(h, s) && Space(H(), s) && Grown(h, H(), s, first, a) && a < USERPAGES
      modifies this`mem, this`freelist, this`role, this`up, this`free
      ensures panic ==> MappedAt(h, s, a) || (|old(free)| < 4 && free == [])
      ensures !panic ==> |old(free)| <= |free| + 4
      ensures !panic ==> Valid() && Space(H(), s) && Grown(h, H(), s, first, a + 1)
    {
      ghost var k := H();
      assert GrownPte(h, k, s, first, a, s, a);
      panic := AllocOne(s, a);
      if !panic {
        GrownMore(h, k, H(), s, first, a);
      }
    }

    /** The body of the loop of allocuvm. */
    method AllocOne(s: nat, v: nat) returns (panic: bool)
      requires Valid() && Space(H(), s) && v < USERPAGES
      modifies this`mem, this`freelist, this`role, this`up, this`free
      ensures panic ==> MappedAt(old(H()), s, v) || (|old(free)| < 4 && free == [])
      ensures !panic ==> |old(free)| <= |free| + 4
      ensures !panic ==> Valid() && Space(H(), s) && Grown(old(H()), H(), s, v, v + 1)
    {
      ghost var h := H();
      ghost var g, k;
      panic, g, k := MapFresh(s, v, ZeroPage, PTE_W + PTE_U);
      if !panic {
        GrownOne(h, k, H(), s, v, g);
      }
    }

    /** What the loops of allocuvm and copyuvm share: allocate a page, fill it, map it at v. The ghost
        results are its frame and memory just before mappages. */
    method MapFresh(s: nat, v: nat, page: Page, perm: nat) returns (panic: bool, ghost g: nat, ghost k: Phys)
      requires Valid() && Space(H(), s) && v < USERPAGES && perm < PGSIZE
      modifies this`mem, this`freelist, this`role, this`up, this`free
      ensures panic ==> MappedAt(old(H()), s, v) || (|old(free)| < 4 && free == [])
      ensures !panic ==> |old(free)| <= |free| + 4
      ensures !panic ==>
                && Valid() && Space(H(), s)
                && g < |old(mem)| && old(role)[g] == Free
                && k == Touch(old(H()), g, page, Held) && SameMaps(old(H()), k) && Space(k, s)
                && Mapped(k, H(), s, v, v + 1, g, WithPresent(perm))
    {
      ghost var h := H();
      k := h;
      var f;
      panic, f := KallocPage();
      g := f;
      if panic {
        return;
      }
      FreshPage(h, freelist, free, lo, s, f, page);
      TouchKernel(h, kpml4, kpdpt, f, page, Held);
      mem := mem[f := page];
      k := H();
      assert HeldAt(role, f);
      assert SamePte(h, k, s, v);
      panic := MapPage(s, v, f, perm);
    }

    /** mappages for one page. */
    method MapPage(s: nat, v: nat, f: nat, perm: nat) returns (panic: bool)
      requires Valid() && Space(H(), s) && v < USERPAGES && HeldAt(role, f) && perm < PGSIZE
      modifies this`mem, this`freelist, this`role, this`up, this`free
      ensures panic ==> MappedAt(old(H()), s, v) || (|old(free)| < 3 && free == [])
      ensures !panic ==> |old(free)| <= |free| + 3
      ensures !panic ==> Valid() && Space(H(), s) && Mapped(old(H()), H(), s, v, v + 1, f, WithPresent(perm))
    {
      OnePage(v);
      OnePage(f);
      panic := Mappages(s, v * PGSIZE, PGSIZE, f * PGSIZE, perm);
    }

    /** deallocuvm: shrink space s from oldsz to newsz bytes. oldsz may be more than is mapped. */
    method Deallocuvm(s: nat, oldsz: nat, newsz: nat) returns (sz: nat)
      requires Valid() && Space(H(), s) && oldsz <= USERPAGES * PGSIZE
      modifies this`mem, this`freelist, this`role, this`up, this`free
      ensures newsz >= oldsz ==> sz == oldsz && H() == old(H())
      ensures newsz < oldsz ==>
                && sz == newsz && Valid() && Space(H(), s) && Shrunk(old(H()), H(), s, PagesIn(newsz), PagesIn(oldsz))
                && KernelKept(old(H()), H(), kpml4, kpdpt)
    {
      if newsz >= oldsz {
        return oldsz;
      }
      FreePages(s, PagesIn(newsz), oldsz);
      return newsz;
    }

    /** The loop of deallocuvm: remove the pages from a on that hold addresses below oldsz. */
    method FreePages(s: nat, a: nat, oldsz: nat)
      requires Valid() && Space(H(), s) && oldsz <= USERPAGES * PGSIZE && a <= PagesIn(oldsz)
      modifies this`mem, this`freelist, this`role, this`up, this`free
      ensures Valid() && Space(H(), s) && Shrunk(old(H()), H(), s, a, PagesIn(oldsz))
    {
      ghost var h := H();
      var b := a;
      ShrunkNone(h, s, a);
      while b * PGSIZE < oldsz
        invariant a <= b <= PagesIn(oldsz)
        invariant Valid() && Space(H(), s) && Shrunk(h, H(), s, a, b)
        decreases PagesIn(oldsz) - b
      {
        PagesBelow(b, oldsz);
        FreeNext(h, s, a, b);
        b := b + 1;
      }
      PagesBelow(b, oldsz);
    }

    /** One turn of the loop of deallocuvm, which has removed the pages from first on and below a. */
    method FreeNext(ghost h: Phys, s: nat, ghost first: nat, a: nat)
      requires Valid() && Space(H(), s) && Shrunk(h, H(), s, first, a) && a < USERPAGES
      modifies this`mem, this`freelist, this`role, this`up, this`free
      ensures Valid() && Space(H(), s) && Shrunk(h, H(), s, first, a + 1)
    {
      ghost var k := H();
      FreeOne(s, a);
      ShrunkMore(h, k, H(), s, first, a);
    }

    /** The body of the loop of deallocuvm. */
    method FreeOne(s: nat, v: nat)
      requires Valid() && Space(H(), s) && v < USERPAGES
      modifies this`mem, this`freelist, this`role, this`up, this`free
      ensures Valid() && Space(H(), s) && Shrunk(old(H()), H(), s, v, v + 1)
    {
      ghost var h := H();
      var panic, pt := Walkpgdir(s, v, false);
      if pt.Some? && Present(mem[pt.value][v % ENTRIES]) {
        var x := v % ENTRIES;
        var g := Frame(mem[pt.value][x]);
        RemovePage(h, freelist, free, lo, s, v, pt.value);
        RemoveKernel(h, kpml4, kpdpt, pt.value, x, JunkPage(freelist));
        KfreePage(g);
        mem := mem[pt.value := mem[pt.value][x := 0]];
        assert H() == Touch(Unlink(h, pt.value, x, Held), g, JunkPage(old(freelist)), Free);
      } else {
        ShrunkNothing(h, s, v);
      }
    }

    /** clearpteu: the page at v is no longer accessible to the user. */
    method Clearpteu(s: nat, v: nat) returns (panic: bool)
      requires Valid() && Space(H(), s) && v < USERPAGES
      modifies this`mem, this`freelist, this`role, this`up, this`free
      ensures panic <==> Reach(old(mem), s, 1, v / ENTRIES) == None
      ensures panic ==> H() == old(H())
      ensures free == old(free) && role == old(role) && up == old(up) && |mem| == |old(mem)|
      ensures forall f: nat | f < |mem| && role[f] != Node(s, 1, v / ENTRIES) :: mem[f] == old(mem)[f]
      ensures !panic ==>
                && Valid()
                && Pte(mem, s, v) == WithoutUser(Pte(old(mem), s, v))
                && forall t: nat, u: nat | Space(old(H()), t) && u < USERPAGES && (t != s || u != v) ::
                     SamePte(old(H()), H(), t, u)
    {
      var pt;
      panic, pt := Walkpgdir(s, v, false);
      if pt.None? {
        return true;
      }
      var x := v % ENTRIES;
      var e := mem[pt.value][x];
      ghost var h := H();
      ReachChild(h, s, 1, v / ENTRIES, pt.value);
      ReflagEntry(h, freelist, free, lo, s, v, pt.value);
      StoreKernel(h, kpml4, kpdpt, pt.value, x, WithoutUser(e));
      mem := mem[pt.value := mem[pt.value][x := WithoutUser(e)]];
      return false;
    }

    /** setupkvm: a new, empty address space that shares the kernel's PDPT. */
    method Setupkvm() returns (panic: bool, d: nat)
      requires Valid()
      modifies this`mem, this`freelist, this`role, this`free
      ensures panic <==> old(free) == []
      ensures panic ==> free == []
      ensures !panic ==> |old(free)| == |free| + 1
      ensures !panic ==>
                && Valid() && Founded(old(H()), H(), d) && mem[d] == RootPage(kpdpt)
    {
      ghost var h := H();
      panic, d := KallocPage();
      if panic {
        return;
      }
      FoundSpace(h, freelist, free, lo, d, kpdpt);
      FoundKernel(h, kpml4, kpdpt, d);
      mem := mem[d := ZeroPage];
      mem := mem[d := mem[d][ENTRIES / 2 := Entry(kpdpt, PTE_P + PTE_W)]];
      role := role[d := Node(d, 4, 0)];
      assert mem[d] == RootPage(kpdpt);
      assert mem == h.mem[d := RootPage(kpdpt)];
      assert role == h.role[d := Node(d, 4, 0)];
    }

    /** copyuvm: a new space with a copy of every page of s from the second up to sz. A page of s
        that is missing is a panic. */
    method Copyuvm(s: nat, sz: nat) returns (panic: bool, d: nat)
      requires Valid() && Space(H(), s) && sz < 0x1_0000_0000
      modifies this`mem, this`freelist, this`role, this`up, this`free
      ensures panic ==>
                || (exists v: nat | 1 <= v < PagesIn(sz) :: !MappedAt(old(H()), s, v))
                || (|old(free)| < 1 + 4 * PagesIn(sz) && free == [])
      ensures !panic ==>
                && Valid() && Copied(old(H()), H(), s, d, PagesIn(sz))
                && KernelKept(old(H()), H(), kpml4, kpdpt)
    {
      ghost var h := H();
      panic, d := Setupkvm();
      if panic {
        return;
      }
      CopiedNone(h, H(), s, d);
      var v := 1;
      while v * PGSIZE < sz
        invariant 1 <= v && (v <= PagesIn(sz) || v == 1)
        invariant Valid() && Copied(h, H(), s, d, v)
        invariant |old(free)| <= |free| + 1 + 4 * (v - 1)
        decreases PagesIn(sz) - v
      {
        panic := CopyOne(h, s, d, v);
        if panic {
          return;
        }
        v := v + 1;
      }
      CopiedLess(h, H(), s, d, v, PagesIn(sz));
    }

    /** The entry of a page that must be present. */
    method ReadPte(s: nat, v: nat) returns (panic: bool, e: nat)
      requires Valid() && Space(H(), s) && v < USERPAGES
      modifies this`mem, this`freelist, this`role, this`up, this`free
      ensures Valid() && H() == old(H()) && free == old(free) && freelist == old(freelist)
      ensures panic <==> !Present(Pte(mem, s, v))
      ensures !panic ==> e == Pte(mem, s, v) && Frame(e) < |mem|
    {
      var pt;
      panic, pt := Walkpgdir(s, v, false);
      if pt.None? {
        return true, 0;
      }
      e := mem[pt.value][v % ENTRIES];
      if !Present(e) {
        return true, 0;
      }
      PresentFrame(H(), s, v, pt.value);
    }

    /** The body of the loop of copyuvm. */
    method CopyOne(ghost h: Phys, s: nat, d: nat, v: nat) returns (panic: bool)
      requires Valid() && Tree(h) && Space(h, s) && Copied(h, H(), s, d, v) && 1 <= v < USERPAGES
      modifies this`mem, this`freelist, this`role, this`up, this`free
      ensures panic ==> !MappedAt(h, s, v) || (|old(free)| < 4 && free == [])
      ensures !panic ==> |old(free)| <= |free| + 4
      ensures !panic ==> Valid() && Copied(h, H(), s, d, v + 1)
    {
      ghost var k := H();
      CopiedKeeps(h, k, s, d, v);
      var e;
      panic, e := ReadPte(s, v);
      assert SamePte(h, k, s, v);
      if panic {
        return;
      }
      assert CopiedPte(h, k, s, d, v, v);
      ghost var g, m;
      PresentFlags(e);
      panic, g, m := MapFresh(d, v, mem[Frame(e)], Flags(e));
      if !panic {
        CopiedMore(h, k, m, H(), s, d, v, g);
      }
    }

    /** freevm: give back every user page and every table of space s. */
    method Freevm(s: nat)
      requires Valid() && Space(H(), s)
      modifies this`mem, this`freelist, this`role, this`free
      ensures Valid() && Razed(old(H()), H(), s) && KernelKept(old(H()), H(), kpml4, kpdpt)
      ensures forall t: nat, v: nat | Space(old(H()), t) && t != s && v < USERPAGES :: SamePte(old(H()), H(), t, v)
    {
      ghost var h := H();
      FreeLevel(h, s, 4, 0, s);
      RazedAll(h, H(), s);
      RazedKeeps(h, H(), s);
      RazedKernel(h, H(), s, kpml4, kpdpt);
    }

    /** One of the four nested loops of freevm, with the loops inside it: free everything below the
        table f of the given level, then f itself. */
    method FreeLevel(ghost h: Phys, ghost s: nat, level: nat, ghost key: nat, f: nat)
      requires FreeListOk() && Tree(h) && Space(h, s) && Razing(h, H(), s)
      requires 1 <= level <= 4 && key < KeyBound(level) && f < |h.mem| && h.role[f] == Node(s, level, key)
      requires Untouched(h, role, s, level, key)
      modifies this`mem, this`freelist, this`role, this`free
      ensures FreeListOk() && Razing(h, H(), s)
      ensures Emptied(h, old(role), role, s, level, key)
      decreases level
    {
      var limit := if level == 4 then ENTRIES / 2 else ENTRIES;
      var x := 0;
      EmptiedNone(h, role, s, level, key);
      while x < limit
        invariant x <= limit && FreeListOk() && Razing(h, H(), s)
        invariant PartEmptied(h, old(role), role, s, level, key, x)
      {
        ghost var was := role;
        TableIntact(h, old(role), role, s, level, key, x, f);
        assert RazingFrame(h, H(), s, f);
        if Present(mem[f][x]) {
          assert Down(h, f, x);
          var g := Frame(mem[f][x]);
          ChildIntact(h, old(role), role, s, level, key, x);
          if level == 1 {
            assert Under(h.role[g], s, 0, key * ENTRIES + x);
            FreeNode(h, s, g);
            LeafEmptied(h, was, role, s, key * ENTRIES + x, g);
          } else {
            FreeLevel(h, s, level - 1, key * ENTRIES + x, g);
          }
        } else {
          NothingBelow(h, s, level, key, f, x, role);
        }
        EmptiedMore(h, old(role), was, role, s, level, key, x);
        x := x + 1;
      }
      TableIntact(h, old(role), role, s, level, key, x, f);
      ghost var was := role;
      FreeNode(h, s, f);
      EmptiedWhole(h, old(role), was, role, s, level, key, f);
    }

    method FreeNode(ghost h: Phys, ghost s: nat, g: nat)
      requires FreeListOk() && Razing(h, H(), s) && g < |h.mem| && h.role[g].Node? && h.role[g].space == s
      requires role[g] == h.role[g]
      modifies this`mem, this`freelist, this`role, this`free
      ensures FreeListOk() && Razing(h, H(), s) && role == old(role)[g := Free]
    {
      assert Listed(role, free, lo, g);
      ghost var k := H();
      KfreePage(g);
      forall f: nat | f < |h.mem| ensures RazingFrame(h, H(), s, f) {
        assert RazingFrame(h, k, s, f);
      }
    }
  }

  // ----- which tables are made -----

  lemma {:induction false} Ancestors(v: nat)
    ensures Ancestor(v, 1) == v / ENTRIES && Ancestor(v, 2) == v / ENTRIES / ENTRIES
    ensures Ancestor(v, 3) == v / ENTRIES / ENTRIES / ENTRIES
  {
    var a := v / ENTRIES;
    assert Ancestor(v, 1) == Ancestor(a, 0);
    assert Ancestor(v, 2) == Ancestor(a, 1) == Ancestor(a / ENTRIES, 0);
    assert Ancestor(v, 3) == Ancestor(a, 2) == Ancestor(a / ENTRIES, 1) == Ancestor(a / ENTRIES / ENTRIES, 0);
  }

  lemma {:induction false} NeededTable(h: Phys, k: Phys, v: nat, g: nat)
    requires Sized(h) && Sized(k) && |h.mem| == |k.mem| && g < |h.mem| && k.role == h.role[g := k.role[g]]
    requires k.role[g].Node? && Ancestor(v, k.role[g].level) == k.role[g].key
    ensures Needed(h, k, v, v + 1)
  {
    var w := v + 1;
    forall f: nat | f < |h.mem| ensures NeededAt(h, k, v, w, f) {
      assert f == g ==> v <= v < w && Ancestor(v, k.role[f].level) == k.role[f].key;
    }
  }

  lemma {:induction false} NeededTwice(h: Phys, k: Phys, m: Phys, s: nat, v: nat)
    requires Needed(h, k, v, v + 1) && Needed(k, m, v, v + 1) && Grows(k, m, s)
    ensures Needed(h, m, v, v + 1)
  {
    forall f: nat | f < |k.mem| ensures NoNewTable(k, m, f) {
      assert KeepsFrame(k, m, s, f);
    }
    NeededMore(h, k, m, v, v + 1, v, v + 1, v + 1);
  }

  // ----- the kernel's half of every address space -----

  const PTE_PWT: nat := 8
  const PTE_PCD: nat := 16
  const PTE_PS: nat := 128
  const GIGABYTE: nat := 0x4000_0000

  /** The PDPT kvmalloc makes. */
  function KernelPdpt(): Page {
    seq(ENTRIES, x =>
      if x == 0 then PTE_PS + PTE_P + PTE_W
      else if x == 3 then 3 * GIGABYTE + PTE_PS + PTE_P + PTE_W + PTE_PWT + PTE_PCD
      else 0)
  }

  /** A PML4 whose upper half is the one setupkvm and kvmalloc write. */
  predicate KernelHalf(p: Page, kpdpt: nat) {
    p[ENTRIES / 2..] == RootPage(kpdpt)[ENTRIES / 2..]
  }

  /** The two tables of kvmalloc are in place and every address space shares the kernel's half. */
  ghost predicate KernelOk(h: Phys, kpml4: nat, kpdpt: nat) {
    && Sized(h) && kpml4 < |h.mem| && kpdpt < |h.mem|
    && h.role[kpml4] == Shared && h.role[kpdpt] == Shared
    && h.mem[kpdpt] == KernelPdpt() && KernelHalf(h.mem[kpml4], kpdpt)
    && forall s: nat :: HasKernel(h, s, kpdpt)
  }

  ghost predicate HasKernel(h: Phys, s: nat, kpdpt: nat) {
    Space(h, s) ==> KernelHalf(h.mem[s], kpdpt)
  }

  /** From h to k both tables of the kernel kept their use, and the shared PDPT its contents. */
  ghost predicate KernelKept(h: Phys, k: Phys, kpml4: nat, kpdpt: nat)
    requires KernelOk(h, kpml4, kpdpt) && KernelOk(k, kpml4, kpdpt)
  {
    && k.role[kpml4] == h.role[kpml4] == Shared
    && k.role[kpdpt] == h.role[kpdpt] == Shared && k.mem[kpdpt] == h.mem[kpdpt]
  }

  /** A store to an entry of a PML4 that belongs to user space leaves the kernel's half alone. */
  lemma {:induction false} LowerEntry(p: Page, x: nat, e: nat)
    requires x < ENTRIES / 2
    ensures p[x := e][ENTRIES / 2..] == p[ENTRIES / 2..]
  {
  }

  lemma {:induction false} StoreKernel(h: Phys, kpml4: nat, kpdpt: nat, f: nat, x: nat, e: nat)
    requires KernelOk(h, kpml4, kpdpt) && f < |h.mem| && UserEntry(h.role[f], x)
    ensures KernelOk(h.(mem := h.mem[f := h.mem[f][x := e]]), kpml4, kpdpt)
  {
    var k := h.(mem := h.mem[f := h.mem[f][x := e]]);
    forall s: nat ensures HasKernel(k, s, kpdpt) {
      assert HasKernel(h, s, kpdpt);
      if Space(k, s) && s == f {
        LowerEntry(h.mem[f], x, e);
      }
    }
  }

  lemma {:induction false} TouchKernel(h: Phys, kpml4: nat, kpdpt: nat, g: nat, page: Page, r: Role)
    requires KernelOk(h, kpml4, kpdpt) && g < |h.mem| && h.role[g] != Shared && r != Node(g, 4, 0)
    ensures KernelOk(Touch(h, g, page, r), kpml4, kpdpt)
  {
    var k := Touch(h, g, page, r);
    forall s: nat ensures HasKernel(k, s, kpdpt) {
      assert HasKernel(h, s, kpdpt);
    }
  }

  lemma {:induction false} LinkKernel(h: Phys, kpml4: nat, kpdpt: nat, f: nat, x: nat, g: nat, flags: nat)
    requires KernelOk(h, kpml4, kpdpt) && f < |h.mem| && g < |h.mem| && UserEntry(h.role[f], x) && h.role[g] == Held
    ensures KernelOk(Link(h, f, x, g, flags), kpml4, kpdpt)
  {
    StoreKernel(h, kpml4, kpdpt, f, x, Entry(g, flags));
    var m, k := h.(mem := h.mem[f := h.mem[f][x := Entry(g, flags)]]), Link(h, f, x, g, flags);
    forall s: nat ensures HasKernel(k, s, kpdpt) {
      assert HasKernel(m, s, kpdpt);
    }
  }

  lemma {:induction false} AddTableKernel(h: Phys, kpml4: nat, kpdpt: nat, f: nat, x: nat, g: nat)
    requires KernelOk(h, kpml4, kpdpt) && f < |h.mem| && g < |h.mem| && UserEntry(h.role[f], x) && h.role[g] == Free
    ensures KernelOk(Link(Touch(h, g, ZeroPage, Held), f, x, g, RWU), kpml4, kpdpt)
  {
    TouchKernel(h, kpml4, kpdpt, g, ZeroPage, Held);
    LinkKernel(Touch(h, g, ZeroPage, Held), kpml4, kpdpt, f, x, g, RWU);
  }

  lemma {:induction false} RemoveKernel(h: Phys, kpml4: nat, kpdpt: nat, f: nat, x: nat, junk: Page)
    requires KernelOk(h, kpml4, kpdpt) && f < |h.mem| && UserEntry(h.role[f], x)
    requires Frame(h.mem[f][x]) < |h.mem| && h.role[Frame(h.mem[f][x])].Node? && Frame(h.mem[f][x]) != f
    ensures KernelOk(Touch(Unlink(h, f, x, Held), Frame(h.mem[f][x]), junk, Free), kpml4, kpdpt)
  {
    var g := Frame(h.mem[f][x]);
    var m := h.(mem := h.mem[f := h.mem[f][x := 0]]);
    StoreKernel(h, kpml4, kpdpt, f, x, 0);
    TouchKernel(m, kpml4, kpdpt, g, junk, Free);
    assert Touch(Unlink(h, f, x, Held), g, junk, Free) == Touch(m, g, junk, Free);
  }

  lemma {:induction false} FoundKernel(h: Phys, kpml4: nat, kpdpt: nat, d: nat)
    requires KernelOk(h, kpml4, kpdpt) && d < |h.mem| && h.role[d] == Free
    ensures KernelOk(Phys(h.mem[d := RootPage(kpdpt)], h.role[d := Node(d, 4, 0)], h.up), kpml4, kpdpt)
  {
    var k := Phys(h.mem[d := RootPage(kpdpt)], h.role[d := Node(d, 4, 0)], h.up);
    forall s: nat ensures HasKernel(k, s, kpdpt) {
      assert HasKernel(h, s, kpdpt);
    }
  }

  /** freevm reaches neither the shared PDPT nor the PML4 of anyone else. */
  lemma {:induction false} RazedKernel(h: Phys, k: Phys, s: nat, kpml4: nat, kpdpt: nat)
    requires KernelOk(h, kpml4, kpdpt) && Razing(h, k, s)
    ensures KernelOk(k, kpml4, kpdpt)
  {
    assert RazingFrame(h, k, s, kpml4) && RazingFrame(h, k, s, kpdpt);
    forall t: nat ensures HasKernel(k, t, kpdpt) {
      assert HasKernel(h, t, kpdpt);
      assert t < |h.mem| ==> RazingFrame(h, k, s, t);
    }
  }

  /** What the hardware makes of the kernel address KERNBASE + a in the space of PML4 s: the physical
      address, if a 1 GB page maps it. */
  function LargePage(mem: Mem, s: nat, a: nat): Option<nat> {
    var t := Reach(mem, s, 3, ENTRIES / 2 + a / (ENTRIES * GIGABYTE));
    if t.None? || t.value >= |mem| then None
    else
      var e := mem[t.value][a / GIGABYTE % ENTRIES];
      if Present(e) && e / PTE_PS % 2 == 1 then Some(e / GIGABYTE * GIGABYTE + a % GIGABYTE) else None
  }

  /** Whether user code may write (first) and access (second) the kernel address KERNBASE + a. */
  function LargeRights(mem: Mem, s: nat, a: nat): (bool, bool) {
    var i := ENTRIES / 2 + a / (ENTRIES * GIGABYTE);
    var t := Reach(mem, s, 3, i);
    if t.None? || t.value >= |mem| then (false, false)
    else
      var above, e := Rights(mem, s, 3, i), mem[t.value][a / GIGABYTE % ENTRIES];
      (above.0 && Writeable(e), above.1 && User(e))
  }

  /** What is mapped there the kernel can write and user code cannot touch. */
  lemma {:induction false} KernelRights(h: Phys, kpml4: nat, kpdpt: nat, s: nat, a: nat)
    requires KernelOk(h, kpml4, kpdpt) && (Space(h, s) || s == kpml4)
    requires a < GIGABYTE || 3 * GIGABYTE <= a < 4 * GIGABYTE
    ensures LargeRights(h.mem, s, a) == (true, false)
  {
    var half := ENTRIES / 2;
    assert HasKernel(h, s, kpdpt);
    KernelEntry(h.mem[s], kpdpt, 0);
    KernelParts(kpdpt);
    assert Reach(h.mem, s, 4, half / ENTRIES) == Some(s);
    assert Reach(h.mem, s, 3, half) == Some(kpdpt);
    assert Rights(h.mem, s, 4, half / ENTRIES) == (true, true);
    Gigabytes(a);
    assert h.mem[kpdpt][a / GIGABYTE] == KernelPdpt()[a / GIGABYTE];
  }

  /** In every address space at all times the kernel's half is the linear map of the first and the
      fourth gigabyte of physical memory, and nothing else. */
  lemma {:induction false} KernelAddresses(h: Phys, kpml4: nat, kpdpt: nat, s: nat, a: nat)
    requires KernelOk(h, kpml4, kpdpt) && (Space(h, s) || s == kpml4) && a < ENTRIES / 2 * ENTRIES * GIGABYTE
    ensures LargePage(h.mem, s, a) == if a < GIGABYTE || 3 * GIGABYTE <= a < 4 * GIGABYTE then Some(a) else None
  {
    var i, j := a / (ENTRIES * GIGABYTE), a / GIGABYTE % ENTRIES;
    var half := ENTRIES / 2;
    assert HasKernel(h, s, kpdpt);
    KernelEntry(h.mem[s], kpdpt, i);
    assert Reach(h.mem, s, 4, (half + i) / ENTRIES) == Some(s);
    KernelParts(kpdpt);
    if i == 0 {
      assert Reach(h.mem, s, 3, half) == Some(kpdpt);
      Gigabytes(a);
      assert h.mem[kpdpt][j] == KernelPdpt()[j];
    } else {
      assert Reach(h.mem, s, 3, half + i) == None;
    }
  }

  lemma {:induction false} KernelEntry(p: Page, kpdpt: nat, i: nat)
    requires KernelHalf(p, kpdpt) && i < ENTRIES / 2
    ensures p[ENTRIES / 2 + i] == if i == 0 then Entry(kpdpt, PTE_P + PTE_W) else 0
  {
    assert p[ENTRIES / 2..][i] == RootPage(kpdpt)[ENTRIES / 2..][i];
  }

  lemma {:induction false} KernelParts(kpdpt: nat)
    ensures Present(Entry(kpdpt, PTE_P + PTE_W)) && Frame(Entry(kpdpt, PTE_P + PTE_W)) == kpdpt
    ensures Writeable(Entry(kpdpt, PTE_P + PTE_W)) && !User(Entry(kpdpt, PTE_P + PTE_W))
  {
    EntryParts(kpdpt, PTE_P + PTE_W);
  }

  lemma {:induction false} Gigabytes(a: nat)
    requires a / (ENTRIES * GIGABYTE) == 0
    ensures a / GIGABYTE % ENTRIES == a / GIGABYTE
    ensures a == a / GIGABYTE * GIGABYTE + a % GIGABYTE
  {
  }

  /** Some frame from a on and below b is not one that kfree accepts. */
  predicate OutOfRange(lo: nat, size: nat, a: nat, b: nat) {
    a < b && (a < lo || size < b)
  }

  /** From roles was to now the frames from a on and below b became free. */
  ghost predicate FreedRun(was: seq<Role>, now: seq<Role>, a: nat, b: nat) {
    && |was| == |now|
    && (forall f: nat | f < |was| && a <= f < b :: now[f] == Free)
    && (forall f: nat | f < |was| && !(a <= f < b) :: now[f] == was[f])
  }

  lemma {:induction false} PagesFit(f: nat, vend: nat)
    ensures f * PGSIZE + PGSIZE <= vend <==> f < vend / PGSIZE
  {
  }

  /** main: kinit1 over all memory above the kernel, then kvmalloc. */
  method Boot(image: Mem, first: nat) returns (panic: bool, m: Machine)
    requires 0 < first <= |image|
    ensures panic <==> |image| < first + 2
    ensures !panic ==> m.Valid() && m.lo == first && |m.mem| == |image| && (forall s: nat :: !Space(m.H(), s))
    ensures !panic ==> |UsedFrames(m.role, first)| == 2
  {
    m := new Machine(image, first);
    OnePage(first);
    OnePage(|image|);
    panic := m.Kinit1(first * PGSIZE, |image| * PGSIZE);
    assert PagesIn(first * PGSIZE) == first;
    assert !panic;
    ghost var was := m.role;
    panic := m.Kvmalloc();
    if !panic {
      assert UsedFrames(m.role, first) == {m.kpml4, m.kpdpt};
    }
  }

  /** The key, n levels up, of the table that a page hangs under. */
  function Ancestor(key: nat, n: nat): nat {
    if n == 0 then key else Ancestor(key / ENTRIES, n - 1)
  }

  /** The page of role r is the table (level, key) of space s or hangs somewhere below it. */
  predicate Under(r: Role, s: nat, level: nat, key: nat) {
    r.Node? && r.space == s && r.level <= level && Ancestor(r.key, level - r.level) == key
  }

  /** From h to k some pages of space s became free; nothing else in use changed. */
  ghost predicate Razing(h: Phys, k: Phys, s: nat) {
    && Sized(h) && Sized(k) && |h.mem| == |k.mem| && k.up == h.up
    && forall f: nat | f < |h.mem| :: RazingFrame(h, k, s, f)
  }

  ghost predicate RazingFrame(h: Phys, k: Phys, s: nat, f: nat)
    requires Sized(h) && Sized(k) && |h.mem| == |k.mem| && f < |h.mem|
  {
    || (k.role[f] == h.role[f] && (h.role[f] != Free ==> k.mem[f] == h.mem[f]))
    || (k.role[f] == Free && h.role[f].Node? && h.role[f].space == s)
  }

  /** From h to k all pages of space s became free, and nothing else in use changed. */
  ghost predicate Razed(h: Phys, k: Phys, s: nat) {
    && Razing(h, k, s)
    && forall f: nat | f < |h.mem| :: h.role[f].Node? && h.role[f].space == s ==> k.role[f] == Free
  }

  ghost predicate Untouched(h: Phys, role: seq<Role>, s: nat, level: nat, key: nat) {
    Sized(h) && |role| == |h.mem| && forall f: nat | f < |h.mem| :: UntouchedAt(h, role, s, level, key, f)
  }

  ghost predicate UntouchedAt(h: Phys, role: seq<Role>, s: nat, level: nat, key: nat, f: nat)
    requires Sized(h) && |role| == |h.mem| && f < |h.mem|
  {
    Under(h.role[f], s, level, key) ==> role[f] == h.role[f]
  }

  /** From roles was to now, exactly the pages of table (level, key) became free. */
  ghost predicate Emptied(h: Phys, was: seq<Role>, now: seq<Role>, s: nat, level: nat, key: nat) {
    && Sized(h) && |was| == |now| == |h.mem|
    && forall f: nat | f < |h.mem| :: EmptiedAt(h, was, now, s, level, key, f)
  }

  ghost predicate EmptiedAt(h: Phys, was: seq<Role>, now: seq<Role>, s: nat, level: nat, key: nat, f: nat)
    requires Sized(h) && |was| == |now| == |h.mem| && f < |h.mem|
  {
    now[f] == if Under(h.role[f], s, level, key) then Free else was[f]
  }

  /** The page of role r hangs below one of the first x entries of table (level, key). */
  predicate Below(r: Role, s: nat, level: nat, key: nat, x: nat)
    requires level >= 1
  {
    && r.Node? && r.space == s && r.level < level
    && var c := Ancestor(r.key, level - 1 - r.level);
       c / ENTRIES == key && c % ENTRIES < x
  }

  ghost predicate PartEmptied(h: Phys, was: seq<Role>, now: seq<Role>, s: nat, level: nat, key: nat, x: nat)
    requires level >= 1
  {
    && Sized(h) && |was| == |now| == |h.mem|
    && forall f: nat | f < |h.mem| :: PartEmptiedAt(h, was, now, s, level, key, x, f)
  }

  ghost predicate PartEmptiedAt(h: Phys, was: seq<Role>, now: seq<Role>, s: nat, level: nat, key: nat, x: nat, f: nat)
    requires level >= 1 && Sized(h) && |was| == |now| == |h.mem| && f < |h.mem|
  {
    now[f] == if Below(h.role[f], s, level, key, x) then Free else was[f]
  }

  lemma {:induction false} AncestorStep(key: nat, n: nat)
    requires n >= 1
    ensures Ancestor(key, n) == Ancestor(key, n - 1) / ENTRIES
  {
    if n > 1 {
      AncestorStep(key / ENTRIES, n - 1);
    }
  }

  /** To hang below entry x of a table is to hang under the page that entry points to. */
  lemma {:induction false} BelowIsUnder(r: Role, s: nat, level: nat, key: nat, x: nat)
    requires level >= 1 && x < ENTRIES
    ensures Below(r, s, level, key, x + 1) <==> Below(r, s, level, key, x) || Under(r, s, level - 1, key * ENTRIES + x)
    ensures !(Below(r, s, level, key, x) && Under(r, s, level - 1, key * ENTRIES + x))
    ensures Under(r, s, level - 1, key * ENTRIES + x) ==> Under(r, s, level, key)
  {
    if r.Node? && r.level < level {
      AncestorStep(r.key, level - r.level);
    }
  }

  lemma {:induction false} EmptiedNone(h: Phys, role: seq<Role>, s: nat, level: nat, key: nat)
    requires Sized(h) && |role| == |h.mem| && level >= 1
    ensures PartEmptied(h, role, role, s, level, key, 0)
  {
    forall f: nat | f < |h.mem| ensures PartEmptiedAt(h, role, role, s, level, key, 0, f) {
    }
  }

  lemma {:induction false} EmptiedMore(h: Phys, start: seq<Role>, was: seq<Role>, now: seq<Role>, s: nat,
                                       level: nat, key: nat, x: nat)
    requires level >= 1 && x < ENTRIES && PartEmptied(h, start, was, s, level, key, x)
    requires Emptied(h, was, now, s, level - 1, key * ENTRIES + x)
    ensures PartEmptied(h, start, now, s, level, key, x + 1)
  {
    var y, c, l := x + 1, key * ENTRIES + x, level - 1;
    forall f: nat | f < |h.mem| ensures PartEmptiedAt(h, start, now, s, level, key, y, f) {
      assert PartEmptiedAt(h, start, was, s, level, key, x, f) && EmptiedAt(h, was, now, s, l, c, f);
      BelowIsUnder(h.role[f], s, level, key, x);
    }
  }

  /** The table being emptied is itself still there. */
  lemma {:induction false} TableIntact(h: Phys, start: seq<Role>, now: seq<Role>, s: nat, level: nat, key: nat,
                                       x: nat, f: nat)
    requires level >= 1 && Untouched(h, start, s, level, key) && PartEmptied(h, start, now, s, level, key, x)
    requires f < |h.mem| && h.role[f] == Node(s, level, key)
    ensures now[f] == h.role[f]
  {
    assert UntouchedAt(h, start, s, level, key, f) && PartEmptiedAt(h, start, now, s, level, key, x, f);
  }

  lemma {:induction false} ChildIntact(h: Phys, start: seq<Role>, now: seq<Role>, s: nat, level: nat, key: nat, x: nat)
    requires level >= 1 && x < ENTRIES
    requires Untouched(h, start, s, level, key) && PartEmptied(h, start, now, s, level, key, x)
    ensures Untouched(h, now, s, level - 1, key * ENTRIES + x)
    ensures forall g: nat | g < |h.mem| && Under(h.role[g], s, level - 1, key * ENTRIES + x) :: now[g] == h.role[g]
  {
    var c, l := key * ENTRIES + x, level - 1;
    forall f: nat | f < |h.mem| ensures UntouchedAt(h, now, s, l, c, f) {
      assert UntouchedAt(h, start, s, level, key, f) && PartEmptiedAt(h, start, now, s, level, key, x, f);
      BelowIsUnder(h.role[f], s, level, key, x);
    }
    forall g: nat | g < |h.mem| && Under(h.role[g], s, l, c) ensures now[g] == h.role[g] {
      assert UntouchedAt(h, now, s, l, c, g);
    }
  }

  /** A user page is all there is under its own number. */
  lemma {:induction false} LeafEmptied(h: Phys, was: seq<Role>, now: seq<Role>, s: nat, v: nat, g: nat)
    requires Tree(h) && Space(h, s) && g < |h.mem| && h.role[g] == Node(s, 0, v)
    requires |was| == |h.mem| && now == was[g := Free]
    ensures Emptied(h, was, now, s, 0, v)
  {
    RoleBounds(h, g);
    forall f: nat | f < |h.mem| ensures EmptiedAt(h, was, now, s, 0, v, f) {
      if h.role[f] == Node(s, 0, v) {
        ReachIsRole(h, s, 0, v, f);
        ReachIsRole(h, s, 0, v, g);
      }
    }
  }

  /** Whatever hangs under (level, key) hangs under a table that exists. */
  lemma {:induction false} AncestorFrame(h: Phys, g: nat, s: nat, level: nat, key: nat) returns (a: nat)
    requires Tree(h) && g < |h.mem| && level <= 4 && Under(h.role[g], s, level, key)
    ensures a < |h.mem| && h.role[a] == Node(s, level, key)
    decreases level - h.role[g].level
  {
    if h.role[g].level == level {
      a := g;
    } else {
      assert Up(h, g);
      a := AncestorFrame(h, h.up[g], s, level, key);
    }
  }

  /** Nothing hangs below an entry that is not present. */
  lemma {:induction false} NothingBelow(h: Phys, s: nat, level: nat, key: nat, f: nat, x: nat, role: seq<Role>)
    requires Tree(h) && Space(h, s) && 1 <= level <= 4 && key < KeyBound(level)
    requires f < |h.mem| && h.role[f] == Node(s, level, key) && x < ENTRIES
    requires !Present(h.mem[f][x]) && |role| == |h.mem|
    ensures Emptied(h, role, role, s, level - 1, key * ENTRIES + x)
  {
    var c, l := key * ENTRIES + x, level - 1;
    forall g: nat | g < |h.mem| ensures EmptiedAt(h, role, role, s, l, c, g) {
      if Under(h.role[g], s, l, c) {
        var a := AncestorFrame(h, g, s, l, c);
        assert Up(h, a);
        ReachIsRole(h, s, level, key, f);
        ReachIsRole(h, s, level, key, h.up[a]);
        assert false;
      }
    }
  }

  /** The entries emptied and the table freed, nothing is left. */
  lemma {:induction false} EmptiedWhole(h: Phys, start: seq<Role>, was: seq<Role>, now: seq<Role>, s: nat,
                                        level: nat, key: nat, f: nat)
    requires Tree(h) && Space(h, s) && 1 <= level <= 4 && key < KeyBound(level)
    requires f < |h.mem| && h.role[f] == Node(s, level, key)
    requires PartEmptied(h, start, was, s, level, key, if level == 4 then ENTRIES / 2 else ENTRIES)
    requires now == was[f := Free]
    ensures Emptied(h, start, now, s, level, key)
  {
    var limit := if level == 4 then ENTRIES / 2 else ENTRIES;
    forall g: nat | g < |h.mem| ensures EmptiedAt(h, start, now, s, level, key, g) {
      assert PartEmptiedAt(h, start, was, s, level, key, limit, g);
      WholeTable(h, s, level, key, f, g);
    }
  }

  lemma {:induction false} WholeTable(h: Phys, s: nat, level: nat, key: nat, f: nat, g: nat)
    requires Tree(h) && Space(h, s) && 1 <= level <= 4 && key < KeyBound(level)
    requires f < |h.mem| && g < |h.mem| && h.role[f] == Node(s, level, key)
    ensures var limit := if level == 4 then ENTRIES / 2 else ENTRIES;
            Under(h.role[g], s, level, key) <==> g == f || Below(h.role[g], s, level, key, limit)
  {
    var r := h.role[g];
    if r.Node? && r.space == s && r.level < level {
      AncestorStep(r.key, level - r.level);
      if level == 4 && Under(r, s, level, key) {
        var a := AncestorFrame(h, g, s, 3, Ancestor(r.key, 3 - r.level));
        RoleBounds(h, a);
      }
    }
    if r == Node(s, level, key) {
      ReachIsRole(h, s, level, key, f);
      ReachIsRole(h, s, level, key, g);
    }
  }

  /** Everything in a space is under its PML4. */
  lemma {:induction false} RazedAll(h: Phys, k: Phys, s: nat)
    requires Tree(h) && Space(h, s) && Razing(h, k, s) && Emptied(h, h.role, k.role, s, 4, 0)
    ensures Razed(h, k, s)
  {
    forall f: nat | f < |h.mem| && h.role[f].Node? && h.role[f].space == s ensures k.role[f] == Free {
      RoleBounds(h, f);
      TopAncestor(h.role[f].key, 4 - h.role[f].level);
      assert EmptiedAt(h, h.role, k.role, s, 4, 0, f);
    }
  }

  lemma {:induction false} TopAncestor(key: nat, n: nat)
    requires n <= 4 && key < KeyBound(4 - n)
    ensures Ancestor(key, n) == 0
  {
    if n > 0 {
      TopAncestor(key / ENTRIES, n - 1);
    }
  }

  /** The other spaces stand. */
  lemma {:induction false} RazedKeeps(h: Phys, k: Phys, s: nat)
    requires Tree(h) && Space(h, s) && Razed(h, k, s)
    ensures Tree(k)
    ensures forall t: nat, v: nat | Space(h, t) && t != s && v < USERPAGES :: SamePte(h, k, t, v)
  {
    forall f: nat, x: nat | f < |k.mem| && x < ENTRIES ensures Down(k, f, x) {
      assert Down(h, f, x) && RazingFrame(h, k, s, f);
      if UserEntry(h.role[f], x) && Present(h.mem[f][x]) {
        assert RazingFrame(h, k, s, Frame(h.mem[f][x]));
      }
    }
    forall g: nat | g < |k.mem| ensures Up(k, g) {
      assert Up(h, g) && RazingFrame(h, k, s, g);
      if h.role[g].Node? && h.role[g].level < 4 {
        assert RazingFrame(h, k, s, h.up[g]);
      }
    }
    forall t: nat, v: nat | Space(h, t) && t != s && v < USERPAGES ensures SamePte(h, k, t, v) {
      RazedPte(h, k, s, t, v);
    }
  }

  lemma {:induction false} RazedPte(h: Phys, k: Phys, s: nat, t: nat, v: nat)
    requires Tree(h) && Tree(k) && Razing(h, k, s) && Space(h, t) && t != s && v < USERPAGES
    ensures SamePte(h, k, t, v)
  {
    assert RazingFrame(h, k, s, t);
    forall f: nat | f < |h.mem| && h.role[f] == Node(t, 1, v / ENTRIES)
      ensures k.role[f] == h.role[f] && k.mem[f] == h.mem[f]
    {
      assert RazingFrame(h, k, s, f);
    }
    forall f: nat | f < |h.mem| && k.role[f] == Node(t, 1, v / ENTRIES) ensures h.role[f] == k.role[f] {
      assert RazingFrame(h, k, s, f);
    }
    PteAgrees(h, k, t, v);
  }

  /** The PML4 setupkvm makes. */
  function RootPage(kpdpt: nat): Page {
    seq(ENTRIES, x => if x == ENTRIES / 2 then Entry(kpdpt, PTE_P + PTE_W) else 0)
  }

  /** From h to k, a free frame d became the PML4 of a space with nothing mapped, and that is all. */
  ghost predicate Founded(h: Phys, k: Phys, d: nat) {
    && Sized(h) && Sized(k) && |h.mem| == |k.mem| && d < |h.mem|
    && h.role[d] == Free && Space(k, d)
    && SameMaps(h, k) && Needed(h, k, 1, 1)
    && (forall v: nat | v < USERPAGES :: Unmapped(k, d, v))
    && (forall f: nat | f < |h.mem| :: KeepsFrame(h, k, d, f))
  }

  ghost predicate Unmapped(k: Phys, d: nat, v: nat) {
    Pte(k.mem, d, v) == 0
  }

  lemma {:induction false} FoundSpace(h: Phys, head: nat, free: seq<nat>, lo: nat, d: nat, kpdpt: nat)
    requires Tree(h) && d < |h.mem| && h.role[d] == Free && FreeOk(h.mem, h.role[d := Held], head, free, lo)
    ensures var k := Phys(h.mem[d := RootPage(kpdpt)], h.role[d := Node(d, 4, 0)], h.up);
            Tree(k) && FreeOk(k.mem, k.role, head, free, lo) && Founded(h, k, d)
  {
    var k := Phys(h.mem[d := RootPage(kpdpt)], h.role[d := Node(d, 4, 0)], h.up);
    forall f: nat, x: nat | f < |k.mem| && x < ENTRIES ensures Down(k, f, x) {
      assert Down(h, f, x);
    }
    forall g: nat | g < |k.mem| ensures Up(k, g) {
      assert Up(h, g);
    }
    forall t: nat, v: nat | Space(h, t) && v < USERPAGES ensures SamePte(h, k, t, v) {
      PteAgrees(h, k, t, v);
    }
    forall v: nat | v < USERPAGES ensures Unmapped(k, d, v) {
      var c := v / ENTRIES / ENTRIES / ENTRIES;
      assert k.mem[d][c % ENTRIES] == 0;
      assert Reach(k.mem, d, 3, c) == None;
      assert Reach(k.mem, d, 2, v / ENTRIES / ENTRIES) == None;
      assert Reach(k.mem, d, 1, v / ENTRIES) == None;
    }
    forall f: nat | f < |h.mem| ensures KeepsFrame(h, k, d, f) && NeededAt(h, k, 1, 1, f) {
    }
    UseKeepsFree(h.mem, h.role[d := Held], head, free, lo, d, RootPage(kpdpt), Node(d, 4, 0));
    assert h.role[d := Held][d := Node(d, 4, 0)] == k.role;
  }

  /** From h to k, a new space d holds a copy of the pages of s from 1 up to b: same flags, same
      contents, on frames that were free; nothing else is mapped in d. Every other space translates
      as before and every frame in use kept its use and contents. */
  ghost predicate Copied(h: Phys, k: Phys, s: nat, d: nat, b: nat) {
    && Sized(h) && Sized(k) && |h.mem| == |k.mem| && d < |h.mem|
    && h.role[d] == Free && Space(k, d)
    && SameMaps(h, k) && Needed(h, k, 1, b)
    && (forall v: nat | v < USERPAGES :: CopiedPte(h, k, s, d, b, v))
    && (forall f: nat | f < |h.mem| :: KeepsFrame(h, k, d, f))
  }

  ghost predicate CopiedPte(h: Phys, k: Phys, s: nat, d: nat, b: nat, v: nat)
    requires Sized(h) && Sized(k) && |h.mem| == |k.mem|
  {
    if 1 <= v < b then
      var e, p, g := Pte(h.mem, s, v), Frame(Pte(h.mem, s, v)), Frame(Pte(k.mem, d, v));
      && Present(e) && p < |h.mem| && g < |h.mem|
      && Pte(k.mem, d, v) == Entry(g, Flags(e))
      && h.role[g] == Free && k.role[g] == Node(d, 0, v)
      && k.mem[g] == h.mem[p] == k.mem[p]
    else
      Pte(k.mem, d, v) == 0
  }

  lemma {:induction false} CopiedNone(h: Phys, k: Phys, s: nat, d: nat)
    requires Founded(h, k, d)
    ensures Copied(h, k, s, d, 1)
  {
    forall v: nat | v < USERPAGES ensures CopiedPte(h, k, s, d, 1, v) {
      assert Unmapped(k, d, v);
    }
  }

  lemma {:induction false} CopiedLess(h: Phys, k: Phys, s: nat, d: nat, b: nat, c: nat)
    requires Copied(h, k, s, d, b) && (c == b || (b == 1 && c == 0))
    ensures Copied(h, k, s, d, c)
  {
    forall v: nat | v < USERPAGES ensures CopiedPte(h, k, s, d, c, v) {
      assert CopiedPte(h, k, s, d, b, v);
    }
    forall f: nat | f < |h.mem| ensures NeededAt(h, k, 1, c, f) {
      assert NeededAt(h, k, 1, b, f);
    }
  }

  lemma {:induction false} CopiedKeeps(h: Phys, k: Phys, s: nat, d: nat, b: nat)
    requires Copied(h, k, s, d, b) && Space(h, s)
    ensures Space(k, s) && s != d
  {
    assert KeepsFrame(h, k, d, s);
  }

  lemma {:induction false} PresentFrame(k: Phys, s: nat, v: nat, pt: nat)
    requires Tree(k) && Space(k, s) && v < USERPAGES && pt < |k.mem|
    requires k.role[pt] == Node(s, 1, v / ENTRIES) && Present(k.mem[pt][v % ENTRIES])
    ensures Frame(k.mem[pt][v % ENTRIES]) < |k.mem|
    ensures k.role[Frame(k.mem[pt][v % ENTRIES])] == Node(s, 0, v)
  {
    assert Down(k, pt, v % ENTRIES);
  }

  lemma {:induction false} CopiedMore(h: Phys, k: Phys, m: Phys, n: Phys, s: nat, d: nat, v: nat, g: nat)
    requires Tree(h) && Tree(k) && Space(h, s) && Copied(h, k, s, d, v) && 1 <= v < USERPAGES
    requires g < |k.mem| && k.role[g] == Free && Present(Pte(k.mem, s, v)) && Frame(Pte(k.mem, s, v)) < |k.mem|
    requires m == Touch(k, g, k.mem[Frame(Pte(k.mem, s, v))], Held) && SameMaps(k, m)
    requires Space(n, d) && Mapped(m, n, d, v, v + 1, g, Flags(Pte(k.mem, s, v)))
    ensures Copied(h, n, s, d, v + 1)
  {
    var w := v + 1;
    forall t: nat, u: nat | Space(h, t) && u < USERPAGES ensures SamePte(h, n, t, u) {
      assert KeepsFrame(h, k, d, t);
      assert SamePte(h, k, t, u) && SamePte(k, m, t, u) && MappedPte(m, n, d, v, w, g, Flags(Pte(k.mem, s, v)), t, u);
    }
    forall f: nat | f < |h.mem| ensures KeepsFrame(h, n, d, f) {
      assert KeepsFrame(h, k, d, f) && MappedFrame(m, n, d, v, w, g, f);
    }
    NeededCopy(h, k, m, n, d, v, g, Flags(Pte(k.mem, s, v)));
    forall u: nat | u < USERPAGES ensures CopiedPte(h, n, s, d, w, u) {
      CopiedMoreAt(h, k, m, n, s, d, v, g, u);
    }
  }

  lemma {:induction false} NeededCopy(h: Phys, k: Phys, m: Phys, n: Phys, d: nat, v: nat, g: nat, flags: nat)
    requires Needed(h, k, 1, v) && 1 <= v && g < |k.mem| && k.role[g] == Free && g < |m.mem|
    requires m == Touch(k, g, m.mem[g], Held) && Mapped(m, n, d, v, v + 1, g, flags)
    ensures Needed(h, n, 1, v + 1)
  {
    var w := v + 1;
    forall f: nat | f < |k.mem| ensures NoNewTable(k, n, f) && NeededAt(k, n, v, w, f) {
      assert MappedFrame(m, n, d, v, w, g, f) && NeededAt(m, n, v, w, f);
    }
    NeededMore(h, k, n, 1, v, v, w, w);
  }

  lemma {:induction false} CopiedMoreAt(h: Phys, k: Phys, m: Phys, n: Phys, s: nat, d: nat, v: nat, g: nat, u: nat)
    requires Tree(h) && Tree(k) && Space(h, s) && Copied(h, k, s, d, v) && 1 <= v < USERPAGES && u < USERPAGES
    requires g < |k.mem| && k.role[g] == Free && Present(Pte(k.mem, s, v)) && Frame(Pte(k.mem, s, v)) < |k.mem|
    requires m == Touch(k, g, k.mem[Frame(Pte(k.mem, s, v))], Held) && SameMaps(k, m)
    requires Space(n, d) && Mapped(m, n, d, v, v + 1, g, Flags(Pte(k.mem, s, v)))
    ensures CopiedPte(h, n, s, d, v + 1, u)
  {
    var flags, w := Flags(Pte(k.mem, s, v)), v + 1;
    assert CopiedPte(h, k, s, d, v, u) && SamePte(k, m, d, u) && MappedPte(m, n, d, v, w, g, flags, d, u);
    if u == v {
      CopiedNew(h, k, m, n, s, d, v, g);
    } else if 1 <= u < v {
      var p, q := Frame(Pte(h.mem, s, u)), Frame(Pte(k.mem, d, u));
      ParentPage(h, s, u);
      assert KeepsFrame(h, k, d, p);
      assert MappedFrame(m, n, d, v, w, g, p) && MappedFrame(m, n, d, v, w, g, q);
    }
  }

  lemma {:induction false} CopiedNew(h: Phys, k: Phys, m: Phys, n: Phys, s: nat, d: nat, v: nat, g: nat)
    requires Tree(h) && Tree(k) && Space(h, s) && Copied(h, k, s, d, v) && 1 <= v < USERPAGES
    requires g < |k.mem| && k.role[g] == Free && Present(Pte(k.mem, s, v)) && Frame(Pte(k.mem, s, v)) < |k.mem|
    requires m == Touch(k, g, k.mem[Frame(Pte(k.mem, s, v))], Held)
    requires Space(m, d) && Mapped(m, n, d, v, v + 1, g, Flags(Pte(k.mem, s, v)))
    ensures CopiedPte(h, n, s, d, v + 1, v)
  {
    var flags, w := Flags(Pte(k.mem, s, v)), v + 1;
    assert SamePte(h, k, s, v);
    assert MappedPte(m, n, d, v, w, g, flags, d, v);
    assert KeepsFrame(h, k, d, g);
    assert MappedFrame(m, n, d, v, w, g, g);
    ParentPage(h, s, v);
    var p := Frame(Pte(h.mem, s, v));
    assert KeepsFrame(h, k, d, p) && MappedFrame(m, n, d, v, w, g, p);
  }

  /** A present user page is a user page of its space. */
  lemma {:induction false} ParentPage(h: Phys, s: nat, v: nat)
    requires Tree(h) && Space(h, s) && v < USERPAGES && Present(Pte(h.mem, s, v))
    ensures Frame(Pte(h.mem, s, v)) < |h.mem| && h.role[Frame(Pte(h.mem, s, v))] == Node(s, 0, v)
  {
    ReachInRange(h, s, 0, v);
    var f := Frame(Pte(h.mem, s, v));
    assert Reach(h.mem, s, 0, v) == Some(f);
    ReachIsRole(h, s, 0, v, f);
  }

  /** e & ~PTE_U */
  function WithoutUser(e: nat): (r: nat)
    ensures !User(r) && r % PTE_U == e % PTE_U && r / (2 * PTE_U) == e / (2 * PTE_U)
  {
    if e / PTE_U % 2 == 1 then e - PTE_U else e
  }

  lemma {:induction false} PagesBelow(a: nat, sz: nat)
    ensures a * PGSIZE < sz <==> a < PagesIn(sz)
    ensures sz <= USERPAGES * PGSIZE ==> PagesIn(sz) <= USERPAGES
  {
  }

  /** The pages of the copy are on frames of their own: no two on the same, none on one the parent uses. */
  lemma {:induction false} CopyApart(h: Phys, k: Phys, s: nat, d: nat, b: nat, v: nat, u: nat)
    requires Tree(h) && Space(h, s) && Copied(h, k, s, d, b) && 1 <= v < b <= USERPAGES && 1 <= u < b
    ensures v != u ==> Frame(Pte(k.mem, d, v)) != Frame(Pte(k.mem, d, u))
    ensures Frame(Pte(k.mem, d, v)) != Frame(Pte(h.mem, s, u))
  {
    assert CopiedPte(h, k, s, d, b, v) && CopiedPte(h, k, s, d, b, u);
    ParentPage(h, s, u);
  }

  lemma {:induction false} OnePage(v: nat)
    ensures v * PGSIZE / PGSIZE == v && (v * PGSIZE + PGSIZE - 1) / PGSIZE == v && v * PGSIZE % PGSIZE == 0
  {
  }

  lemma {:induction false} PresentFlags(e: nat)
    requires Present(e)
    ensures WithPresent(Flags(e)) == Flags(e) && Flags(e) < PGSIZE
  {
  }

  lemma {:induction false} UserBit(f: nat, l: nat)
    ensures Entry(f, l) / PTE_U % 2 == l / PTE_U % 2
  {
    var b := l / PTE_U;
    assert Entry(f, l) / PTE_U == 1024 * f + b;
    assert 1024 * f + b == 2 * (512 * f + b / 2) + b % 2;
  }

  lemma {:induction false} WithoutUserParts(e: nat)
    ensures WithoutUser(e) == Entry(Frame(e), Flags(WithoutUser(e)))
    ensures Flags(WithoutUser(e)) % 2 == e % 2
  {
    var f, l := Frame(e), Flags(e);
    assert e == Entry(f, l);
    UserBit(f, l);
    EntryParts(f, l);
    EntryParts(f, WithoutUser(l));
    assert WithoutUser(e) == Entry(f, WithoutUser(l));
  }

  lemma {:induction false} ReflagEntry(h: Phys, head: nat, free: seq<nat>, lo: nat, s: nat, v: nat, pt: nat)
    requires Tree(h) && FreeOk(h.mem, h.role, head, free, lo) && Space(h, s) && v < USERPAGES
    requires pt < |h.mem| && h.role[pt] == Node(s, 1, v / ENTRIES)
    ensures var x := v % ENTRIES;
            var k := h.(mem := h.mem[pt := h.mem[pt][x := WithoutUser(h.mem[pt][x])]]);
            && Tree(k) && FreeOk(k.mem, k.role, head, free, lo)
            && Pte(k.mem, s, v) == WithoutUser(Pte(h.mem, s, v))
            && forall t: nat, u: nat | Space(h, t) && u < USERPAGES && (t != s || u != v) :: SamePte(h, k, t, u)
  {
    var x := v % ENTRIES;
    var e := h.mem[pt][x];
    var flags := Flags(WithoutUser(e));
    var k := Reflag(h, pt, x, flags);
    WithoutUserParts(e);
    ReflagKeeps(h, pt, x, flags);
    PteAt(h, s, pt, v);
    PteAt(k, s, pt, v);
    forall t: nat, u: nat | Space(h, t) && u < USERPAGES && (t != s || u != v) ensures SamePte(h, k, t, u) {
      ReflagPte(h, pt, x, flags, t, u);
    }
    UseKeepsFree(h.mem, h.role, head, free, lo, pt, k.mem[pt], h.role[pt]);
    assert h.role[pt := h.role[pt]] == h.role;
  }

  /** From h to k, the pages from a up to b left space s and their frames are free; no other
      translation changed, and no other frame changed its use or, outside the tables of s, its
      contents. */
  ghost predicate Shrunk(h: Phys, k: Phys, s: nat, a: nat, b: nat) {
    && Sized(h) && Sized(k) && |h.mem| == |k.mem| && a <= b
    && (forall t: nat, v: nat | Space(h, t) && v < USERPAGES :: ShrunkPte(h, k, s, a, b, t, v))
    && (forall f: nat | f < |h.mem| :: ShrunkFrame(h, k, s, a, b, f))
  }

  ghost predicate ShrunkPte(h: Phys, k: Phys, s: nat, a: nat, b: nat, t: nat, v: nat) {
    if t == s && a <= v < b && Present(Pte(h.mem, t, v)) then Pte(k.mem, t, v) == 0 else SamePte(h, k, t, v)
  }

  ghost predicate ShrunkFrame(h: Phys, k: Phys, s: nat, a: nat, b: nat, f: nat)
    requires Sized(h) && Sized(k) && |h.mem| == |k.mem| && f < |h.mem|
  {
    var r := h.role[f];
    if r.Node? && r.space == s && r.level == 0 && a <= r.key < b then
      k.role[f] == Free
    else
      k.role[f] == r && (!(IsTable(r) && r.space == s) && r != Free ==> k.mem[f] == h.mem[f])
  }

  lemma {:induction false} ShrunkNone(h: Phys, s: nat, a: nat)
    requires Sized(h)
    ensures Shrunk(h, h, s, a, a)
  {
    forall t: nat, v: nat | Space(h, t) && v < USERPAGES ensures ShrunkPte(h, h, s, a, a, t, v) {
    }
    forall f: nat | f < |h.mem| ensures ShrunkFrame(h, h, s, a, a, f) {
    }
  }

  /** A page number with nothing mapped has no frame to lose. */
  lemma {:induction false} ShrunkNothing(h: Phys, s: nat, v: nat)
    requires Tree(h) && Space(h, s) && v < USERPAGES && !Present(Pte(h.mem, s, v))
    ensures Shrunk(h, h, s, v, v + 1)
  {
    var w := v + 1;
    forall t: nat, u: nat | Space(h, t) && u < USERPAGES ensures ShrunkPte(h, h, s, v, w, t, u) {
    }
    forall f: nat | f < |h.mem| ensures ShrunkFrame(h, h, s, v, w, f) {
      if h.role[f] == Node(s, 0, v) {
        ReachIsRole(h, s, 0, v, f);
      }
    }
  }

  lemma {:induction false} ShrunkKeepsSpace(h: Phys, k: Phys, s: nat, a: nat, b: nat, t: nat)
    requires Shrunk(h, k, s, a, b) && Space(h, t)
    ensures Space(k, t)
  {
    assert ShrunkFrame(h, k, s, a, b, t);
  }

  lemma {:induction false} ShrunkMore(h: Phys, k: Phys, m: Phys, s: nat, a: nat, b: nat)
    requires Shrunk(h, k, s, a, b) && Shrunk(k, m, s, b, b + 1)
    ensures Shrunk(h, m, s, a, b + 1)
  {
    var c := b + 1;
    forall t: nat, v: nat | Space(h, t) && v < USERPAGES ensures ShrunkPte(h, m, s, a, c, t, v) {
      ShrunkKeepsSpace(h, k, s, a, b, t);
      assert ShrunkPte(h, k, s, a, b, t, v) && ShrunkPte(k, m, s, b, c, t, v);
    }
    forall f: nat | f < |h.mem| ensures ShrunkFrame(h, m, s, a, c, f) {
      assert ShrunkFrame(h, k, s, a, b, f) && ShrunkFrame(k, m, s, b, c, f);
    }
  }

  /** deallocuvm undoes allocuvm: every address of every space translates as before, and every frame
      that was in use has its old use and, if it is not a table of s, its old contents. */
  lemma {:induction false} ShrinkUndoesGrow(h: Phys, k: Phys, m: Phys, s: nat, a: nat, b: nat)
    requires Grown(h, k, s, a, b) && Shrunk(k, m, s, a, b) && Tree(h) && Tree(k) && Space(h, s) && b <= USERPAGES
    ensures forall t: nat, v: nat | Space(h, t) && v < USERPAGES :: SameTranslation(h, m, t, v)
    ensures forall f: nat | f < |h.mem| && h.role[f] != Free :: KeepsFrame(h, m, s, f)
    ensures forall f: nat | f < |h.mem| && h.role[f] == Free ::
              m.role[f] == Free || (IsTable(m.role[f]) && m.role[f].space == s)
  {
    forall t: nat, v: nat | Space(h, t) && v < USERPAGES ensures SameTranslation(h, m, t, v) {
      GrowsKeepsSpace(h, k, s, t);
      assert GrownPte(h, k, s, a, b, t, v) && ShrunkPte(k, m, s, a, b, t, v);
    }
    forall f: nat | f < |h.mem| && h.role[f] != Free ensures KeepsFrame(h, m, s, f) {
      assert KeepsFrame(h, k, s, f) && ShrunkFrame(k, m, s, a, b, f);
      GrewOnlyFree(h, k, s, a, b, f);
    }
    forall f: nat | f < |h.mem| && h.role[f] == Free
      ensures m.role[f] == Free || (IsTable(m.role[f]) && m.role[f].space == s)
    {
      assert KeepsFrame(h, k, s, f) && ShrunkFrame(k, m, s, a, b, f);
      GrewInRange(h, k, s, a, b, f);
    }
  }

  ghost predicate SameTranslation(h: Phys, k: Phys, s: nat, v: nat) {
    Translate(k.mem, s, v) == Translate(h.mem, s, v)
  }

  /** Frame f is one of the pages from a up to b of space s. */
  ghost predicate InRange(h: Phys, s: nat, a: nat, b: nat, f: nat)
    requires Sized(h) && f < |h.mem|
  {
    h.role[f].Node? && h.role[f].space == s && h.role[f].level == 0 && a <= h.role[f].key < b
  }

  /** The frames of the new pages were free before. */
  lemma {:induction false} GrewOnlyFree(h: Phys, k: Phys, s: nat, a: nat, b: nat, f: nat)
    requires Grown(h, k, s, a, b) && Tree(k) && Space(h, s) && f < |h.mem| && b <= USERPAGES
    ensures InRange(k, s, a, b, f) ==> h.role[f] == Free
  {
    GrowsKeepsSpace(h, k, s, s);
    if InRange(k, s, a, b, f) {
      var v := k.role[f].key;
      ReachIsRole(k, s, 0, v, f);
      assert GrownPte(h, k, s, a, b, s, v);
    }
  }

  /** A free frame that became a user page is one of the new pages. */
  lemma {:induction false} GrewInRange(h: Phys, k: Phys, s: nat, a: nat, b: nat, f: nat)
    requires Grown(h, k, s, a, b) && Tree(h) && Tree(k) && Space(h, s) && f < |h.mem| && h.role[f] == Free
    ensures k.role[f] == Free || IsTable(k.role[f]) || InRange(k, s, a, b, f)
  {
    assert KeepsFrame(h, k, s, f);
    if k.role[f].Node? {
      RoleBounds(k, f);
      if k.role[f].level == 0 {
        var v := k.role[f].key;
        GrowsKeepsSpace(h, k, s, s);
        ReachIsRole(k, s, 0, v, f);
        assert GrownPte(h, k, s, a, b, s, v);
        ReachIsRole(h, s, 0, v, f);
      }
    }
  }

  /** What freeing a page and clearing its entry does to the maps. */
  lemma {:induction false} RemoveShrinks(h: Phys, s: nat, v: nat, pt: nat, junk: Page)
    requires Tree(h) && Space(h, s) && v < USERPAGES
    requires pt < |h.mem| && h.role[pt] == Node(s, 1, v / ENTRIES) && Present(h.mem[pt][v % ENTRIES])
    ensures var x := v % ENTRIES;
            var g := Frame(h.mem[pt][x]);
            && g < |h.mem| && h.role[g] == Node(s, 0, v) && g != pt
            && var k := Touch(Unlink(h, pt, x, Held), g, junk, Free);
               Tree(k) && Space(k, s) && Shrunk(h, k, s, v, v + 1)
  {
    var x, w := v % ENTRIES, v + 1;
    var g := Frame(h.mem[pt][x]);
    assert Down(h, pt, x);
    UnlinkKeeps(h, pt, x, Held);
    var m := Unlink(h, pt, x, Held);
    TouchKeeps(m, g, junk, Free);
    var k := Touch(m, g, junk, Free);
    forall t: nat, u: nat | Space(h, t) && u < USERPAGES ensures ShrunkPte(h, k, s, v, w, t, u) {
      RemovePte(h, s, v, pt, junk, t, u);
    }
    forall f: nat | f < |h.mem| ensures ShrunkFrame(h, k, s, v, w, f) {
      if h.role[f] == Node(s, 0, v) {
        ReachIsRole(h, s, 0, v, f);
        ReachIsRole(h, s, 0, v, g);
      }
    }
  }

  lemma {:induction false} RemovePte(h: Phys, s: nat, v: nat, pt: nat, junk: Page, t: nat, u: nat)
    requires Tree(h) && Space(h, s) && v < USERPAGES && Space(h, t) && u < USERPAGES
    requires pt < |h.mem| && h.role[pt] == Node(s, 1, v / ENTRIES) && Present(h.mem[pt][v % ENTRIES])
    requires Frame(h.mem[pt][v % ENTRIES]) < |h.mem|
    ensures var x := v % ENTRIES;
            ShrunkPte(h, Touch(Unlink(h, pt, x, Held), Frame(h.mem[pt][x]), junk, Free), s, v, v + 1, t, u)
  {
    var x := v % ENTRIES;
    PteAt(h, s, pt, v);
    UnlinkKeeps(h, pt, x, Held);
    UnlinkPte(h, pt, x, Held, t, u);
    var m := Unlink(h, pt, x, Held);
    assert Down(h, pt, x);
    TouchPte(m, Frame(h.mem[pt][x]), junk, Free, t, u);
  }

  /** Freeing a page and clearing its entry. */
  lemma {:induction false} RemovePage(h: Phys, head: nat, free: seq<nat>, lo: nat, s: nat, v: nat, pt: nat)
    requires Tree(h) && FreeOk(h.mem, h.role, head, free, lo) && Space(h, s) && v < USERPAGES
    requires pt < |h.mem| && h.role[pt] == Node(s, 1, v / ENTRIES) && Present(h.mem[pt][v % ENTRIES])
    ensures var x := v % ENTRIES;
            var g := Frame(h.mem[pt][x]);
            && lo <= g < |h.mem| && h.role[g] == Node(s, 0, v) && g != pt
            && var k := Touch(Unlink(h, pt, x, Held), g, JunkPage(head), Free);
               && Tree(k) && Space(k, s) && Shrunk(h, k, s, v, v + 1)
               && FreeOk(k.mem, k.role, g, [g] + free, lo)
  {
    var x := v % ENTRIES;
    var g := Frame(h.mem[pt][x]);
    RemoveShrinks(h, s, v, pt, JunkPage(head));
    assert Listed(h.role, free, lo, g);
    var m := Unlink(h, pt, x, Held);
    var k := Touch(m, g, JunkPage(head), Free);
    UseKeepsFree(h.mem, h.role, head, free, lo, pt, m.mem[pt], h.role[pt]);
    assert h.role[pt := h.role[pt]] == h.role;
    PushKeeps(m.mem, h.role, head, free, lo, g);
    assert k.role == h.role[g := Free];
  }

  lemma {:induction false} NoSpaces(h: Phys)
    requires Sized(h) && forall f: nat | f < |h.mem| :: !h.role[f].Node?
    ensures Tree(h)
  {
    forall f: nat, x: nat | f < |h.mem| && x < ENTRIES ensures Down(h, f, x) {
    }
    forall g: nat | g < |h.mem| ensures Up(h, g) {
    }
  }

  const KERNBASE: nat := 0xFFFF_8000_0000_0000

  /** PGROUNDUP(sz) / PGSIZE */
  function PagesIn(sz: nat): (n: nat)
    ensures sz <= n * PGSIZE < sz + PGSIZE
  {
    (sz + PGSIZE - 1) / PGSIZE
  }

  /** From h to k, space s gained the pages from a up to b, on frames that were free and are all
      zero; no other translation changed, and frames in use kept their contents and use. */
  ghost predicate Grown(h: Phys, k: Phys, s: nat, a: nat, b: nat) {
    && Grows(h, k, s) && a <= b && Needed(h, k, a, b)
    && (forall t: nat, v: nat | Space(h, t) && v < USERPAGES :: GrownPte(h, k, s, a, b, t, v))
  }

  ghost predicate GrownPte(h: Phys, k: Phys, s: nat, a: nat, b: nat, t: nat, v: nat)
    requires Sized(h) && Sized(k) && |h.mem| == |k.mem|
  {
    if t == s && a <= v < b then
      var g := Frame(Pte(k.mem, t, v));
      && !Present(Pte(h.mem, t, v))
      && Pte(k.mem, t, v) == Entry(g, RWU)
      && g < |h.mem| && h.role[g] == Free && k.role[g] == Node(s, 0, v) && Zeroed(k.mem[g])
    else
      SamePte(h, k, t, v)
  }

  lemma {:induction false} GrownNone(h: Phys, s: nat, a: nat)
    requires Sized(h)
    ensures Grown(h, h, s, a, a)
  {
    StaysPut(h, s);
    NeededNone(h, a, a);
    forall t: nat, v: nat | Space(h, t) && v < USERPAGES ensures GrownPte(h, h, s, a, a, t, v) {
    }
  }

  lemma {:induction false} GrownMore(h: Phys, k: Phys, m: Phys, s: nat, a: nat, b: nat)
    requires Grown(h, k, s, a, b) && Grown(k, m, s, b, b + 1)
    ensures Grown(h, m, s, a, b + 1)
  {
    GrowsTransitive(h, k, m, s);
    var c := b + 1;
    forall f: nat | f < |k.mem| ensures NoNewTable(k, m, f) {
      assert KeepsFrame(k, m, s, f);
    }
    NeededMore(h, k, m, a, b, b, c, c);
    forall t: nat, v: nat | Space(h, t) && v < USERPAGES ensures GrownPte(h, m, s, a, c, t, v) {
      GrowsKeepsSpace(h, k, s, t);
      assert GrownPte(h, k, s, a, b, t, v) && GrownPte(k, m, s, b, c, t, v);
      if t == s && a <= v < b {
        var g := Frame(Pte(k.mem, t, v));
        assert KeepsFrame(k, m, s, g);
      } else if t == s && v == b {
        var g := Frame(Pte(m.mem, t, v));
        assert KeepsFrame(h, k, s, g);
      }
    }
  }

  /** kalloc and a write of the whole page. */
  lemma {:induction false} FreshPage(h: Phys, head: nat, free: seq<nat>, lo: nat, s: nat, g: nat, page: Page)
    requires Tree(h) && g < |h.mem| && h.role[g] == Free && FreeOk(h.mem, h.role[g := Held], head, free, lo)
    ensures var k := Touch(h, g, page, Held);
            && Tree(k) && SameMaps(h, k) && FreeOk(k.mem, k.role, head, free, lo)
            && (Space(h, s) ==> Space(k, s))
  {
    var k := Touch(h, g, page, Held);
    TouchKeeps(h, g, page, Held);
    forall t: nat, v: nat | Space(h, t) && v < USERPAGES ensures SamePte(h, k, t, v) {
      TouchPte(h, g, page, Held, t, v);
    }
    UseKeepsFree(h.mem, h.role[g := Held], head, free, lo, g, page, Held);
    assert h.role[g := Held][g := Held] == h.role[g := Held];
  }

  lemma {:induction false} GrownOne(h: Phys, k: Phys, m: Phys, s: nat, v: nat, g: nat)
    requires Sized(h) && Space(h, s) && g < |h.mem| && h.role[g] == Free && v < USERPAGES
    requires k == Touch(h, g, ZeroPage, Held) && SameMaps(h, k)
    requires Mapped(k, m, s, v, v + 1, g, RWU)
    ensures Grown(h, m, s, v, v + 1)
  {
    var w := v + 1;
    forall f: nat | f < |h.mem| ensures KeepsFrame(h, m, s, f) && NeededAt(h, m, v, w, f) {
      assert MappedFrame(k, m, s, v, w, g, f) && NeededAt(k, m, v, w, f);
    }
    forall t: nat, u: nat | Space(h, t) && u < USERPAGES ensures GrownPte(h, m, s, v, w, t, u) {
      assert SamePte(h, k, t, u) && MappedPte(k, m, s, v, w, g, RWU, t, u);
      assert MappedFrame(k, m, s, v, w, g, g);
    }
  }

  /** Frame g and the n frames after it have been allocated and not used yet. */
  ghost predicate HeldRun(role: seq<Role>, g: nat, n: int) {
    forall f: nat | g <= f <= g + n :: HeldAt(role, f)
  }

  predicate HeldAt(role: seq<Role>, f: nat) {
    f < |role| && role[f] == Held
  }

  /** From h to k, the pages from a up to b of space s were mapped to the frames from g on, with the
      given flags; no other translation changed, and frames in use kept their contents and use. */
  ghost predicate Mapped(h: Phys, k: Phys, s: nat, a: nat, b: nat, g: nat, flags: nat) {
    && Sized(h) && Sized(k) && |h.mem| == |k.mem| && a <= b
    && (forall t: nat, v: nat | Space(h, t) && v < USERPAGES :: MappedPte(h, k, s, a, b, g, flags, t, v))
    && (forall f: nat | f < |h.mem| :: MappedFrame(h, k, s, a, b, g, f))
    && Needed(h, k, a, b)
  }

  ghost predicate MappedPte(h: Phys, k: Phys, s: nat, a: nat, b: nat, g: nat, flags: nat, t: nat, v: nat) {
    if t == s && a <= v < b then
      !Present(Pte(h.mem, t, v)) && Pte(k.mem, t, v) == Entry(g + (v - a), flags)
    else
      SamePte(h, k, t, v)
  }

  ghost predicate MappedFrame(h: Phys, k: Phys, s: nat, a: nat, b: nat, g: nat, f: nat)
    requires Sized(h) && Sized(k) && |h.mem| == |k.mem| && f < |h.mem| && a <= b
  {
    if g <= f < g + (b - a) then
      h.role[f] == Held && k.role[f] == Node(s, 0, a + (f - g)) && k.mem[f] == h.mem[f]
    else
      KeepsFrame(h, k, s, f)
  }

  lemma {:induction false} MappedNone(h: Phys, s: nat, a: nat, g: nat, flags: nat)
    requires Sized(h)
    ensures Mapped(h, h, s, a, a, g, flags)
  {
    forall t: nat, v: nat | Space(h, t) && v < USERPAGES ensures MappedPte(h, h, s, a, a, g, flags, t, v) {
    }
    forall f: nat | f < |h.mem| ensures MappedFrame(h, h, s, a, a, g, f) {
    }
    NeededNone(h, a, a);
  }

  lemma {:induction false} HeldStill(h: Phys, k: Phys, s: nat, a: nat, b: nat, g: nat, flags: nat, f: nat)
    requires Mapped(h, k, s, a, b, g, flags) && f < |h.mem| && h.role[f] == Held && f == g + (b - a)
    ensures k.role[f] == Held
  {
    assert MappedFrame(h, k, s, a, b, g, f);
  }

  lemma {:induction false} MappedKeepsSpace(h: Phys, k: Phys, s: nat, a: nat, b: nat, g: nat, flags: nat, t: nat)
    requires Mapped(h, k, s, a, b, g, flags) && Space(h, t)
    ensures Space(k, t)
  {
    assert MappedFrame(h, k, s, a, b, g, t);
  }

  lemma {:induction false} MappedMore(h: Phys, k: Phys, m: Phys, s: nat, a: nat, b: nat, g: nat, flags: nat)
    requires Mapped(h, k, s, a, b, g, flags) && Mapped(k, m, s, b, b + 1, g + (b - a), flags)
    requires Space(h, s)
    ensures Mapped(h, m, s, a, b + 1, g, flags)
  {
    var c, g' := b + 1, g + (b - a);
    forall t: nat, v: nat | Space(h, t) && v < USERPAGES ensures MappedPte(h, m, s, a, c, g, flags, t, v) {
      MappedKeepsSpace(h, k, s, a, b, g, flags, t);
      assert MappedPte(h, k, s, a, b, g, flags, t, v) && MappedPte(k, m, s, b, c, g', flags, t, v);
    }
    forall f: nat | f < |h.mem| ensures MappedFrame(h, m, s, a, c, g, f) {
      assert MappedFrame(h, k, s, a, b, g, f) && MappedFrame(k, m, s, b, c, g', f);
    }
    NeededMapped(k, m, s, b, c, g', flags);
    NeededMore(h, k, m, a, b, b, c, c);
  }

  lemma {:induction false} NeededMapped(k: Phys, m: Phys, s: nat, a: nat, b: nat, g: nat, flags: nat)
    requires Mapped(k, m, s, a, b, g, flags)
    ensures forall f: nat | f < |k.mem| :: NoNewTable(k, m, f)
  {
    forall f: nat | f < |k.mem| ensures NoNewTable(k, m, f) {
      assert MappedFrame(k, m, s, a, b, g, f);
    }
  }

  /** Writing the entry of the page table that walkpgdir found. */
  lemma {:induction false} AddPage(h: Phys, k: Phys, head: nat, free: seq<nat>, lo: nat, s: nat, v: nat,
                                   pt: nat, g: nat, flags: nat)
    requires Tree(k) && FreeOk(k.mem, k.role, head, free, lo) && Grows(h, k, s) && SameMaps(h, k)
    requires Needed(h, k, v, v + 1)
    requires Space(h, s) && v < USERPAGES && g < |h.mem| && h.role[g] == Held
    requires pt < |k.mem| && k.role[pt] == Node(s, 1, v / ENTRIES) && !Present(k.mem[pt][v % ENTRIES])
    requires flags < PGSIZE && flags % 2 == 1
    ensures var m := Link(k, pt, v % ENTRIES, g, flags);
            && Tree(m) && FreeOk(m.mem, m.role, head, free, lo) && Space(m, s)
            && Mapped(h, m, s, v, v + 1, g, flags)
  {
    var x, w := v % ENTRIES, v + 1;
    var m := Link(k, pt, x, g, flags);
    assert KeepsFrame(h, k, s, g);
    GrowsKeepsSpace(h, k, s, s);
    LinkKeeps(k, pt, x, g, flags);
    PteAt(k, s, pt, v);
    forall t: nat, u: nat | Space(h, t) && u < USERPAGES ensures MappedPte(h, m, s, v, w, g, flags, t, u) {
      GrowsKeepsSpace(h, k, s, t);
      LinkPte(k, pt, x, g, flags, t, u);
      assert SamePte(h, k, t, u);
    }
    forall f: nat | f < |h.mem| ensures MappedFrame(h, m, s, v, w, g, f) && NeededAt(h, m, v, w, f) {
      assert KeepsFrame(h, k, s, f) && NeededAt(h, k, v, w, f);
    }
    LinkKeepsFree(k, head, free, lo, pt, x, g, flags);
  }

  lemma {:induction false} LinkKeepsFree(k: Phys, head: nat, free: seq<nat>, lo: nat, f: nat, x: nat, g: nat,
                                         flags: nat)
    requires Sized(k) && FreeOk(k.mem, k.role, head, free, lo)
    requires f < |k.mem| && g < |k.mem| && x < ENTRIES && IsTable(k.role[f]) && k.role[g] == Held
    ensures FreeOk(Link(k, f, x, g, flags).mem, Link(k, f, x, g, flags).role, head, free, lo)
  {
    var m := Link(k, f, x, g, flags);
    UseKeepsFree(k.mem, k.role, head, free, lo, f, m.mem[f], k.role[f]);
    assert k.role[f := k.role[f]] == k.role;
    UseKeepsFree(m.mem, k.role, head, free, lo, g, m.mem[g], m.role[g]);
    assert m.mem[g := m.mem[g]] == m.mem;
  }

  lemma {:induction false} Compose(h: Phys, k: Phys, m: Phys, s: nat)
    requires Grows(h, k, s) && Grows(k, m, s) && SameMaps(h, k) && SameMaps(k, m) && Space(h, s)
    ensures Grows(h, m, s) && SameMaps(h, m) && Space(m, s)
  {
    GrowsTransitive(h, k, m, s);
    SameMapsTransitive(h, k, m, s);
    GrowsKeepsSpace(h, m, s, s);
  }

  lemma {:induction false} ReachChild(h: Phys, s: nat, level: nat, key: nat, f: nat)
    requires Tree(h) && Space(h, s) && level <= 4 && key < KeyBound(level) && f < |h.mem|
    requires h.role[f] == Node(s, level, key)
    ensures Reach(h.mem, s, level, key) == Some(f)
  {
    ReachIsRole(h, s, level, key, f);
  }

  lemma {:induction false} StaysPut(h: Phys, s: nat)
    requires Sized(h)
    ensures Grows(h, h, s) && SameMaps(h, h)
  {
    forall f: nat | f < |h.mem| ensures KeepsFrame(h, h, s, f) {
    }
    forall t: nat, v: nat ensures SamePte(h, h, t, v) {
    }
  }

  /** A free page, cleared and hung into a table of tables, leaves all the maps as they were. */
  lemma {:induction false} AddTable(h: Phys, head: nat, free: seq<nat>, lo: nat, f: nat, x: nat, g: nat)
    requires Tree(h) && f < |h.mem| && g < |h.mem| && UserEntry(h.role[f], x) && h.role[f].level > 1
    requires !Present(h.mem[f][x]) && h.role[g] == Free
    requires FreeOk(h.mem, h.role[g := Held], head, free, lo)
    ensures var k := Link(Touch(h, g, ZeroPage, Held), f, x, g, RWU);
            && Tree(k) && Grows(h, k, h.role[f].space) && SameMaps(h, k)
            && FreeOk(k.mem, k.role, head, free, lo)
  {
    var m := Touch(h, g, ZeroPage, Held);
    var k := Link(m, f, x, g, RWU);
    TouchKeeps(h, g, ZeroPage, Held);
    LinkKeeps(m, f, x, g, RWU);
    forall a: nat | a < |h.mem| ensures KeepsFrame(h, k, h.role[f].space, a) {
    }
    forall t: nat, v: nat | Space(h, t) && v < USERPAGES ensures SamePte(h, k, t, v) {
      TouchPte(h, g, ZeroPage, Held, t, v);
      LinkPte(m, f, x, g, RWU, t, v);
    }
    assert Listed(h.role[g := Held], free, lo, g);
    UseKeepsFree(h.mem, h.role[g := Held], head, free, lo, g, ZeroPage, Held);
    assert m.role == h.role[g := Held] == m.role[g := Held];
    LinkKeepsFree(m, head, free, lo, f, x, g, RWU);
  }

  // ----- what user code may do with the pages -----

  /** Every page allocuvm adds can be read and written by user code. */
  lemma {:induction false} GrownRights(h: Phys, k: Phys, s: nat, a: nat, b: nat, v: nat)
    requires Grown(h, k, s, a, b) && Tree(k) && Space(h, s) && a <= v < b && v < USERPAGES
    ensures Present(Pte(k.mem, s, v)) && Rights(k.mem, s, 0, v) == (true, true)
  {
    GrowsKeepsSpace(h, k, s, s);
    assert GrownPte(h, k, s, a, b, s, v);
    EntryParts(Frame(Pte(k.mem, s, v)), RWU);
    RightsOfPage(k, s, v);
  }

  /** copyuvm gives the child the rights of the parent, page by page. */
  lemma {:induction false} CopiedRights(h: Phys, k: Phys, s: nat, d: nat, b: nat, v: nat)
    requires Copied(h, k, s, d, b) && Tree(h) && Tree(k) && Space(h, s) && 1 <= v < b && v < USERPAGES
    ensures Present(Pte(k.mem, d, v)) && Rights(k.mem, d, 0, v) == Rights(h.mem, s, 0, v)
  {
    assert CopiedPte(h, k, s, d, b, v);
    var e, g := Pte(h.mem, s, v), Frame(Pte(k.mem, d, v));
    PresentFlags(e);
    EntryParts(g, Flags(e));
    EntryParts(Frame(e), Flags(e));
    assert e == Entry(Frame(e), Flags(e));
    RightsOfPage(h, s, v);
    RightsOfPage(k, d, v);
  }

  /** After clearpteu user code cannot touch the page, and the kernel's rights are as before. */
  lemma {:induction false} ClearedRights(h: Phys, k: Phys, s: nat, v: nat)
    requires Tree(h) && Tree(k) && Space(h, s) && Space(k, s) && v < USERPAGES && Present(Pte(h.mem, s, v))
    requires Pte(k.mem, s, v) == WithoutUser(Pte(h.mem, s, v))
    ensures Translate(k.mem, s, v).Some? && Translate(k.mem, s, v).value.0 == Translate(h.mem, s, v).value.0
    ensures Rights(k.mem, s, 0, v) == (Rights(h.mem, s, 0, v).0, false)
  {
    var e := Pte(h.mem, s, v);
    WithoutUserParts(e);
    EntryParts(Frame(e), Flags(WithoutUser(e)));
    SameWrite(e);
    RightsOfPage(h, s, v);
    RightsOfPage(k, s, v);
  }

  lemma {:induction false} SameWrite(e: nat)
    ensures Writeable(WithoutUser(e)) == Writeable(e)
  {
    if e / PTE_U % 2 == 1 {
      Halve(2, e - 4);
      Even(1, (e - 4) / 2);
    }
  }

  // ----- conservation -----

  ghost function FreeFrames(role: seq<Role>): set<nat> {
    set f: nat | f < |role| && role[f] == Free
  }

  ghost function UsedFrames(role: seq<Role>, lo: nat): set<nat> {
    set f: nat | lo <= f < |role| && role[f] != Free
  }

  ghost function SpaceFrames(h: Phys, s: nat): set<nat>
    requires Sized(h)
  {
    set f: nat | f < |h.mem| && h.role[f].Node? && h.role[f].space == s
  }

  lemma {:induction false} CountBelow(n: nat) returns (all: set<nat>)
    ensures (forall f: nat :: f in all <==> f < n) && |all| == n
  {
    if n == 0 {
      all := {};
    } else {
      var less := CountBelow(n - 1);
      all := less + {n - 1};
    }
  }

  lemma {:induction false} ListCounts(free: seq<nat>) returns (all: set<nat>)
    requires NoRepeat(free)
    ensures (forall f: nat :: f in all <==> f in free) && |all| == |free|
  {
    if free == [] {
      all := {};
    } else {
      var rest := ListCounts(free[1..]);
      all := {free[0]} + rest;
    }
  }

  /** The length of the free list is the number of free frames. */
  lemma {:induction false} FreeListCounts(mem: Mem, role: seq<Role>, head: nat, free: seq<nat>, lo: nat)
    requires FreeOk(mem, role, head, free, lo)
    ensures |free| == |FreeFrames(role)|
  {
    var all := ListCounts(free);
    forall f: nat ensures f in all <==> f in FreeFrames(role) {
      if f < |role| {
        assert Listed(role, free, lo, f);
      }
    }
    assert all == FreeFrames(role);
  }

  /** At all times the pages on the free list and the pages in use are all the pages there are. */
  lemma {:induction false} PagesConserved(mem: Mem, role: seq<Role>, head: nat, free: seq<nat>, lo: nat)
    requires FreeOk(mem, role, head, free, lo)
    ensures |free| + |UsedFrames(role, lo)| == |mem| - lo
  {
    FreeListCounts(mem, role, head, free, lo);
    var all := CountBelow(|role|);
    var below := CountBelow(lo);
    forall f: nat | f < |role| ensures role[f] == Free ==> lo <= f {
      assert Listed(role, free, lo, f);
    }
    assert all == below + (FreeFrames(role) + UsedFrames(role, lo));
    assert below !! (FreeFrames(role) + UsedFrames(role, lo)) && FreeFrames(role) !! UsedFrames(role, lo);
  }

  /** freevm lengthens the free list by exactly the number of pages of the space. */
  lemma {:induction false} FreevmCounts(h: Phys, k: Phys, s: nat, head: nat, free: seq<nat>, head': nat,
                                        free': seq<nat>, lo: nat)
    requires Razed(h, k, s)
    requires FreeOk(h.mem, h.role, head, free, lo) && FreeOk(k.mem, k.role, head', free', lo)
    ensures |free'| == |free| + |SpaceFrames(h, s)|
  {
    FreeListCounts(h.mem, h.role, head, free, lo);
    FreeListCounts(k.mem, k.role, head', free', lo);
    forall f: nat | f < |h.mem|
      ensures k.role[f] == Free <==> h.role[f] == Free || (h.role[f].Node? && h.role[f].space == s)
    {
      assert RazingFrame(h, k, s, f);
    }
    assert FreeFrames(k.role) == FreeFrames(h.role) + SpaceFrames(h, s);
    assert FreeFrames(h.role) !! SpaceFrames(h, s);
  }

  /** Make a space, grow it in any way, and free it: every frame is back to the use it had, and every
      frame in use has kept its contents. */
  lemma {:induction false} LifeOfASpace(h: Phys, k: Phys, m: Phys, n: Phys, d: nat, kpml4: nat, kpdpt: nat)
    requires Founded(h, k, d) && Grows(k, m, d) && Razed(m, n, d) && Tree(h)
    ensures n.role == h.role
    ensures forall f: nat | f < |h.mem| && h.role[f] != Free :: n.mem[f] == h.mem[f]
    ensures KernelOk(h, kpml4, kpdpt) ==> KernelOk(n, kpml4, kpdpt)
  {
    forall f: nat | f < |h.mem| ensures n.role[f] == h.role[f] && (h.role[f] != Free ==> n.mem[f] == h.mem[f]) {
      assert KeepsFrame(h, k, d, f) && KeepsFrame(k, m, d, f) && RazingFrame(m, n, d, f);
      NotYetFounded(h, d, f);
    }
    SameKernel(h, n, kpml4, kpdpt);
  }

  /** The same for the address space of a child that fork made and wait frees. */
  lemma {:induction false} LifeOfACopy(h: Phys, k: Phys, n: Phys, s: nat, d: nat, b: nat, kpml4: nat, kpdpt: nat)
    requires Copied(h, k, s, d, b) && Razed(k, n, d) && Tree(h)
    ensures n.role == h.role
    ensures forall f: nat | f < |h.mem| && h.role[f] != Free :: n.mem[f] == h.mem[f]
    ensures KernelOk(h, kpml4, kpdpt) ==> KernelOk(n, kpml4, kpdpt)
  {
    forall f: nat | f < |h.mem| ensures n.role[f] == h.role[f] && (h.role[f] != Free ==> n.mem[f] == h.mem[f]) {
      assert KeepsFrame(h, k, d, f) && RazingFrame(k, n, d, f);
      NotYetFounded(h, d, f);
    }
    SameKernel(h, n, kpml4, kpdpt);
  }

  lemma {:induction false} SameKernel(h: Phys, n: Phys, kpml4: nat, kpdpt: nat)
    requires Sized(h) && Sized(n) && |n.mem| == |h.mem| && n.role == h.role
    requires forall f: nat | f < |h.mem| && h.role[f] != Free :: n.mem[f] == h.mem[f]
    ensures KernelOk(h, kpml4, kpdpt) ==> KernelOk(n, kpml4, kpdpt)
  {
    if KernelOk(h, kpml4, kpdpt) {
      forall s: nat ensures HasKernel(n, s, kpdpt) {
        assert HasKernel(h, s, kpdpt);
      }
    }
  }

  /** A free frame is the PML4 of nothing. */
  lemma {:induction false} NotYetFounded(h: Phys, d: nat, f: nat)
    requires Tree(h) && d < |h.mem| && h.role[d] == Free && f < |h.mem|
    ensures !(h.role[f].Node? && h.role[f].space == d)
  {
    if h.role[f].Node? {
      RoleBounds(h, f);
    }
  }
}
