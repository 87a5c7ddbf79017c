/** The page allocator of kalloc.c: free pages linked through their own first words. */
module Kalloc {
  import opened PageTable

  /** Eight bytes of the junk kfree fills a page with. */
  const JUNK: nat := 0x0101_0101_0101_0101

  const ZeroPage: Page := seq(ENTRIES, _ => 0)

  function JunkPage(next: nat): Page {
    seq(ENTRIES, x => if x == 0 then next * PGSIZE else JUNK)
  }

  /** Following first words from head visits exactly the frames of free, in order. */
  ghost predicate Chain(mem: Mem, head: nat, free: seq<nat>)
    decreases |free|
  {
    if free == [] then
      head == 0
    else
      && head == free[0] && 0 < head < |mem|
      && mem[head][0] % PGSIZE == 0
      && Chain(mem, mem[head][0] / PGSIZE, free[1..])
  }

  predicate NoRepeat(free: seq<nat>) {
    free == [] || (free[0] !in free[1..] && NoRepeat(free[1..]))
  }

  /** The free list holds exactly the frames whose role is Free, each once; frames below lo belong to
      the kernel image and are never handed out. */
  ghost predicate FreeOk(mem: Mem, role: seq<Role>, head: nat, free: seq<nat>, lo: nat) {
    && |mem| == |role| && 0 < lo <= |mem|
    && Chain(mem, head, free)
    && NoRepeat(free)
    && (forall f: nat | f < |role| :: Listed(role, free, lo, f))
    && (forall f: nat | f in free :: f < |role|)
  }

  ghost predicate Listed(role: seq<Role>, free: seq<nat>, lo: nat, f: nat)
    requires f < |role|
  {
    && (role[f] == Free <==> f in free)
    && (role[f] == Kernel <==> f < lo)
  }

  lemma {:induction false} ChainElsewhere(mem: Mem, head: nat, free: seq<nat>, g: nat, page: Page)
    requires Chain(mem, head, free) && g < |mem| && g !in free
    ensures Chain(mem[g := page], head, free)
    decreases |free|
  {
    if free != [] {
      ChainElsewhere(mem, mem[head][0] / PGSIZE, free[1..], g, page);
    }
  }

  /** A write to a page in use, or a change of its use, leaves the free list alone. */
  lemma {:induction false} UseKeepsFree(mem: Mem, role: seq<Role>, head: nat, free: seq<nat>, lo: nat, g: nat,
                                        page: Page, r: Role)
    requires FreeOk(mem, role, head, free, lo) && g < |mem| && role[g] != Free && role[g] != Kernel
    requires r != Free && r != Kernel
    ensures FreeOk(mem[g := page], role[g := r], head, free, lo)
  {
    assert Listed(role, free, lo, g);
    ChainElsewhere(mem, head, free, g, page);
    var role' := role[g := r];
    forall f: nat | f < |role'| ensures Listed(role', free, lo, f) {
      assert Listed(role, free, lo, f);
    }
  }

  lemma {:induction false} PopKeeps(mem: Mem, role: seq<Role>, head: nat, free: seq<nat>, lo: nat)
    requires FreeOk(mem, role, head, free, lo) && head != 0
    ensures free != [] && head == free[0] && lo <= head < |mem| && role[head] == Free
    ensures FreeOk(mem, role[head := Held], mem[head][0] / PGSIZE, free[1..], lo)
  {
    assert Listed(role, free, lo, head);
    var role', rest := role[head := Held], free[1..];
    assert free == [head] + rest;
    assert forall f | f in rest :: f in free;
    forall f: nat | f < |role'| ensures Listed(role', rest, lo, f) {
      assert Listed(role, free, lo, f);
    }
  }

  lemma {:induction false} PushKeeps(mem: Mem, role: seq<Role>, head: nat, free: seq<nat>, lo: nat, g: nat)
    requires FreeOk(mem, role, head, free, lo) && lo <= g < |mem| && role[g] != Free
    ensures FreeOk(mem[g := JunkPage(head)], role[g := Free], g, [g] + free, lo)
  {
    assert Listed(role, free, lo, g);
    ChainElsewhere(mem, head, free, g, JunkPage(head));
    assert ([g] + free)[1..] == free;
    var role', more := role[g := Free], [g] + free;
    forall f: nat | f < |role'| ensures Listed(role', more, lo, f) {
      assert Listed(role, free, lo, f);
    }
  }
}
