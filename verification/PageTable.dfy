/** Four-level page tables as vm.c builds them (4-level paging, section 4.5 of volume 3A of the Intel
    64 and IA-32 Architectures Software Developer's Manual), over physical memory cut into frames.
    Frame f is the page at physical address f * PGSIZE. */
module PageTable {
  import opened Options

  const PGSIZE: nat := 4096
  const ENTRIES: nat := 512

  /** The page numbers of the lower half of the address space: 47-bit addresses. */
  const USERPAGES: nat := 0x8_0000_0000

  const PTE_P: nat := 1
  const PTE_W: nat := 2
  const PTE_U: nat := 4

  /** A page is 512 words, whether it holds a table or data. */
  type Page = p: seq<nat> | |p| == ENTRIES witness seq(ENTRIES, _ => 0)
  type Mem = seq<Page>

  // ----- entries -----

  predicate Present(e: nat) { e % 2 == 1 }

  function Frame(e: nat): nat { e / PGSIZE }

  function Flags(e: nat): nat { e % PGSIZE }

  function Entry(frame: nat, flags: nat): nat { frame * PGSIZE + flags }

  /** The entry lets user code read, and write, what lies behind it. */
  predicate User(e: nat) { e / PTE_U % 2 == 1 }

  predicate Writeable(e: nat) { e / PTE_W % 2 == 1 }

  lemma {:induction false} EntryParts(frame: nat, flags: nat)
    requires flags < PGSIZE
    ensures Frame(Entry(frame, flags)) == frame && Flags(Entry(frame, flags)) == flags
    ensures Present(Entry(frame, flags)) <==> flags % 2 == 1
    ensures (User(Entry(frame, flags)) <==> User(flags)) && (Writeable(Entry(frame, flags)) <==> Writeable(flags))
  {
    var half := frame * 2048 + flags / 2;
    assert Entry(frame, flags) == 2 * half + flags % 2;
    LowBits(frame, flags);
  }

  lemma {:induction false} LowBits(frame: nat, flags: nat)
    ensures Entry(frame, flags) / 2 % 2 == flags / 2 % 2
    ensures Entry(frame, flags) / 4 % 2 == flags / 4 % 2
  {
    Halve(2048 * frame, flags);
    Even(1024 * frame, flags / 2);
    Quarter(1024 * frame, flags);
    Even(512 * frame, flags / 4);
  }

  lemma {:induction false} Halve(a: nat, b: nat)
    ensures (2 * a + b) / 2 == a + b / 2
  {
  }

  lemma {:induction false} Quarter(a: nat, b: nat)
    ensures (4 * a + b) / 4 == a + b / 4
  {
  }

  lemma {:induction false} Even(a: nat, b: nat)
    ensures (2 * a + b) % 2 == b % 2
  {
  }

  /** flags | PTE_P */
  function WithPresent(flags: nat): (r: nat)
    ensures r % 2 == 1 && r / 2 == flags / 2
  {
    if flags % 2 == 1 then flags else flags + 1
  }

  // ----- what a frame is used for -----

  /** Node(s, L, q) is the level-L page of the address space whose PML4 is frame s that covers the
      page numbers q * 512^L up to (q + 1) * 512^L: level 4 is the PML4, 3 a PDPT, 2 a page
      directory, 1 a page table, and level 0 the user page q itself. Kernel is the kernel image, Shared
      the tables kvmalloc allocates, and Held a page that is allocated and in no address space. */
  datatype Role = Free | Kernel | Held | Shared | Node(space: nat, level: nat, key: nat)

  /** Physical memory with, for each frame, its role and the frame of the table that points to it. */
  datatype Phys = Phys(mem: Mem, role: seq<Role>, up: seq<nat>)

  predicate IsTable(r: Role) { r.Node? && 1 <= r.level <= 4 }

  /** The entries of a table that belong to user space: the upper half of a PML4 is the kernel's. */
  predicate UserEntry(r: Role, x: nat) {
    IsTable(r) && x < if r.level == 4 then ENTRIES / 2 else ENTRIES
  }

  ghost predicate Sized(h: Phys) {
    |h.mem| == |h.role| == |h.up|
  }

  /** Entry x of frame f points at the right kind of page, which knows its parent. What a user may do
      with a page is decided by the last entry of the walk: those before it allow everything. */
  ghost predicate Down(h: Phys, f: nat, x: nat)
    requires Sized(h) && f < |h.mem| && x < ENTRIES
  {
    UserEntry(h.role[f], x) && Present(h.mem[f][x]) ==>
      var g := Frame(h.mem[f][x]);
      && g < |h.mem|
      && h.role[g] == Node(h.role[f].space, h.role[f].level - 1, h.role[f].key * ENTRIES + x)
      && h.up[g] == f
      && (h.role[f].level > 1 ==> User(h.mem[f][x]) && Writeable(h.mem[f][x]))
  }

  /** A page of an address space hangs where its role says. */
  ghost predicate Up(h: Phys, g: nat)
    requires Sized(h) && g < |h.mem|
  {
    h.role[g].Node? ==>
      var r, f := h.role[g], h.up[g];
      if r.level >= 4 then
        r == Node(g, 4, 0)
      else
        && f < |h.mem|
        && h.role[f] == Node(r.space, r.level + 1, r.key / ENTRIES)
        && UserEntry(h.role[f], r.key % ENTRIES)
        && Present(h.mem[f][r.key % ENTRIES])
        && Frame(h.mem[f][r.key % ENTRIES]) == g
  }

  ghost predicate Tree(h: Phys) {
    && Sized(h)
    && (forall f: nat, x: nat | f < |h.mem| && x < ENTRIES :: Down(h, f, x))
    && (forall g: nat | g < |h.mem| :: Up(h, g))
  }

  // ----- the walk -----

  /** The page of level L and key q that the hardware reaches from PML4 s, if there is one. */
  function Reach(mem: Mem, s: nat, level: nat, key: nat): Option<nat>
    decreases 4 - level
  {
    if level >= 4 then
      if s < |mem| && level == 4 && key == 0 then Some(s) else None
    else
      var t := Reach(mem, s, level + 1, key / ENTRIES);
      if t.None? || t.value >= |mem| then None
      else
        var e := mem[t.value][key % ENTRIES];
        if Present(e) then Some(Frame(e)) else None
  }

  /** The page-table entry for page number v: 0 when there is no page table for it. */
  function Pte(mem: Mem, s: nat, v: nat): nat {
    var t := Reach(mem, s, 1, v / ENTRIES);
    if t.None? || t.value >= |mem| then 0 else mem[t.value][v % ENTRIES]
  }

  /** The frame and flags a user address translates to. */
  function Translate(mem: Mem, s: nat, v: nat): Option<(nat, nat)> {
    var e := Pte(mem, s, v);
    if Present(e) then Some((Frame(e), Flags(e))) else None
  }

  /** Whether user code may write (first) and access (second) what the walk to the given level and key
      leads to: every entry on the way must allow it. */
  function Rights(mem: Mem, s: nat, level: nat, key: nat): (bool, bool)
    decreases 4 - level
  {
    if level >= 4 then (true, true)
    else
      var t := Reach(mem, s, level + 1, key / ENTRIES);
      if t.None? || t.value >= |mem| then (false, false)
      else
        var above, e := Rights(mem, s, level + 1, key / ENTRIES), mem[t.value][key % ENTRIES];
        (above.0 && Writeable(e), above.1 && User(e))
  }

  function KeyBound(level: nat): nat {
    if level == 0 then USERPAGES
    else if level == 1 then 0x400_0000
    else if level == 2 then 0x2_0000
    else if level == 3 then 0x100
    else 1
  }

  /** What the hardware reaches is what the roles say, both ways. */
  lemma {:induction false} ReachIsRole(h: Phys, s: nat, level: nat, key: nat, f: nat)
    requires Tree(h) && s < |h.mem| && h.role[s] == Node(s, 4, 0)
    requires level <= 4 && key < KeyBound(level) && f < |h.mem|
    ensures Reach(h.mem, s, level, key) == Some(f) <==> h.role[f] == Node(s, level, key)
    decreases 4 - level
  {
    assert Up(h, f);
    if level < 4 {
      var parent := Reach(h.mem, s, level + 1, key / ENTRIES);
      if parent.Some? && parent.value < |h.mem| {
        ReachIsRole(h, s, level + 1, key / ENTRIES, parent.value);
        assert Down(h, parent.value, key % ENTRIES);
      }
      if h.role[f] == Node(s, level, key) {
        ReachIsRole(h, s, level + 1, key / ENTRIES, h.up[f]);
      }
    }
  }

  lemma {:induction false} ReachInRange(h: Phys, s: nat, level: nat, key: nat)
    requires Tree(h) && s < |h.mem| && h.role[s] == Node(s, 4, 0)
    requires level <= 4 && key < KeyBound(level)
    ensures Reach(h.mem, s, level, key).Some? ==> Reach(h.mem, s, level, key).value < |h.mem|
  {
    if level < 4 {
      var parent := Reach(h.mem, s, level + 1, key / ENTRIES);
      if parent.Some? && parent.value < |h.mem| {
        ReachIsRole(h, s, level + 1, key / ENTRIES, parent.value);
        assert Down(h, parent.value, key % ENTRIES);
      }
    }
  }

  /** Every page of an address space hangs, in the end, from its PML4. */
  lemma {:induction false} RoleBounds(h: Phys, f: nat)
    requires Tree(h) && f < |h.mem| && h.role[f].Node?
    ensures h.role[f].level <= 4 && h.role[f].key < KeyBound(h.role[f].level)
    ensures h.role[f].space < |h.mem| && h.role[h.role[f].space] == Node(h.role[f].space, 4, 0)
    decreases 4 - h.role[f].level
  {
    assert Up(h, f);
    if h.role[f].level < 4 {
      RoleBounds(h, h.up[f]);
    }
  }

  /** The tables on the way to a page allow everything. */
  lemma {:induction false} TablesAllow(h: Phys, s: nat, level: nat, key: nat)
    requires Tree(h) && s < |h.mem| && h.role[s] == Node(s, 4, 0)
    requires 1 <= level <= 4 && key < KeyBound(level) && Reach(h.mem, s, level, key).Some?
    ensures Rights(h.mem, s, level, key) == (true, true)
    decreases 4 - level
  {
    if level < 4 {
      var parent := Reach(h.mem, s, level + 1, key / ENTRIES);
      ReachInRange(h, s, level + 1, key / ENTRIES);
      ReachIsRole(h, s, level + 1, key / ENTRIES, parent.value);
      assert Down(h, parent.value, key % ENTRIES);
      TablesAllow(h, s, level + 1, key / ENTRIES);
    }
  }

  /** What a user may do with a page is what its page-table entry says. */
  lemma {:induction false} RightsOfPage(h: Phys, s: nat, v: nat)
    requires Tree(h) && s < |h.mem| && h.role[s] == Node(s, 4, 0) && v < USERPAGES && Present(Pte(h.mem, s, v))
    ensures Rights(h.mem, s, 0, v) == (Writeable(Pte(h.mem, s, v)), User(Pte(h.mem, s, v)))
  {
    TablesAllow(h, s, 1, v / ENTRIES);
  }

  // ----- the four ways vm.c changes memory -----

  /** Write to, or change hands of, a page that is in no address space. */
  function Touch(h: Phys, g: nat, page: Page, r: Role): Phys
    requires Sized(h) && g < |h.mem|
  {
    h.(mem := h.mem[g := page], role := h.role[g := r])
  }

  /** Point entry x of table f at page g, which thereby joins the address space. */
  function Link(h: Phys, f: nat, x: nat, g: nat, flags: nat): Phys
    requires Sized(h) && f < |h.mem| && g < |h.mem| && x < ENTRIES && IsTable(h.role[f])
  {
    Phys(h.mem[f := h.mem[f][x := Entry(g, flags)]],
         h.role[g := Node(h.role[f].space, h.role[f].level - 1, h.role[f].key * ENTRIES + x)],
         h.up[g := f])
  }

  /** Clear entry x of page table f, whose page leaves the address space. */
  function Unlink(h: Phys, f: nat, x: nat, r: Role): Phys
    requires Sized(h) && f < |h.mem| && x < ENTRIES && Frame(h.mem[f][x]) < |h.mem|
  {
    h.(mem := h.mem[f := h.mem[f][x := 0]], role := h.role[Frame(h.mem[f][x]) := r])
  }

  /** Change the flags of entry x of table f. */
  function Reflag(h: Phys, f: nat, x: nat, flags: nat): Phys
    requires Sized(h) && f < |h.mem| && x < ENTRIES
  {
    h.(mem := h.mem[f := h.mem[f][x := Entry(Frame(h.mem[f][x]), flags)]])
  }

  predicate Zeroed(p: Page) {
    forall x | 0 <= x < ENTRIES :: p[x] == 0
  }

  lemma {:induction false} TouchKeeps(h: Phys, g: nat, page: Page, r: Role)
    requires Tree(h) && g < |h.mem| && !h.role[g].Node? && !r.Node?
    ensures Tree(Touch(h, g, page, r))
  {
    var k := Touch(h, g, page, r);
    forall f: nat, x: nat | f < |k.mem| && x < ENTRIES ensures Down(k, f, x) {
      assert Down(h, f, x);
    }
    forall f: nat | f < |k.mem| ensures Up(k, f) {
      assert Up(h, f);
    }
  }

  lemma {:induction false} LinkKeeps(h: Phys, f: nat, x: nat, g: nat, flags: nat)
    requires Tree(h) && f < |h.mem| && g < |h.mem| && x < ENTRIES
    requires UserEntry(h.role[f], x) && !Present(h.mem[f][x])
    requires !h.role[g].Node? && flags < PGSIZE && flags % 2 == 1
    requires h.role[f].level > 1 ==> Zeroed(h.mem[g]) && User(flags) && Writeable(flags)
    ensures Tree(Link(h, f, x, g, flags))
  {
    var k := Link(h, f, x, g, flags);
    EntryParts(g, flags);
    forall a: nat, y: nat | a < |k.mem| && y < ENTRIES ensures Down(k, a, y) {
      assert Down(h, a, y);
    }
    forall a: nat | a < |k.mem| ensures Up(k, a) {
      assert Up(h, a);
      LinkSlot(h, f, x, a);
    }
  }

  /** No page already hangs from an entry that is not present. */
  lemma {:induction false} LinkSlot(h: Phys, f: nat, x: nat, a: nat)
    requires Tree(h) && f < |h.mem| && a < |h.mem| && x < ENTRIES && !Present(h.mem[f][x])
    ensures h.role[a].Node? && h.role[a].level < 4 && h.up[a] == f ==> h.role[a].key % ENTRIES != x
  {
    assert Up(h, a);
  }

  lemma {:induction false} UnlinkKeeps(h: Phys, f: nat, x: nat, r: Role)
    requires Tree(h) && f < |h.mem| && x < ENTRIES && h.role[f].Node? && h.role[f].level == 1
    requires Present(h.mem[f][x]) && !r.Node?
    ensures Frame(h.mem[f][x]) < |h.mem| && Tree(Unlink(h, f, x, r))
  {
    assert Down(h, f, x);
    var g := Frame(h.mem[f][x]);
    var k := Unlink(h, f, x, r);
    forall a: nat, y: nat | a < |k.mem| && y < ENTRIES ensures Down(k, a, y) {
      assert Down(h, a, y);
    }
    forall a: nat | a < |k.mem| ensures Up(k, a) {
      assert Up(h, a);
    }
  }

  lemma {:induction false} ReflagKeeps(h: Phys, f: nat, x: nat, flags: nat)
    requires Tree(h) && f < |h.mem| && x < ENTRIES && flags < PGSIZE && h.role[f].Node? && h.role[f].level == 1
    requires flags % 2 == h.mem[f][x] % 2
    ensures Tree(Reflag(h, f, x, flags))
  {
    var k := Reflag(h, f, x, flags);
    EntryParts(Frame(h.mem[f][x]), flags);
    forall a: nat, y: nat | a < |k.mem| && y < ENTRIES ensures Down(k, a, y) {
      assert Down(h, a, y);
    }
    forall a: nat | a < |k.mem| ensures Up(k, a) {
      assert Up(h, a);
    }
  }

  // ----- what the changes do to the flat map -----

  ghost predicate Space(h: Phys, s: nat) {
    Sized(h) && s < |h.mem| && h.role[s] == Node(s, 4, 0)
  }

  /** Memory k shows entry v of space s as h does when k keeps the page table of h for v, and a page
      table only k has is empty there. */
  lemma {:induction false} PteAgrees(h: Phys, k: Phys, s: nat, v: nat)
    requires Tree(h) && Tree(k) && Space(h, s) && Space(k, s) && |h.mem| == |k.mem| && v < USERPAGES
    requires forall f: nat | f < |h.mem| && h.role[f] == Node(s, 1, v / ENTRIES) ::
               k.role[f] == h.role[f] && k.mem[f][v % ENTRIES] == h.mem[f][v % ENTRIES]
    requires forall f: nat | f < |h.mem| && k.role[f] == Node(s, 1, v / ENTRIES) && h.role[f] != k.role[f] ::
               k.mem[f][v % ENTRIES] == 0
    ensures Pte(k.mem, s, v) == Pte(h.mem, s, v)
  {
    var q := v / ENTRIES;
    ReachInRange(h, s, 1, q);
    ReachInRange(k, s, 1, q);
    var t, u := Reach(h.mem, s, 1, q), Reach(k.mem, s, 1, q);
    if t.Some? {
      ReachIsRole(h, s, 1, q, t.value);
      ReachIsRole(k, s, 1, q, t.value);
    } else if u.Some? {
      ReachIsRole(k, s, 1, q, u.value);
      ReachIsRole(h, s, 1, q, u.value);
    }
  }

  /** The entry for v is the one in the page table whose role says so. */
  lemma {:induction false} PteAt(h: Phys, s: nat, f: nat, v: nat)
    requires Tree(h) && Space(h, s) && f < |h.mem| && v < USERPAGES && h.role[f] == Node(s, 1, v / ENTRIES)
    ensures Pte(h.mem, s, v) == h.mem[f][v % ENTRIES]
  {
    ReachIsRole(h, s, 1, v / ENTRIES, f);
  }

  lemma {:induction false} TouchPte(h: Phys, g: nat, page: Page, r: Role, s: nat, v: nat)
    requires Tree(h) && g < |h.mem| && !h.role[g].Node? && !r.Node? && Space(h, s) && v < USERPAGES
    ensures Pte(Touch(h, g, page, r).mem, s, v) == Pte(h.mem, s, v)
  {
    TouchKeeps(h, g, page, r);
    PteAgrees(h, Touch(h, g, page, r), s, v);
  }

  /** Adding a table page changes no translation; adding a user page changes exactly one. */
  lemma {:induction false} LinkPte(h: Phys, f: nat, x: nat, g: nat, flags: nat, s: nat, v: nat)
    requires Tree(h) && f < |h.mem| && g < |h.mem| && x < ENTRIES
    requires UserEntry(h.role[f], x) && !Present(h.mem[f][x])
    requires !h.role[g].Node? && flags < PGSIZE && flags % 2 == 1
    requires h.role[f].level > 1 ==> Zeroed(h.mem[g]) && User(flags) && Writeable(flags)
    requires Space(h, s) && v < USERPAGES
    ensures h.role[f].level == 1 && s == h.role[f].space && v == h.role[f].key * ENTRIES + x ==>
              Pte(Link(h, f, x, g, flags).mem, s, v) == Entry(g, flags)
    ensures !(h.role[f].level == 1 && s == h.role[f].space && v == h.role[f].key * ENTRIES + x) ==>
              Pte(Link(h, f, x, g, flags).mem, s, v) == Pte(h.mem, s, v)
  {
    LinkKeeps(h, f, x, g, flags);
    var k := Link(h, f, x, g, flags);
    if h.role[f].level == 1 && s == h.role[f].space && v == h.role[f].key * ENTRIES + x {
      PteAt(k, s, f, v);
    } else {
      PteAgrees(h, k, s, v);
    }
  }

  lemma {:induction false} UnlinkPte(h: Phys, f: nat, x: nat, r: Role, s: nat, v: nat)
    requires Tree(h) && f < |h.mem| && x < ENTRIES && h.role[f].Node? && h.role[f].level == 1
    requires Present(h.mem[f][x]) && !r.Node? && Frame(h.mem[f][x]) < |h.mem|
    requires Space(h, s) && v < USERPAGES
    ensures s == h.role[f].space && v == h.role[f].key * ENTRIES + x ==> Pte(Unlink(h, f, x, r).mem, s, v) == 0
    ensures !(s == h.role[f].space && v == h.role[f].key * ENTRIES + x) ==>
              Pte(Unlink(h, f, x, r).mem, s, v) == Pte(h.mem, s, v)
  {
    UnlinkKeeps(h, f, x, r);
    var k := Unlink(h, f, x, r);
    assert Down(h, f, x);
    if s == h.role[f].space && v == h.role[f].key * ENTRIES + x {
      PteAt(k, s, f, v);
    } else {
      PteAgrees(h, k, s, v);
    }
  }

  lemma {:induction false} ReflagPte(h: Phys, f: nat, x: nat, flags: nat, s: nat, v: nat)
    requires Tree(h) && f < |h.mem| && x < ENTRIES && h.role[f].Node? && h.role[f].level == 1
    requires flags < PGSIZE && flags % 2 == h.mem[f][x] % 2
    requires Space(h, s) && v < USERPAGES
    ensures s == h.role[f].space && v == h.role[f].key * ENTRIES + x ==>
              Pte(Reflag(h, f, x, flags).mem, s, v) == Entry(Frame(Pte(h.mem, s, v)), flags)
    ensures !(s == h.role[f].space && v == h.role[f].key * ENTRIES + x) ==>
              Pte(Reflag(h, f, x, flags).mem, s, v) == Pte(h.mem, s, v)
  {
    ReflagKeeps(h, f, x, flags);
    var k := Reflag(h, f, x, flags);
    if s == h.role[f].space && v == h.role[f].key * ENTRIES + x {
      PteAt(h, s, f, v);
      PteAt(k, s, f, v);
    } else {
      PteAgrees(h, k, s, v);
    }
  }
}
