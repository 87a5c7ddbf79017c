/** The doubly linked list of buffers of bio.c, as index links: next[b] and prev[b] for each buffer
    and for the list head, whose index is NBUF. */
module LruRing {
  import opened Params
  import opened Sealing

  const HEAD: nat := NBUF

  /** ring lists, from the head on, the nodes that next visits before coming back to the head;
      prev visits them the other way. */
  ghost predicate Linked(next: seq<nat>, prev: seq<nat>, ring: seq<nat>) {
    && |next| == |prev| == NBUF + 1
    && 1 <= |ring| && ring[0] == HEAD
    && (forall i | 0 <= i < |ring| :: ring[i] <= NBUF)
    && (forall i, j | 0 <= i < j < |ring| :: ring[i] != ring[j])
    && (forall i {:trigger next[ring[i]]} | 0 <= i < |ring| :: next[ring[i]] == ring[After(ring, i)])
    && (forall i {:trigger After(ring, i)} | 0 <= i < |ring| :: prev[ring[After(ring, i)]] == ring[i])
  }

  function After(ring: seq<nat>, i: nat): (j: nat)
    requires i < |ring|
    ensures j < |ring|
  {
    if i + 1 == |ring| then 0 else i + 1
  }

  /** All NBUF buffers are on the ring. */
  ghost predicate Whole(next: seq<nat>, prev: seq<nat>, ring: seq<nat>) {
    Linked(next, prev, ring) && |ring| == NBUF + 1
  }

  /** A whole ring, sealed. */
  ghost predicate Closed(next: seq<nat>, prev: seq<nat>, ring: seq<nat>) {
    forall u: int | Key(u, ring) :: Whole(next, prev, ring)
  }

  function Without(ring: seq<nat>, p: nat): seq<nat>
    requires p < |ring|
  {
    ring[..p] + ring[p + 1..]
  }

  function InFront(ring: seq<nat>, b: nat): seq<nat>
    requires 1 <= |ring|
  {
    [ring[0], b] + ring[1..]
  }

  /** The node at position p moved right behind the head. */
  function MovedToFront(ring: seq<nat>, p: nat): seq<nat>
    requires 1 <= p < |ring|
  {
    InFront(Without(ring, p), ring[p])
  }

  /** Bridging the gap around a node unlinks it. */
  lemma {:induction false} UnlinkNode(next: seq<nat>, prev: seq<nat>, ring: seq<nat>, p: nat)
    requires Linked(next, prev, ring) && 1 <= p < |ring|
    ensures var b := ring[p];
            && b <= NBUF && next[b] <= NBUF && prev[b] <= NBUF
            && Linked(next[prev[b] := next[b]], prev[next[b] := prev[b]], Without(ring, p))
            && b !in Without(ring, p)
  {
    var short := Without(ring, p);
    UnlinkLinks(next, prev, ring, p);
    assert forall i | 0 <= i < p :: short[i] == ring[i];
    assert forall i | p <= i < |short| :: short[i] == ring[i + 1];
  }

  lemma {:induction false} UnlinkLinks(next: seq<nat>, prev: seq<nat>, ring: seq<nat>, p: nat)
    requires Linked(next, prev, ring) && 1 <= p < |ring|
    ensures var b, short := ring[p], Without(ring, p);
            && b <= NBUF && next[b] <= NBUF && prev[b] <= NBUF
            && forall i | 0 <= i < |short| ::
                 && short[i] <= NBUF && short[After(short, i)] <= NBUF
                 && next[prev[b] := next[b]][short[i]] == short[After(short, i)]
                 && prev[next[b] := prev[b]][short[After(short, i)]] == short[i]
  {
    var b := ring[p];
    assert After(ring, p - 1) == p;
    var after := ring[After(ring, p)];
    assert next[ring[p]] == after && prev[b] == ring[p - 1];
    var next1, prev1 := next[prev[b] := next[b]], prev[next[b] := prev[b]];
    var short := Without(ring, p);
    forall i | 0 <= i < |short|
      ensures short[i] <= NBUF && short[After(short, i)] <= NBUF
      ensures next1[short[i]] == short[After(short, i)] && prev1[short[After(short, i)]] == short[i]
    {
      var k := if i < p then i else i + 1;
      assert short[i] == ring[k];
      if i == p - 1 {
        assert short[After(short, i)] == after;
      } else {
        assert short[After(short, i)] == ring[After(ring, k)] && next[ring[k]] == ring[After(ring, k)];
      }
    }
  }

  /** The four assignments that put a node behind the head. */
  lemma {:induction false} InsertNode(next: seq<nat>, prev: seq<nat>, ring: seq<nat>, b: nat)
    requires Linked(next, prev, ring) && b < NBUF && b !in ring
    ensures var first := next[HEAD];
            && first <= NBUF
            && Linked(next[b := first][HEAD := b], prev[b := HEAD][first := b], InFront(ring, b))
  {
    var first := next[HEAD];
    assert first == ring[After(ring, 0)];
    var next1, prev1 := next[b := first][HEAD := b], prev[b := HEAD][first := b];
    var long := InFront(ring, b);
    forall i | 0 <= i < |long|
      ensures next1[long[i]] == long[After(long, i)] && prev1[long[After(long, i)]] == long[i]
    {
      if i >= 2 {
        assert long[i] == ring[i - 1] && next[ring[i - 1]] == ring[After(ring, i - 1)];
        assert prev[ring[After(ring, i - 1)]] == ring[i - 1];
      }
    }
  }

  /** A whole ring is a permutation: it misses no buffer. */
  lemma {:induction false} WholeMissesNone(next: seq<nat>, prev: seq<nat>, ring: seq<nat>, b: nat)
    requires Whole(next, prev, ring) && b <= NBUF
    ensures b in ring
  {
    if b !in ring {
      var more := ring + [b];
      DistinctBelow(more, NBUF + 1);
      assert false;
    }
  }

  /** Distinct numbers below n are at most n many. */
  lemma {:induction false} DistinctBelow(s: seq<nat>, n: nat)
    requires forall i | 0 <= i < |s| :: s[i] < n
    requires forall i, j | 0 <= i < j < |s| :: s[i] != s[j]
    ensures |s| <= n
    decreases n
  {
    if s == [] {
      return;
    }
    assert s[0] < n;
    if n - 1 in s {
      var k :| 0 <= k < |s| && s[k] == n - 1;
      var rest := s[..k] + s[k + 1..];
      DistinctBelow(rest, n - 1);
    } else {
      DistinctBelow(s, n - 1);
    }
  }
}

/** The buffer cache of bio.c over an in-memory disk. Each method is one stretch of code that runs
    under bcache.lock or under the lock of one buffer, so an interleaving of processes is a sequence
    of calls, and what Valid says holds between any two of them. */
module BufferCache {
  import opened Params
  import opened Sealing
  import opened LruRing
  import opened Options

  const ROOTDEV: nat := 1

  datatype Buf = Buf(dev: nat, blockno: nat, valid: bool, dirty: bool, refcnt: nat, locked: bool, data: Block)

  predicate Is(b: Buf, dev: nat, blockno: nat) {
    b.dev == dev && b.blockno == blockno
  }

  predicate Caches(b: Buf, x: nat) {
    b.valid && b.blockno == x
  }

  predicate Recyclable(b: Buf) {
    b.refcnt == 0 && !b.dirty
  }

  /** A buffer nobody is changing and nobody has marked dirty agrees with the disk. */
  ghost predicate BufOk(b: Buf, disk: Disk) {
    && (b.locked ==> b.refcnt > 0)
    && (b.dirty ==> b.valid)
    && (b.valid ==> b.dev == ROOTDEV && b.blockno < |disk|)
    && (b.valid && !b.dirty && !b.locked ==> b.data == disk[b.blockno])
  }

  /** A block of a real device has at most one buffer. */
  ghost predicate Unique(bufs: seq<Buf>) {
    forall i, j | 0 <= i < |bufs| && 0 <= j < |bufs| && bufs[i].dev != 0 &&
        Is(bufs[j], bufs[i].dev, bufs[i].blockno) :: i == j
  }

  ghost predicate BufsOk(bufs: seq<Buf>, disk: Disk) {
    && |bufs| == NBUF
    && (forall i | 0 <= i < NBUF :: BufOk(bufs[i], disk))
    && Unique(bufs)
  }

  /** The contents of block x as the running system sees them: the cached copy, or else the disk's. */
  ghost function View(bufs: seq<Buf>, disk: Disk, x: nat): Block
    requires x < |disk|
  {
    if i :| 0 <= i < |bufs| && Caches(bufs[i], x) then bufs[i].data else disk[x]
  }

  lemma {:induction false} ViewCached(bufs: seq<Buf>, disk: Disk, i: nat)
    requires BufsOk(bufs, disk) && i < NBUF && bufs[i].valid
    ensures View(bufs, disk, bufs[i].blockno) == bufs[i].data
  {
    assert BufOk(bufs[i], disk);
    assert Caches(bufs[i], bufs[i].blockno);
    forall j | 0 <= j < NBUF && Caches(bufs[j], bufs[i].blockno) ensures j == i {
      assert BufOk(bufs[j], disk);
    }
  }

  /** What changing one buffer, and perhaps the disk, does to the view of a block. */
  lemma {:induction false} ViewAfter(bufs: seq<Buf>, disk: Disk, i: nat, b: Buf, disk': Disk, x: nat)
    requires BufsOk(bufs, disk) && i < NBUF && |disk'| == |disk|
    requires BufsOk(bufs[i := b], disk') && x < |disk|
    ensures Caches(b, x) ==> View(bufs[i := b], disk', x) == b.data
    ensures !Caches(b, x) && Caches(bufs[i], x) ==> View(bufs[i := b], disk', x) == disk'[x]
    ensures !Caches(b, x) && !Caches(bufs[i], x) && disk'[x] == disk[x] ==>
              View(bufs[i := b], disk', x) == View(bufs, disk, x)
  {
    var bufs' := bufs[i := b];
    if Caches(b, x) {
      ViewCached(bufs', disk', i);
    } else if j :| 0 <= j < NBUF && Caches(bufs'[j], x) {
      ViewCached(bufs', disk', j);
      ViewCached(bufs, disk, j);
      assert BufOk(bufs[i], disk) && BufOk(bufs[j], disk);
    } else if !Caches(bufs[i], x) {
      forall j | 0 <= j < NBUF ensures !Caches(bufs[j], x) {
        assert j != i ==> bufs[j] == bufs'[j];
      }
    }
  }

  /** Nothing is seen to change when the disk stays, and the buffer either keeps its block and data
      or was clean, and so lets go of nothing but a copy of the disk. */
  lemma {:induction false} SameView(bufs: seq<Buf>, disk: Disk, i: nat, b: Buf)
    requires BufsOk(bufs, disk) && i < NBUF && BufsOk(bufs[i := b], disk)
    requires b.valid ==> bufs[i].valid && b.blockno == bufs[i].blockno && b.data == bufs[i].data
    requires bufs[i].valid && !b.valid ==> !bufs[i].dirty && !bufs[i].locked
    ensures forall x | 0 <= x < |disk| :: View(bufs[i := b], disk, x) == View(bufs, disk, x)
  {
    forall x: nat | x < |disk| ensures View(bufs[i := b], disk, x) == View(bufs, disk, x) {
      ViewAfter(bufs, disk, i, b, disk, x);
      if Caches(bufs[i], x) {
        ViewCached(bufs, disk, i);
        assert BufOk(bufs[i], disk);
      }
    }
  }

  /** One buffer of a good cache may be replaced by a good buffer for the same block, for a block
      no buffer has, or for none. */
  lemma {:induction false} OneChanged(bufs: seq<Buf>, disk: Disk, i: nat, b: Buf, disk': Disk)
    requires BufsOk(bufs, disk) && i < NBUF && BufOk(b, disk') && |disk'| == |disk|
    requires forall x | 0 <= x < |disk| && x != b.blockno :: disk'[x] == disk[x]
    requires disk' != disk ==> b.dev == ROOTDEV
    requires Is(b, bufs[i].dev, bufs[i].blockno) || forall j | 0 <= j < NBUF :: !Is(bufs[j], b.dev, b.blockno)
    ensures BufsOk(bufs[i := b], disk')
  {
    var bufs' := bufs[i := b];
    forall j | 0 <= j < NBUF ensures BufOk(bufs'[j], disk') {
      assert BufOk(bufs[j], disk);
      assert j != i && bufs[j].dev != 0 ==> !Is(bufs[i], bufs[j].dev, bufs[j].blockno);
      assert j != i && bufs[j].valid && disk' != disk ==> !Is(bufs[j], b.dev, b.blockno);
    }
  }

  /** b can be recycled, and no other buffer that can was given up before it. */
  ghost predicate LeastRecent(bufs: seq<Buf>, released: seq<nat>, b: nat) {
    && b < |bufs| == |released| && Recyclable(bufs[b])
    && forall i | 0 <= i < |bufs| && Recyclable(bufs[i]) :: released[b] <= released[i]
  }

  /** The buffers on the ring in the order in which they were last given up, the latest first. Sealed. */
  ghost predicate Recency(ring: seq<nat>, released: seq<nat>, clock: nat) {
    forall u: int | Key(u, (ring, released)) :: Ordered(ring, released, clock)
  }

  ghost predicate Ordered(ring: seq<nat>, released: seq<nat>, clock: nat) {
    && |ring| == NBUF + 1 && |released| == NBUF
    && (forall b | 0 <= b < NBUF :: released[b] <= clock)
    && (forall p | 1 <= p <= NBUF :: ring[p] < NBUF)
    && (forall p, q | 1 <= p < q <= NBUF :: released[ring[q]] <= released[ring[p]])
  }

  lemma {:induction false} OrderedFront(ring: seq<nat>, released: seq<nat>, clock: nat, p: nat)
    requires Ordered(ring, released, clock) && 1 <= p <= NBUF
    requires forall i, j | 0 <= i < j < |ring| :: ring[i] != ring[j]
    ensures Ordered(MovedToFront(ring, p), released[ring[p] := clock + 1], clock + 1)
  {
    var now, rel := MovedToFront(ring, p), released[ring[p] := clock + 1];
    assert now[1] == ring[p];
    assert forall q | 2 <= q <= p :: now[q] == ring[q - 1];
    assert forall q | p < q <= NBUF :: now[q] == ring[q];
    forall q, r | 1 <= q < r <= NBUF ensures rel[now[r]] <= rel[now[q]] {
      if q > 1 {
        var q0, r0 := if q <= p then q - 1 else q, if r <= p then r - 1 else r;
        assert now[q] == ring[q0] && now[r] == ring[r0] && q0 < r0;
      }
    }
  }

  lemma {:induction false} RecencyFront(next: seq<nat>, prev: seq<nat>, ring: seq<nat>, released: seq<nat>,
                                        clock: nat, b: nat) returns (p: nat)
    requires Closed(next, prev, ring) && Recency(ring, released, clock) && b < NBUF
    ensures 1 <= p < |ring| && ring[p] == b && |released| == NBUF
    ensures Recency(MovedToFront(ring, p), released[b := clock + 1], clock + 1)
    ensures MovedToFront(ring, p) == [HEAD, b] + ring[1..p] + ring[p + 1..]
  {
    assert Key(0, ring) && Key(0, (ring, released));
    WholeMissesNone(next, prev, ring, b);
    p :| 0 <= p < |ring| && ring[p] == b;
    OrderedFront(ring, released, clock, p);
    assert ring[..p][1..] == ring[1..p];
  }

  class BufferCache {
    var bufs: seq<Buf>
    var next: seq<nat>
    var prev: seq<nat>
    var disk: Disk
    ghost var ring: seq<nat>
    ghost var released: seq<nat>  // when each buffer last lost its last reference
    ghost var clock: nat
    ghost var writes: seq<Disk>  // the disk after each write to it, oldest first

    ghost predicate Valid()
      reads this
    {
      Closed(next, prev, ring) && Recency(ring, released, clock) && BufsOk(bufs, disk)
    }

    /** binit: put the buffers on the ring one by one, the last one in front. */
    constructor (image: Disk)
      ensures Valid()
      ensures disk == image && writes == [] && clock == 0
      ensures forall i | 0 <= i < NBUF :: Recyclable(bufs[i]) && !bufs[i].locked && !bufs[i].valid
      ensures |ring| == NBUF + 1 && forall k | 1 <= k <= NBUF :: ring[k] == NBUF - k
    {
      var zero: Block := seq(WORDS, _ => 0);
      bufs := seq(NBUF, _ => Buf(0, 0, false, false, 0, false, zero));
      disk := image;
      writes := [];
      var nx: seq<nat>, pv: seq<nat> := seq(NBUF + 1, _ => HEAD), seq(NBUF + 1, _ => HEAD);
      ghost var rg: seq<nat> := [HEAD];
      var b := 0;
      while b < NBUF
        invariant b <= NBUF
        invariant Linked(nx, pv, rg) && |rg| == b + 1
        invariant forall i | 0 <= i < |rg| :: rg[i] < b || rg[i] == HEAD
        invariant forall k | 1 <= k < |rg| :: rg[k] == b - k
      {
        InsertNode(nx, pv, rg, b);
        rg := InFront(rg, b);
        nx, pv := nx[b := nx[HEAD]], pv[b := HEAD];
        pv := pv[nx[HEAD] := b];
        nx := nx[HEAD := b];
        b := b + 1;
      }
      next, prev, ring := nx, pv, rg;
      released, clock := seq(NBUF, _ => 0), 0;
    }

    /** The part of bget under bcache.lock: count a reference on the buffer of the block, or give the
        block, of the buffers that are neither referenced nor dirty, the one given up longest ago. */
    method Bget(dev: nat, blockno: nat) returns (r: Option<nat>)
      requires Valid() && dev != 0
      modifies this`bufs
      ensures Valid()
      ensures r.None? <==> forall i | 0 <= i < NBUF :: !Is(old(bufs)[i], dev, blockno) && !Recyclable(old(bufs)[i])
      ensures r.None? ==> bufs == old(bufs)
      ensures r.Some? ==> r.value < NBUF
      ensures r.Some? && Is(old(bufs)[r.value], dev, blockno) ==>
                bufs == old(bufs)[r.value := old(bufs)[r.value].(refcnt := old(bufs)[r.value].refcnt + 1)]
      ensures r.Some? && !Is(old(bufs)[r.value], dev, blockno) ==>
                && Recyclable(old(bufs)[r.value])
                && (forall i | 0 <= i < NBUF :: !Is(old(bufs)[i], dev, blockno))
                && bufs == old(bufs)[r.value := Buf(dev, blockno, false, false, 1, false, old(bufs)[r.value].data)]
                && LeastRecent(old(bufs), released, r.value)
      ensures forall x | 0 <= x < |disk| :: View(bufs, disk, x) == View(old(bufs), disk, x)
    {
      r := Find(dev, blockno);
      if r.Some? {
        Reference(r.value);
        return;
      }
      r := FindRecyclable();
      if r.Some? {
        Recycle(r.value, dev, blockno);
      }
    }

    /** The first loop of bget: is the block already cached? */
    method Find(dev: nat, blockno: nat) returns (r: Option<nat>)
      requires Valid()
      ensures r.Some? ==> r.value < NBUF && Is(bufs[r.value], dev, blockno)
      ensures r.None? ==> forall i | 0 <= i < NBUF :: !Is(bufs[i], dev, blockno)
    {
      assert Key(0, ring);
      var b := next[HEAD];
      ghost var p := 1;
      assert b == ring[After(ring, 0)];
      while b != HEAD
        invariant 1 <= p <= NBUF + 1
        invariant b == if p <= NBUF then ring[p] else HEAD
        invariant forall q | 1 <= q < p :: ring[q] < NBUF && !Is(bufs[ring[q]], dev, blockno)
        decreases NBUF + 1 - p
      {
        if bufs[b].dev == dev && bufs[b].blockno == blockno {
          return Some(b);
        }
        assert next[ring[p]] == ring[After(ring, p)];
        b := next[b];
        p := p + 1;
      }
      forall i | 0 <= i < NBUF ensures !Is(bufs[i], dev, blockno) {
        WholeMissesNone(next, prev, ring, i);
      }
      return None;
    }

    /** The second loop of bget: the least recently used buffer that is unused and clean. */
    method FindRecyclable() returns (r: Option<nat>)
      requires Valid()
      ensures r.Some? ==>
                r.value < NBUF && LeastRecent(bufs, released, r.value)
      ensures r.None? ==> forall i | 0 <= i < NBUF :: !Recyclable(bufs[i])
    {
      assert Key(0, ring);
      var b := prev[HEAD];
      ghost var p := NBUF;
      assert prev[ring[After(ring, NBUF)]] == ring[NBUF];
      while b != HEAD
        invariant 0 <= p <= NBUF
        invariant b == ring[p]
        invariant forall q | p < q <= NBUF :: ring[q] < NBUF && !Recyclable(bufs[ring[q]])
        decreases p
      {
        if bufs[b].refcnt == 0 && !bufs[b].dirty {
          LongestAgo(p);
          return Some(b);
        }
        assert prev[ring[After(ring, p - 1)]] == ring[p - 1];
        b := prev[b];
        p := p - 1;
      }
      forall i | 0 <= i < NBUF ensures !Recyclable(bufs[i]) {
        WholeMissesNone(next, prev, ring, i);
      }
      return None;
    }

    /** A buffer that can be recycled with none further back on the ring was given up longest ago. */
    lemma {:induction false} LongestAgo(p: nat)
      requires Valid() && 1 <= p <= NBUF == |ring| - 1 && ring[p] < NBUF && Recyclable(bufs[ring[p]])
      requires forall q | p < q <= NBUF :: ring[q] < NBUF && !Recyclable(bufs[ring[q]])
      ensures LeastRecent(bufs, released, ring[p])
    {
      assert Key(0, ring) && Key(0, (ring, released));
      forall i | 0 <= i < NBUF && Recyclable(bufs[i]) ensures released[ring[p]] <= released[i] {
        WholeMissesNone(next, prev, ring, i);
        var q :| 0 <= q < |ring| && ring[q] == i;
      }
    }

    method Reference(b: nat)
      requires Valid() && b < NBUF
      modifies this`bufs
      ensures Valid()
      ensures bufs == old(bufs)[b := old(bufs)[b].(refcnt := old(bufs)[b].refcnt + 1)]
      ensures forall x | 0 <= x < |disk| :: View(bufs, disk, x) == View(old(bufs), disk, x)
    {
      bufs := bufs[b := bufs[b].(refcnt := bufs[b].refcnt + 1)];
      OneChanged(old(bufs), disk, b, bufs[b], disk);
      SameView(old(bufs), disk, b, bufs[b]);
    }

    method Recycle(b: nat, dev: nat, blockno: nat)
      requires Valid() && b < NBUF && Recyclable(bufs[b]) && dev != 0
      requires forall i | 0 <= i < NBUF :: !Is(bufs[i], dev, blockno)
      modifies this`bufs
      ensures Valid()
      ensures bufs == old(bufs)[b := Buf(dev, blockno, false, false, 1, false, old(bufs)[b].data)]
      ensures forall x | 0 <= x < |disk| :: View(bufs, disk, x) == View(old(bufs), disk, x)
    {
      assert BufOk(bufs[b], disk);
      var now := bufs[b].(dev := dev, blockno := blockno);
      now := now.(valid := false, dirty := false, refcnt := 1);
      OneChanged(bufs, disk, b, now, disk);
      SameView(bufs, disk, b, now);
      bufs := bufs[b := now];
    }

    /** acquiresleep, at the moment it gets the lock. */
    method Lock(b: nat)
      requires Valid() && b < NBUF && !bufs[b].locked && bufs[b].refcnt > 0
      modifies this`bufs
      ensures Valid()
      ensures bufs == old(bufs)[b := old(bufs)[b].(locked := true)]
      ensures forall x | 0 <= x < |disk| :: View(bufs, disk, x) == View(old(bufs), disk, x)
    {
      OneChanged(bufs, disk, b, bufs[b].(locked := true), disk);
      SameView(bufs, disk, b, bufs[b].(locked := true));
      bufs := bufs[b := bufs[b].(locked := true)];
    }

    /** The rest of bread: read the block if the buffer does not hold it yet. */
    method Fill(b: nat)
      requires Valid() && b < NBUF && bufs[b].locked && bufs[b].dev == ROOTDEV && bufs[b].blockno < |disk|
      modifies this`bufs
      ensures Valid()
      ensures bufs == old(bufs)[b := old(bufs)[b].(valid := true, data := View(old(bufs), disk, old(bufs)[b].blockno))]
      ensures forall x | 0 <= x < |disk| :: View(bufs, disk, x) == View(old(bufs), disk, x)
    {
      assert BufOk(bufs[b], disk);
      if bufs[b].valid {
        ViewCached(bufs, disk, b);
        assert bufs == bufs[b := bufs[b]];
        return;
      }
      var now := bufs[b].(data := disk[bufs[b].blockno], valid := true);
      forall j | 0 <= j < NBUF ensures !Caches(bufs[j], now.blockno) {
        assert BufOk(bufs[j], disk);
      }
      OneChanged(bufs, disk, b, now, disk);
      forall x: nat | x < |disk| ensures View(bufs[b := now], disk, x) == View(bufs, disk, x) {
        ViewAfter(bufs, disk, b, now, disk, x);
      }
      bufs := bufs[b := now];
    }

    /** The holder of the lock changes the data. */
    method Modify(b: nat, data: Block)
      requires Valid() && b < NBUF && bufs[b].locked && bufs[b].valid
      modifies this`bufs
      ensures Valid()
      ensures bufs == old(bufs)[b := old(bufs)[b].(data := data)]
      ensures forall x | 0 <= x < |disk| && x != bufs[b].blockno :: View(bufs, disk, x) == View(old(bufs), disk, x)
      ensures bufs[b].blockno < |disk| && View(bufs, disk, bufs[b].blockno) == data
    {
      assert BufOk(bufs[b], disk);
      var now := bufs[b].(data := data);
      OneChanged(bufs, disk, b, now, disk);
      forall x: nat | x < |disk| && x != now.blockno ensures View(bufs[b := now], disk, x) == View(bufs, disk, x) {
        ViewAfter(bufs, disk, b, now, disk, x);
      }
      ViewCached(bufs[b := now], disk, b);
      bufs := bufs[b := now];
    }

    /** Set B_DIRTY without writing, which is how log_write pins a block in the cache. */
    method Pin(b: nat)
      requires Valid() && b < NBUF && bufs[b].locked && bufs[b].valid
      modifies this`bufs
      ensures Valid()
      ensures bufs == old(bufs)[b := old(bufs)[b].(dirty := true)]
      ensures forall x | 0 <= x < |disk| :: View(bufs, disk, x) == View(old(bufs), disk, x)
    {
      OneChanged(bufs, disk, b, bufs[b].(dirty := true), disk);
      SameView(bufs, disk, b, bufs[b].(dirty := true));
      bufs := bufs[b := bufs[b].(dirty := true)];
    }

    /** bwrite: the disk takes the data and the buffer is clean again. */
    method Bwrite(b: nat)
      requires Valid() && b < NBUF && bufs[b].locked && bufs[b].valid
      modifies this`bufs, this`disk, this`writes
      ensures Valid()
      ensures bufs == old(bufs)[b := old(bufs)[b].(dirty := false)]
      ensures bufs[b].blockno < |old(disk)| && disk == old(disk)[bufs[b].blockno := bufs[b].data]
      ensures writes == old(writes) + [disk]
      ensures forall x | 0 <= x < |disk| :: View(bufs, disk, x) == View(old(bufs), old(disk), x)
    {
      assert BufOk(bufs[b], disk);
      var now := bufs[b].(dirty := false);
      ghost var disk' := disk[now.blockno := now.data];
      OneChanged(bufs, disk, b, now, disk');
      ViewCached(bufs, disk, b);
      forall x: nat | x < |disk| ensures View(bufs[b := now], disk', x) == View(bufs, disk, x) {
        ViewAfter(bufs, disk, b, now, disk', x);
      }
      bufs := bufs[b := bufs[b].(dirty := true)];
      disk := disk[bufs[b].blockno := bufs[b].data];
      bufs := bufs[b := bufs[b].(dirty := false)];
      writes := writes + [disk];
    }

    /** brelse. A holder that changed the data must have written it or pinned it. */
    method Brelse(b: nat)
      requires Valid() && b < NBUF && bufs[b].locked
      requires bufs[b].valid && !bufs[b].dirty ==> bufs[b].data == disk[bufs[b].blockno]
      modifies this`bufs, this`next, this`prev, this`ring, this`released, this`clock
      ensures Valid()
      ensures bufs == old(bufs)[b := old(bufs)[b].(locked := false, refcnt := old(bufs)[b].refcnt - 1)]
      ensures bufs[b].refcnt > 0 ==> ring == old(ring) && released == old(released)
      ensures bufs[b].refcnt == 0 ==>
                && b < |old(released)| && released == old(released)[b := clock] && clock == old(clock) + 1
                && exists p :: 1 <= p < |old(ring)| && old(ring)[p] == b &&
                               ring == [HEAD, b] + old(ring)[1..p] + old(ring)[p + 1..]
      ensures forall x | 0 <= x < |disk| :: View(bufs, disk, x) == View(old(bufs), disk, x)
    {
      assert BufOk(bufs[b], disk);
      var now := bufs[b].(locked := false, refcnt := bufs[b].refcnt - 1);
      OneChanged(bufs, disk, b, now, disk);
      SameView(bufs, disk, b, now);
      bufs := bufs[b := now];
      if bufs[b].refcnt == 0 {
        MoveToFront(b);
      }
    }

    /** Relink a buffer right behind the head of the ring. */
    method MoveToFront(b: nat)
      requires Closed(next, prev, ring) && Recency(ring, released, clock) && b < NBUF
      modifies this`next, this`prev, this`ring, this`released, this`clock
      ensures Closed(next, prev, ring) && Recency(ring, released, clock)
      ensures exists p :: 1 <= p < |old(ring)| && old(ring)[p] == b &&
                          ring == [HEAD, b] + old(ring)[1..p] + old(ring)[p + 1..]
      ensures b < |old(released)| && released == old(released)[b := clock] && clock == old(clock) + 1
    {
      assert Key(0, ring);
      ghost var p := RecencyFront(next, prev, ring, released, clock, b);
      UnlinkNode(next, prev, ring, p);
      InsertNode(next[prev[b] := next[b]], prev[next[b] := prev[b]], Without(ring, p), b);
      prev := prev[next[b] := prev[b]];
      next := next[prev[b] := next[b]];
      next := next[b := next[HEAD]];
      prev := prev[b := HEAD];
      prev := prev[next[HEAD] := b];
      next := next[HEAD := b];
      clock := clock + 1;
      released := released[b := clock];
      ring := MovedToFront(ring, p);
    }

    /** bread, for a caller that finds the buffer of the block unlocked. */
    method Bread(blockno: nat) returns (r: Option<nat>)
      requires Valid() && blockno < |disk|
      requires forall i | 0 <= i < NBUF && Is(bufs[i], ROOTDEV, blockno) :: !bufs[i].locked
      modifies this`bufs
      ensures Valid()
      ensures r.None? <==> forall i | 0 <= i < NBUF :: !Is(old(bufs)[i], ROOTDEV, blockno) && !Recyclable(old(bufs)[i])
      ensures r.None? ==> bufs == old(bufs)
      ensures r.Some? ==>
                && r.value < NBUF
                && (Is(old(bufs)[r.value], ROOTDEV, blockno) || LeastRecent(old(bufs), released, r.value))
                && bufs == old(bufs)[r.value := bufs[r.value]]
                && bufs[r.value].locked && Is(bufs[r.value], ROOTDEV, blockno)
                && bufs[r.value].valid && bufs[r.value].data == View(old(bufs), disk, blockno)
                && bufs[r.value].refcnt ==
                     (if Is(old(bufs)[r.value], ROOTDEV, blockno) then old(bufs)[r.value].refcnt else 0) + 1
                && bufs[r.value].dirty == (Is(old(bufs)[r.value], ROOTDEV, blockno) && old(bufs)[r.value].dirty)
      ensures forall x | 0 <= x < |disk| :: View(bufs, disk, x) == View(old(bufs), disk, x)
    {
      r := Bget(ROOTDEV, blockno);
      if r.Some? {
        assert BufOk(old(bufs)[r.value], disk);
        Lock(r.value);
        Fill(r.value);
      }
    }
  }
}
