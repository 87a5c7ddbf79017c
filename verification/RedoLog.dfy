/** log.c on top of the buffer cache: transactions, commit and recovery. */
module RedoLog {
  import opened Params
  import opened DiskLog
  import BC = BufferCache
  import LruRing
  import GroupCommit

  type Bufs = seq<BC.Buf>

  /** Nobody references a buffer: the state commit finds when no other process is in bio.c. */
  ghost predicate Quiet(bufs: Bufs) {
    forall i | 0 <= i < |bufs| :: bufs[i].refcnt == 0 && !bufs[i].locked
  }

  /** Nobody references a buffer of block x. */
  ghost predicate NotHeld(bufs: Bufs, x: nat) {
    forall i | 0 <= i < |bufs| && bufs[i].refcnt > 0 :: bufs[i].blockno != x
  }

  /** The same processes hold the same buffers. */
  ghost predicate SameHolders(before: Bufs, after: Bufs) {
    && |before| == |after|
    && forall i | 0 <= i < |before| ::
         after[i].refcnt == before[i].refcnt && after[i].locked == before[i].locked
  }

  ghost predicate IsDirty(bufs: Bufs, x: nat) {
    exists i | 0 <= i < |bufs| :: bufs[i].dirty && bufs[i].blockno == x
  }

  ghost predicate AllClean(bufs: Bufs) {
    forall i | 0 <= i < |bufs| :: !bufs[i].dirty
  }

  /** Some buffer holds block x or can be given to it. */
  ghost predicate Room(bufs: Bufs, x: nat) {
    exists i | 0 <= i < |bufs| :: BC.Is(bufs[i], BC.ROOTDEV, x) || BC.Recyclable(bufs[i])
  }

  /** The dirty buffers are exactly those of the logged blocks. */
  ghost predicate Pinned(bufs: Bufs, bs: seq<nat>) {
    && (forall k | 0 <= k < |bs| :: IsDirty(bufs, bs[k]))
    && (forall i | 0 <= i < |bufs| && bufs[i].dirty :: bufs[i].blockno in bs)
  }

  /** Blocks a header may list, as far as the blocks themselves go. */
  ghost predicate Homes(l: Layout, length: nat, bs: seq<nat>) {
    && Distinct(bs)
    && forall i | 0 <= i < |bs| :: bs[i] < length && !InLog(l, bs[i])
  }

  lemma {:induction false} CleanView(bufs: Bufs, disk: Disk, x: nat)
    requires BC.BufsOk(bufs, disk) && Quiet(bufs) && x < |disk| && !IsDirty(bufs, x)
    ensures BC.View(bufs, disk, x) == disk[x]
  {
    if i :| 0 <= i < NBUF && BC.Caches(bufs[i], x) {
      BC.ViewCached(bufs, disk, i);
      assert BC.BufOk(bufs[i], disk);
    }
  }

  /** Fewer pinned blocks than buffers leave a buffer to recycle. */
  lemma {:induction false} PinsLeaveRoom(bufs: Bufs, disk: Disk, bs: seq<nat>)
    requires BC.BufsOk(bufs, disk) && Quiet(bufs) && Pinned(bufs, bs) && |bs| < NBUF
    ensures exists i | 0 <= i < NBUF :: BC.Recyclable(bufs[i])
  {
    if forall i | 0 <= i < NBUF :: bufs[i].dirty {
      var at := seq(NBUF, i requires 0 <= i < NBUF => Position(bs, bufs[i].blockno));
      forall i, j | 0 <= i < j < NBUF ensures at[i] != at[j] {
        assert BC.BufOk(bufs[i], disk) && BC.BufOk(bufs[j], disk);
        assert !BC.Is(bufs[j], bufs[i].dev, bufs[i].blockno);
      }
      LruRing.DistinctBelow(at, |bs|);
    } else {
      var i :| 0 <= i < NBUF && !bufs[i].dirty;
      assert BC.Recyclable(bufs[i]);
    }
  }

  /** As many pinned blocks as buffers leave none, so no other block can be read. */
  lemma {:induction false} PinsFillCache(bufs: Bufs, disk: Disk, bs: seq<nat>, x: nat)
    requires BC.BufsOk(bufs, disk) && Pinned(bufs, bs) && Distinct(bs) && |bs| == NBUF && x !in bs
    ensures !Room(bufs, x)
  {
    var at := seq(NBUF, k requires 0 <= k < NBUF => BufferOf(bufs, bs[k]));
    forall i | 0 <= i < NBUF ensures bufs[i].dirty {
      if !bufs[i].dirty {
        var more := at + [i];
        forall j, k | 0 <= j < k < |more| ensures more[j] != more[k] {
          assert k < NBUF ==> bufs[more[j]].blockno == bs[j] && bufs[more[k]].blockno == bs[k];
        }
        LruRing.DistinctBelow(more, NBUF);
      }
    }
  }

  ghost function BufferOf(bufs: Bufs, x: nat): (i: nat)
    requires IsDirty(bufs, x)
    ensures i < |bufs| && bufs[i].dirty && bufs[i].blockno == x
  {
    var i :| 0 <= i < |bufs| && bufs[i].dirty && bufs[i].blockno == x;
    i
  }

  /** Nobody but the holder of buffers a and b references a buffer. */
  ghost predicate OnlyHeld(bufs: Bufs, a: nat, b: nat) {
    && a < |bufs| && b < |bufs| && a != b
    && bufs[a].locked && bufs[a].valid && bufs[a].refcnt == 1
    && bufs[b].locked && bufs[b].valid && bufs[b].refcnt == 1
    && forall i | 0 <= i < |bufs| && i != a && i != b :: bufs[i].refcnt == 0 && !bufs[i].locked
  }

  /** Read the log block, then the home block. */
  method ReadPair(cache: BC.BufferCache, logged: nat, home: nat) returns (ok: bool, a: nat, b: nat)
    requires cache.Valid() && Quiet(cache.bufs)
    requires logged != home && logged < |cache.disk| && home < |cache.disk|
    modifies cache`bufs
    ensures ok ==> Room(old(cache.bufs), logged)
    ensures Room(old(cache.bufs), logged) && IsDirty(old(cache.bufs), home) ==> ok
    ensures (forall i | 0 <= i < NBUF :: BC.Recyclable(old(cache.bufs)[i])) ==> ok
    ensures ok ==>
              && cache.Valid() && OnlyHeld(cache.bufs, a, b)
              && cache.bufs[a].blockno == logged && cache.bufs[a].data == BC.View(old(cache.bufs), cache.disk, logged)
              && cache.bufs[b].blockno == home && cache.bufs[b].data == BC.View(old(cache.bufs), cache.disk, home)
              && (forall x | 0 <= x < |cache.disk| ::
                    BC.View(cache.bufs, cache.disk, x) == BC.View(old(cache.bufs), cache.disk, x))
              && forall x: nat :: IsDirty(cache.bufs, x) == IsDirty(old(cache.bufs), x)
  {
    b := 0;
    ok, a := ReadBlock(cache, logged);
    if !ok {
      assert !BC.Recyclable(old(cache.bufs)[0]);
      return;
    }
    ghost var other := if a == 0 then 1 else 0;
    assert cache.bufs[other] == old(cache.bufs)[other];
    if IsDirty(old(cache.bufs), home) {
      ghost var i := BufferOf(cache.bufs, home);
      assert BC.BufOk(cache.bufs[i], cache.disk);
      assert BC.Is(cache.bufs[i], BC.ROOTDEV, home);
    }
    ok, b := ReadBlock(cache, home);
  }

  /** bread, seen from outside: nothing becomes dirty or clean. */
  method ReadBlock(cache: BC.BufferCache, x: nat) returns (ok: bool, a: nat)
    requires cache.Valid() && x < |cache.disk|
    requires NotHeld(cache.bufs, x)
    modifies cache`bufs
    ensures ok <==> Room(old(cache.bufs), x)
    ensures ok ==>
              && cache.Valid() && a < NBUF && cache.bufs == old(cache.bufs)[a := cache.bufs[a]]
              && old(cache.bufs)[a].refcnt == 0 && cache.bufs[a].refcnt == 1
              && cache.bufs[a].locked && cache.bufs[a].valid
              && cache.bufs[a].blockno == x && cache.bufs[a].data == BC.View(old(cache.bufs), cache.disk, x)
              && (forall y | 0 <= y < |cache.disk| ::
                    BC.View(cache.bufs, cache.disk, y) == BC.View(old(cache.bufs), cache.disk, y))
              && forall y: nat :: IsDirty(cache.bufs, y) == IsDirty(old(cache.bufs), y)
  {
    forall i | 0 <= i < NBUF && BC.Is(cache.bufs[i], BC.ROOTDEV, x) ensures !cache.bufs[i].locked {
      assert BC.BufOk(cache.bufs[i], cache.disk);
    }
    var r := cache.Bread(x);
    ok, a := r.Some?, if r.Some? then r.value else 0;
    if ok {
      Rebound(old(cache.bufs), cache.bufs, cache.disk, a);
    }
  }

  /** Giving a clean buffer to another block, or reading a block again, dirties and cleans nothing. */
  lemma {:induction false} Rebound(before: Bufs, after: Bufs, disk: Disk, i: nat)
    requires i < |before| == |after| && after == before[i := after[i]]
    requires after[i].dirty ==> before[i].dirty && after[i].blockno == before[i].blockno
    requires before[i].dirty ==> after[i].dirty
    ensures forall x: nat :: IsDirty(after, x) == IsDirty(before, x)
  {
    forall x: nat ensures IsDirty(after, x) == IsDirty(before, x) {
      if IsDirty(before, x) {
        assert after[BufferOf(before, x)].blockno == x;
      }
      if IsDirty(after, x) {
        assert before[BufferOf(after, x)].blockno == x;
      }
    }
  }

  /** Copy the data of one held buffer into the other, write that one, and release both. */
  method CopyAndRelease(cache: BC.BufferCache, src: nat, dst: nat)
    requires cache.Valid() && OnlyHeld(cache.bufs, src, dst)
    requires !cache.bufs[src].dirty ==> cache.bufs[src].data == cache.disk[cache.bufs[src].blockno]
    requires cache.bufs[src].blockno != cache.bufs[dst].blockno
    modifies cache
    ensures cache.Valid() && Quiet(cache.bufs)
    ensures cache.disk == old(cache.disk)[old(cache.bufs)[dst].blockno := old(cache.bufs)[src].data]
    ensures cache.writes == old(cache.writes) + [cache.disk]
    ensures forall x | 0 <= x < |cache.disk| && x != old(cache.bufs)[dst].blockno ::
              BC.View(cache.bufs, cache.disk, x) == BC.View(old(cache.bufs), old(cache.disk), x)
    ensures BC.View(cache.bufs, cache.disk, old(cache.bufs)[dst].blockno) == old(cache.bufs)[src].data
    ensures forall x: nat | x != old(cache.bufs)[dst].blockno :: IsDirty(cache.bufs, x) == IsDirty(old(cache.bufs), x)
    ensures !IsDirty(cache.bufs, old(cache.bufs)[dst].blockno)
  {
    cache.Modify(dst, cache.bufs[src].data);
    cache.Bwrite(dst);
    ReleaseBoth(cache, src, dst);
    Cleaned(old(cache.bufs), cache.bufs, old(cache.disk), src, dst);
  }

  method ReleaseBoth(cache: BC.BufferCache, a: nat, b: nat)
    requires cache.Valid() && OnlyHeld(cache.bufs, a, b)
    requires !cache.bufs[a].dirty ==> cache.bufs[a].data == cache.disk[cache.bufs[a].blockno]
    requires !cache.bufs[b].dirty ==> cache.bufs[b].data == cache.disk[cache.bufs[b].blockno]
    modifies cache`bufs, cache`next, cache`prev, cache`ring, cache`released, cache`clock
    ensures cache.Valid() && Quiet(cache.bufs)
    ensures forall i | 0 <= i < NBUF ::
              cache.bufs[i].dirty == old(cache.bufs)[i].dirty && cache.bufs[i].blockno == old(cache.bufs)[i].blockno
    ensures forall x | 0 <= x < |cache.disk| ::
              BC.View(cache.bufs, cache.disk, x) == BC.View(old(cache.bufs), cache.disk, x)
  {
    cache.Brelse(a);
    cache.Brelse(b);
  }

  lemma {:induction false} Cleaned(before: Bufs, after: Bufs, disk: Disk, src: nat, dst: nat)
    requires BC.BufsOk(before, disk) && |after| == |before|
    requires src < |before| && dst < |before| && src != dst && before[dst].valid
    requires after[dst].blockno == before[dst].blockno && !after[dst].dirty
    requires forall i | 0 <= i < |before| && i != dst ::
               after[i].dirty == before[i].dirty && after[i].blockno == before[i].blockno
    ensures forall x: nat | x != before[dst].blockno :: IsDirty(after, x) == IsDirty(before, x)
    ensures !IsDirty(after, before[dst].blockno)
  {
    var home := before[dst].blockno;
    forall x: nat | x != home ensures IsDirty(after, x) == IsDirty(before, x) {
      if IsDirty(before, x) {
        assert after[BufferOf(before, x)].blockno == x;
      }
      if IsDirty(after, x) {
        assert before[BufferOf(after, x)].blockno == x;
      }
    }
    forall i | 0 <= i < |after| && after[i].dirty ensures after[i].blockno != home {
      assert BC.BufOk(before[i], disk) && BC.BufOk(before[dst], disk);
      assert !BC.Is(before[i], before[dst].dev, before[dst].blockno);
    }
  }

  /** Copy one block over another through the cache, as one round of write_log (toLog) or of
      install_trans does: read the log block, read the home block, copy, write, release both. */
  method CopyBlock(cache: BC.BufferCache, logged: nat, home: nat, toLog: bool) returns (ok: bool)
    requires cache.Valid() && Quiet(cache.bufs)
    requires logged != home && logged < |cache.disk| && home < |cache.disk|
    modifies cache
    ensures ok ==> Room(old(cache.bufs), logged)
    ensures Room(old(cache.bufs), logged) && IsDirty(old(cache.bufs), home) ==> ok
    ensures (forall i | 0 <= i < NBUF :: BC.Recyclable(old(cache.bufs)[i])) ==> ok
    ensures ok ==>
              var dst, src := if toLog then logged else home, if toLog then home else logged;
              && cache.Valid() && Quiet(cache.bufs)
              && cache.disk == old(cache.disk)[dst := BC.View(old(cache.bufs), old(cache.disk), src)]
              && cache.writes == old(cache.writes) + [cache.disk]
              && (forall x | 0 <= x < |cache.disk| && x != dst ::
                    BC.View(cache.bufs, cache.disk, x) == BC.View(old(cache.bufs), old(cache.disk), x))
              && BC.View(cache.bufs, cache.disk, dst) == BC.View(old(cache.bufs), old(cache.disk), src)
              && (forall x: nat | x != dst :: IsDirty(cache.bufs, x) == IsDirty(old(cache.bufs), x))
              && !IsDirty(cache.bufs, dst)
  {
    var lbuf, dbuf;
    ok, lbuf, dbuf := ReadPair(cache, logged, home);
    if !ok {
      return;
    }
    var src, dst := if toLog then dbuf else lbuf, if toLog then lbuf else dbuf;
    if !cache.bufs[src].dirty {
      ghost var x := cache.bufs[src].blockno;
      if IsDirty(old(cache.bufs), x) {
        OneBuffer(cache.bufs, cache.disk, src, BufferOf(cache.bufs, x));
        assert false;
      }
      CleanView(old(cache.bufs), cache.disk, x);
    }
    CopyAndRelease(cache, src, dst);
  }

  lemma {:induction false} OneBuffer(bufs: Bufs, disk: Disk, i: nat, j: nat)
    requires BC.BufsOk(bufs, disk) && i < NBUF && j < NBUF && bufs[i].valid && bufs[j].valid
    requires bufs[i].blockno == bufs[j].blockno
    ensures i == j
  {
    assert BC.BufOk(bufs[i], disk) && BC.BufOk(bufs[j], disk);
    assert BC.Is(bufs[j], bufs[i].dev, bufs[i].blockno);
  }

  /** The loop of write_head: n and the block numbers go into the header block. */
  method StoreHeader(was: Block, n: nat, block: seq<nat>) returns (data: Block)
    requires n <= LOGSIZE == |block|
    ensures data == HeaderBlock(block[..n], was)
  {
    data := was[0 := n];
    for i := 0 to n
      invariant |data| == WORDS && data[0] == n
      invariant forall k | 0 <= k < i :: data[1 + k] == block[k]
      invariant forall k | i < k < WORDS :: data[k] == was[k]
    {
      data := data[1 + i := block[i]];
    }
  }

  /** The loop of read_head. */
  method LoadHeader(data: Block, was: seq<nat>) returns (n: nat, block: seq<nat>)
    requires GoodHeader(data) && |was| == LOGSIZE
    ensures n <= LOGSIZE == |block| && block[..n] == Listed(data)
  {
    n, block := data[0], was;
    for i := 0 to n
      invariant |block| == LOGSIZE
      invariant forall k | 0 <= k < i :: block[k] == data[1 + k]
    {
      block := block[i := data[1 + i]];
    }
  }

  /** The list bs' is bs with x, once. */
  predicate ListedToo(bs: seq<nat>, bs': seq<nat>, x: nat) {
    (x in bs ==> bs' == bs) && (x !in bs ==> bs' == bs + [x])
  }

  class Log {
    const layout: Layout
    const cache: BC.BufferCache
    var n: nat
    var block: seq<nat>
    var outstanding: nat
    var committing: bool

    /** The file system as system calls see it: the cached copy of every block outside the log. */
    ghost function Current(): FileSystem
      reads this, cache
    {
      map x | 0 <= x < |cache.disk| && !InLog(layout, x) :: BC.View(cache.bufs, cache.disk, x)
    }

    /** The in-memory header lists distinct blocks outside the log. They need not fit in the log:
        log_write tests for that before it takes log.lock. */
    ghost predicate ListOk()
      reads this, cache
    {
      && |block| == LOGSIZE && n <= LOGSIZE
      && 1 <= layout.size && layout.start + layout.size <= |cache.disk|
      && Homes(layout, |cache.disk|, block[..n])
    }

    /** The same when they fit. */
    ghost predicate HeaderOk()
      reads this, cache
    {
      && |block| == LOGSIZE && n <= LOGSIZE
      && 1 <= layout.size && layout.start + layout.size <= |cache.disk|
      && Targets(layout, |cache.disk|, block[..n])
    }

    /** Between the disk writes of commit: nothing is listed on disk, and the dirty buffers are the
        logged blocks. */
    ghost predicate Valid()
      reads this, cache
    {
      && cache.Valid()
      && ListOk()
      && GoodHeader(cache.disk[layout.start]) && Listed(cache.disk[layout.start]) == []
      && Pinned(cache.bufs, block[..n])
      && (committing ==> outstanding == 0)
    }

    /** initlog on a machine that just started: the cache is empty and the disk may hold a
        committed transaction. */
    constructor (l: Layout, c: BC.BufferCache)
      requires c.Valid() && WellFormed(l, c.disk) && c.writes == []
      requires forall i | 0 <= i < NBUF :: BC.Recyclable(c.bufs[i]) && !c.bufs[i].locked
      modifies c
      ensures layout == l && cache == c && Valid()
      ensures n == 0 && outstanding == 0 && !committing && Quiet(cache.bufs)
      ensures cache.writes == RecoveryWrites(l, old(c.disk))
      ensures Home(layout, cache.disk) == Logical(l, old(c.disk)) == Current()
    {
      layout := l;
      cache := c;
      n := 0;
      block := seq(LOGSIZE, _ => 0);
      outstanding := 0;
      committing := false;
      new;
      RecoverFromLog();
    }

    method RecoverFromLog()
      requires cache.Valid() && WellFormed(layout, cache.disk) && cache.writes == []
      requires Quiet(cache.bufs) && AllClean(cache.bufs)
      requires |block| == LOGSIZE && outstanding == 0 && !committing
      modifies this`n, this`block, cache
      ensures Valid() && n == 0 && Quiet(cache.bufs)
      ensures cache.writes == RecoveryWrites(layout, old(cache.disk))
      ensures Home(layout, cache.disk) == Logical(layout, old(cache.disk)) == Current()
    {
      ReadHead();
      ghost var d := cache.disk;
      InstallingKeeps(layout, d, n);
      assert Listed(d[layout.start])[..n] == Listed(d[layout.start]);
      ErasingKeeps(layout, AfterInstall(layout, d, block[..n]));
      InstallAndErase();
      CleanCurrent();
    }

    /** With nothing dirty, system calls see the disk. */
    lemma {:induction false} CleanCurrent()
      requires cache.Valid() && Quiet(cache.bufs) && AllClean(cache.bufs)
      ensures Current() == Home(layout, cache.disk)
    {
      forall x: nat | x < |cache.disk| ensures BC.View(cache.bufs, cache.disk, x) == cache.disk[x] {
        CleanView(cache.bufs, cache.disk, x);
      }
    }

    lemma {:induction false} PendingCurrent()
      requires cache.Valid() && ListOk() && Quiet(cache.bufs) && Pinned(cache.bufs, block[..n])
      ensures var bs := block[..n];
              Current() == Overwrite(Home(layout, cache.disk), bs, Latest(cache.bufs, cache.disk, bs))
    {
      Pending(cache.bufs, cache.disk, layout, block[..n]);
    }

    method ReadHead()
      requires cache.Valid() && WellFormed(layout, cache.disk)
      requires Quiet(cache.bufs) && AllClean(cache.bufs)
      requires |block| == LOGSIZE
      modifies this`n, this`block, cache`bufs, cache`next, cache`prev, cache`ring, cache`released, cache`clock
      ensures cache.Valid() && HeaderOk() && block[..n] == Listed(cache.disk[layout.start])
      ensures Quiet(cache.bufs) && AllClean(cache.bufs)
    {
      var r := cache.Bread(layout.start);
      assert BC.Recyclable(old(cache.bufs)[0]);
      var b := r.value;
      CleanView(old(cache.bufs), cache.disk, layout.start);
      n, block := LoadHeader(cache.bufs[b].data, block);
      cache.Brelse(b);
    }

    /** Store the in-memory header, through the cache, in the header block. */
    method WriteHead()
      requires cache.Valid() && HeaderOk() && Quiet(cache.bufs)
      requires !IsDirty(cache.bufs, layout.start) && Room(cache.bufs, layout.start)
      modifies cache
      ensures cache.Valid() && Quiet(cache.bufs)
      ensures cache.disk == AfterHead(layout, old(cache.disk), block[..n])
      ensures cache.writes == old(cache.writes) + [cache.disk]
      ensures forall x: nat :: IsDirty(cache.bufs, x) == IsDirty(old(cache.bufs), x)
      ensures AllClean(old(cache.bufs)) ==> AllClean(cache.bufs)
      ensures Pinned(old(cache.bufs), block[..n]) ==> Pinned(cache.bufs, block[..n])
    {
      var r := cache.Bread(layout.start);
      var b := r.value;
      CleanView(old(cache.bufs), cache.disk, layout.start);
      var data := StoreHeader(cache.bufs[b].data, n, block);
      cache.Modify(b, data);
      cache.Bwrite(b);
      cache.Brelse(b);
      SameDirt(old(cache.bufs), cache.bufs, b);
    }

    /** Copy every logged block home. Either the home blocks are pinned and the cache has room to
        spare, as in commit, or nothing is dirty, as in recovery. */
    method InstallTrans()
      requires cache.Valid() && HeaderOk() && Quiet(cache.bufs)
      requires (Pinned(cache.bufs, block[..n]) && n < NBUF) || AllClean(cache.bufs)
      modifies cache
      ensures cache.Valid() && Quiet(cache.bufs)
      ensures AllClean(cache.bufs)
      ensures cache.disk == AfterInstall(layout, old(cache.disk), block[..n])
      ensures cache.writes == old(cache.writes) + InstallWrites(layout, old(cache.disk), block[..n])
    {
      ghost var pinned := Pinned(cache.bufs, block[..n]) && n < NBUF;
      ghost var d := cache.disk;
      assert block[0..n] == block[..n] && block[..0] == [];
      for tail := 0 to n
        invariant Installing(d, old(cache.writes), tail, pinned)
      {
        InstallNext(d, old(cache.writes), tail, pinned);
      }
    }

    /** The state of install_trans when tail blocks are at home. */
    ghost predicate Installing(d: Disk, ws: seq<Disk>, tail: nat, pinned: bool)
      reads this, cache
    {
      && cache.Valid() && HeaderOk() && Quiet(cache.bufs) && tail <= n && |cache.disk| == |d|
      && (pinned ==> Pinned(cache.bufs, block[tail..n]) && n < NBUF) && (!pinned ==> AllClean(cache.bufs))
      && cache.disk == AfterInstall(layout, d, block[..tail])
      && cache.writes == ws + InstallWrites(layout, d, block[..tail])
    }

    method InstallNext(ghost d: Disk, ghost ws: seq<Disk>, tail: nat, ghost pinned: bool)
      requires Installing(d, ws, tail, pinned) && tail < n
      modifies cache
      ensures Installing(d, ws, tail + 1, pinned)
    {
      assert block[..n][..tail] == block[..tail] && block[..n][..tail + 1] == block[..tail + 1];
      InstallMore(layout, d, block[..n], tail);
      InstallOne(tail, d, pinned);
    }

    method InstallOne(tail: nat, ghost d: Disk, ghost pinned: bool)
      requires cache.Valid() && HeaderOk() && Quiet(cache.bufs) && tail < n
      requires pinned ==> Pinned(cache.bufs, block[tail..n]) && n < NBUF
      requires !pinned ==> AllClean(cache.bufs)
      requires |cache.disk| == |d| && cache.disk == AfterInstall(layout, d, block[..tail])
      modifies cache
      ensures cache.Valid() && Quiet(cache.bufs)
      ensures pinned ==> Pinned(cache.bufs, block[tail + 1..n])
      ensures !pinned ==> AllClean(cache.bufs)
      ensures cache.disk == old(cache.disk)[block[tail] := d[layout.start + tail + 1]]
      ensures cache.writes == old(cache.writes) + [cache.disk]
    {
      ghost var bs := block[tail..n];
      assert bs == block[..n][tail..] && block[..tail] == block[..n][..tail];
      InstallReady(cache.bufs, cache.disk, layout, block[..n], tail, d, pinned);
      var ok := CopyBlock(cache, layout.start + tail + 1, block[tail], false);
      if pinned {
        Unpinned(old(cache.bufs), cache.bufs, bs);
        assert bs[1..] == block[tail + 1..n];
      } else {
        StillClean(old(cache.bufs), cache.bufs, block[tail]);
      }
    }

    /** Either the listed blocks fit in the log, or they take up the whole cache. */
    ghost predicate Loggable()
      reads this, cache
    {
      ListOk() && (n < layout.size || (n == NBUF && 2 <= layout.size))
    }

    /** Copy the cached version of every logged block to the log. The log block needs a buffer of
        its own, so this fails exactly when the pinned blocks take up the whole cache. */
    method WriteLog() returns (ok: bool)
      requires cache.Valid() && Loggable() && Quiet(cache.bufs) && Pinned(cache.bufs, block[..n]) && 0 < n
      modifies cache
      ensures ok <==> n < NBUF
      ensures ok ==>
                var vals := Latest(old(cache.bufs), old(cache.disk), block[..n]);
                && cache.Valid() && Quiet(cache.bufs) && Pinned(cache.bufs, block[..n])
                && cache.disk == AfterLog(layout, old(cache.disk), vals)
                && cache.writes == old(cache.writes) + FillWrites(layout, old(cache.disk), vals)
    {
      ghost var d, vals := cache.disk, Latest(cache.bufs, cache.disk, block[..n]);
      for tail := 0 to n
        invariant Logging(d, vals, old(cache.writes), tail)
      {
        ok := LogOne(d, vals, old(cache.writes), tail);
        if !ok {
          return;
        }
      }
      assert vals[..n] == vals;
      ok := true;
    }

    /** The state of write_log when tail blocks are in the log: the cache still has every logged
        block pinned, with the contents it had at the start. */
    ghost predicate Logging(d: Disk, vals: seq<Block>, ws: seq<Disk>, tail: nat)
      reads this, cache
    {
      && cache.Valid() && Loggable() && Quiet(cache.bufs) && Pinned(cache.bufs, block[..n])
      && tail <= n == |vals| && (n == NBUF ==> tail == 0)
      && |cache.disk| == |d|
      && cache.disk == AfterLog(layout, d, vals[..tail])
      && cache.writes == ws + FillWrites(layout, d, vals[..tail])
      && forall i | 0 <= i < n :: BC.View(cache.bufs, cache.disk, block[..n][i]) == vals[i]
    }

    method LogOne(ghost d: Disk, ghost vals: seq<Block>, ghost ws: seq<Disk>, tail: nat) returns (ok: bool)
      requires Logging(d, vals, ws, tail) && tail < n
      modifies cache
      ensures ok <==> n < NBUF
      ensures ok ==> Logging(d, vals, ws, tail + 1)
    {
      assert block[..n][tail] == block[tail];
      ok := CopyToLog(tail);
      if ok {
        FillStep(layout, d, vals, tail);
      }
    }

    method CopyToLog(tail: nat) returns (ok: bool)
      requires cache.Valid() && Loggable() && Quiet(cache.bufs) && Pinned(cache.bufs, block[..n]) && tail < n
      requires n == NBUF ==> tail == 0
      modifies cache
      ensures ok <==> n < NBUF
      ensures ok ==>
                && cache.Valid() && Quiet(cache.bufs) && Pinned(cache.bufs, block[..n])
                && cache.disk ==
                     old(cache.disk)[layout.start + tail + 1 := BC.View(old(cache.bufs), old(cache.disk), block[tail])]
                && cache.writes == old(cache.writes) + [cache.disk]
                && forall i | 0 <= i < n ::
                     BC.View(cache.bufs, cache.disk, block[..n][i]) ==
                       BC.View(old(cache.bufs), old(cache.disk), block[..n][i])
    {
      ghost var bs := block[..n];
      LogReady(cache.bufs, cache.disk, layout, bs, tail);
      ok := CopyBlock(cache, layout.start + tail + 1, block[tail], true);
      if ok {
        StillPinned(old(cache.bufs), cache.bufs, bs, layout.start + tail + 1);
      }
    }

    /** commit, called by the last end_op with nobody else in bio.c: the disk goes through exactly
        the states of CommitWrites, and then holds what system calls have been seeing. A log smaller
        than LOGSIZE must not have been overrun; in a larger one only a full cache is in the way. */
    method Commit() returns (ok: bool)
      requires Valid() && committing && Quiet(cache.bufs)
      requires layout.size >= LOGSIZE || n < layout.size
      modifies this`n, cache
      ensures ok <==> old(n) < NBUF
      ensures ok ==>
                && Valid() && n == 0 && Quiet(cache.bufs)
                && Current() == old(Current()) == Home(layout, cache.disk)
                && (old(n) == 0 ==> cache.writes == old(cache.writes))
                && (old(n) > 0 ==>
                      var bs := block[..old(n)];
                      cache.writes == old(cache.writes) +
                        CommitWrites(layout, old(cache.disk), bs, Latest(old(cache.bufs), old(cache.disk), bs)))
    {
      Pending(cache.bufs, cache.disk, layout, block[..n]);
      if n > 0 {
        ok := CommitSome();
      } else {
        CleanCurrent();
        ok := true;
      }
    }

    /** The body of commit's if. */
    method CommitSome() returns (ok: bool)
      requires Valid() && Loggable() && committing && Quiet(cache.bufs) && 0 < n
      modifies this`n, cache
      ensures ok <==> old(n) < NBUF
      ensures ok ==>
                && Valid() && n == 0 && Quiet(cache.bufs)
                && Current() == old(Current()) == Home(layout, cache.disk)
                && var bs := block[..old(n)];
                   cache.writes == old(cache.writes) +
                     CommitWrites(layout, old(cache.disk), bs, Latest(old(cache.bufs), old(cache.disk), bs))
    {
      ghost var d, bs := cache.disk, block[..n];
      ghost var vals := Latest(cache.bufs, d, bs);
      PendingCurrent();
      ok := WriteTransaction();
      if ok {
        CommittedDisk(layout, d, bs, vals, cache.disk);
        CleanCurrent();
      }
    }

    /** All the writes of a commit. */
    method WriteTransaction() returns (ok: bool)
      requires cache.Valid() && Loggable() && Quiet(cache.bufs) && Pinned(cache.bufs, block[..n]) && 0 < n
      modifies this`n, cache
      ensures ok <==> old(n) < NBUF
      ensures ok ==>
                var d, bs := old(cache.disk), block[..old(n)];
                var vals := Latest(old(cache.bufs), d, bs);
                && cache.Valid() && Quiet(cache.bufs) && AllClean(cache.bufs) && n == 0
                && cache.disk ==
                     AfterHead(layout, AfterInstall(layout, AfterHead(layout, AfterLog(layout, d, vals), bs), bs), [])
                && cache.writes == old(cache.writes) + CommitWrites(layout, d, bs, vals)
    {
      ghost var d, bs, ws := cache.disk, block[..n], cache.writes;
      ghost var vals := Latest(cache.bufs, d, bs);
      ok := LogAndMark();
      if ok {
        InstallAndErase();
        AllWrites(layout, ws, d, bs, vals);
      }
    }

    /** The first half of commit, up to the header write that makes the transaction happen. */
    method LogAndMark() returns (ok: bool)
      requires cache.Valid() && Loggable() && Quiet(cache.bufs) && Pinned(cache.bufs, block[..n]) && 0 < n
      modifies cache
      ensures ok <==> n < NBUF
      ensures ok ==>
                var vals := Latest(old(cache.bufs), old(cache.disk), block[..n]);
                && cache.Valid() && Quiet(cache.bufs) && Pinned(cache.bufs, block[..n])
                && cache.disk == AfterHead(layout, AfterLog(layout, old(cache.disk), vals), block[..n])
                && cache.writes == old(cache.writes) + FillWrites(layout, old(cache.disk), vals) + [cache.disk]
    {
      ok := WriteLog();
      if ok {
        PinsLeaveRoom(cache.bufs, cache.disk, block[..n]);
        HeaderSpot(cache.bufs, layout, block[..n]);
        WriteHead();
      }
    }

    /** The second half of commit, and all of recovery after read_head. */
    method InstallAndErase()
      requires cache.Valid() && HeaderOk() && Quiet(cache.bufs)
      requires (Pinned(cache.bufs, block[..n]) && n < NBUF) || AllClean(cache.bufs)
      modifies this`n, cache
      ensures cache.Valid() && Quiet(cache.bufs) && AllClean(cache.bufs) && n == 0
      ensures cache.disk == AfterHead(layout, AfterInstall(layout, old(cache.disk), block[..old(n)]), [])
      ensures cache.writes == old(cache.writes) + InstallWrites(layout, old(cache.disk), block[..old(n)]) + [cache.disk]
    {
      InstallTrans();
      n := 0;
      assert BC.Recyclable(cache.bufs[0]);
      assert block[..0] == [];
      WriteHead();
    }

    /** One turn of the loop in begin_op: start, or sleep until a commit or an end_op wakes it. */
    method BeginOp() returns (started: bool)
      requires Valid()
      modifies this`outstanding
      ensures Valid()
      ensures started <==> !committing && n + old(outstanding) * MAXOPBLOCKS + MAXOPBLOCKS <= LOGSIZE
      ensures outstanding == old(outstanding) + if started then 1 else 0
    {
      if committing || n + (outstanding + 1) * MAXOPBLOCKS > LOGSIZE {
        return false;
      }
      outstanding := outstanding + 1;
      return true;
    }

    /** end_op up to the release of log.lock: the last operation out must call Commit and then
        FinishCommit. */
    method EndOp() returns (doCommit: bool)
      requires Valid() && outstanding > 0
      modifies this`outstanding, this`committing
      ensures Valid() && !old(committing)
      ensures outstanding == old(outstanding) - 1
      ensures doCommit == committing == (outstanding == 0)
    {
      outstanding := outstanding - 1;
      doCommit := outstanding == 0;
      if doCommit {
        committing := true;
      }
    }

    method FinishCommit()
      requires Valid() && committing && n == 0
      modifies this`committing
      ensures Valid() && !committing
    {
      committing := false;
    }

    /** log_write on a buffer the caller holds, when no other operation comes between its guard and its
        update. False stands for its panics. */
    method LogWrite(b: nat) returns (ok: bool)
      requires Valid() && b < NBUF && cache.bufs[b].locked && cache.bufs[b].valid
      requires !InLog(layout, cache.bufs[b].blockno)
      modifies this`n, this`block, cache`bufs
      ensures ok <==> old(n) < LOGSIZE && old(n) < layout.size - 1 && outstanding >= 1
      ensures !ok ==> n == old(n) && block == old(block) && cache.bufs == old(cache.bufs)
      ensures ok ==>
                && Valid() && n < layout.size
                && ListedToo(old(block)[..old(n)], block[..n], cache.bufs[b].blockno)
                && cache.bufs == old(cache.bufs)[b := old(cache.bufs)[b].(dirty := true)]
                && Current() == old(Current())
    {
      ok := PassGuards();
      if ok {
        ListAndPin(b);
      }
    }

    /** The guards of log_write, tested without log.lock. */
    method PassGuards() returns (ok: bool)
      ensures ok <==> n < LOGSIZE && n < layout.size - 1 && outstanding >= 1
    {
      if n >= LOGSIZE || n >= layout.size - 1 {
        return false;
      }
      return outstanding >= 1;
    }

    /** The part of log_write under log.lock. Other operations may have filled the log since the guards
        were tested, but each has calls left only while the header has room for them. */
    method ListAndPin(b: nat)
      requires Valid() && b < NBUF && cache.bufs[b].locked && cache.bufs[b].valid
      requires !InLog(layout, cache.bufs[b].blockno) && n < LOGSIZE
      modifies this`n, this`block, cache`bufs
      ensures Valid() && Current() == old(Current()) && n <= old(n) + 1
      ensures ListedToo(old(block)[..old(n)], block[..n], cache.bufs[b].blockno)
      ensures cache.bufs == old(cache.bufs)[b := old(cache.bufs)[b].(dirty := true)]
    {
      var x := cache.bufs[b].blockno;
      assert BC.BufOk(cache.bufs[b], cache.disk);
      PinnedToo(cache.bufs, cache.bufs[b := cache.bufs[b].(dirty := true)], block[..n], b);
      HomesAbsorb(layout, |cache.disk|, block[..n], x);
      Record(x);
      cache.Pin(b);
    }

    /** The header update of log_write. */
    method Record(x: nat)
      requires |block| == LOGSIZE && n < LOGSIZE
      modifies this`n, this`block
      ensures |block| == LOGSIZE && n <= LOGSIZE && n <= old(n) + 1
      ensures block[..n] == GroupCommit.Absorb(old(block)[..old(n)], x)
    {
      var i := FindLogged(x);
      block := block[i := x];
      if i == n {
        n := n + 1;
      }
    }

    /** The loop of log_write that looks for the block in the header. */
    method FindLogged(x: nat) returns (i: nat)
      requires |block| == LOGSIZE && n <= LOGSIZE
      ensures i <= n
      ensures i < n ==> block[i] == x
      ensures i == n ==> x !in block[..n]
    {
      i := 0;
      while i < n
        invariant i <= n
        invariant x !in block[..i]
      {
        if block[i] == x {
          break;
        }
        i := i + 1;
      }
    }

    /** The typical use that log.c describes: bread, change the data, log_write, brelse. System
        calls see the new contents at once; the disk is not touched. */
    method Update(x: nat, data: Block) returns (ok: bool)
      requires Valid() && outstanding >= 1
      requires x < |cache.disk| && !InLog(layout, x) && NotHeld(cache.bufs, x)
      modifies this`n, this`block, cache`bufs, cache`next, cache`prev, cache`ring, cache`released, cache`clock
      ensures ok <==> Room(old(cache.bufs), x) && old(n) < LOGSIZE && old(n) < layout.size - 1
      ensures ok ==>
                && Valid() && SameHolders(old(cache.bufs), cache.bufs)
                && Current() == old(Current())[x := data]
                && ListedToo(old(block)[..old(n)], block[..n], x)
    {
      var b;
      ok, b := Acquire(x);
      if !ok {
        return;
      }
      Change(b, data);
      ok := LogWrite(b);
      if ok {
        Release(b);
      }
    }

    method Acquire(x: nat) returns (ok: bool, b: nat)
      requires Valid() && x < |cache.disk| && NotHeld(cache.bufs, x)
      modifies cache`bufs
      ensures ok <==> Room(old(cache.bufs), x)
      ensures ok ==>
                && Valid() && Current() == old(Current())
                && b < NBUF && cache.bufs[b].locked && cache.bufs[b].valid && cache.bufs[b].blockno == x
                && cache.bufs[b].refcnt == 1 && cache.bufs == old(cache.bufs)[b := cache.bufs[b]]
                && old(cache.bufs)[b].refcnt == 0
    {
      ok, b := ReadBlock(cache, x);
      if ok {
        SamePins(old(cache.bufs), cache.bufs, block[..n]);
      }
    }

    method Change(b: nat, data: Block)
      requires Valid() && b < NBUF && cache.bufs[b].locked && cache.bufs[b].valid
      requires !InLog(layout, cache.bufs[b].blockno)
      modifies cache`bufs
      ensures Valid() && Current() == old(Current())[cache.bufs[b].blockno := data]
      ensures cache.bufs == old(cache.bufs)[b := old(cache.bufs)[b].(data := data)]
    {
      cache.Modify(b, data);
      StayPinned(old(cache.bufs), cache.bufs, block[..n], b);
    }

    method Release(b: nat)
      requires Valid() && b < NBUF && cache.bufs[b].locked && cache.bufs[b].dirty
      modifies cache`bufs, cache`next, cache`prev, cache`ring, cache`released, cache`clock
      ensures Valid() && Current() == old(Current())
      ensures cache.bufs ==
              old(cache.bufs)[b := old(cache.bufs)[b].(locked := false, refcnt := old(cache.bufs)[b].refcnt - 1)]
    {
      cache.Brelse(b);
      StayPinned(old(cache.bufs), cache.bufs, block[..n], b);
    }
  }

  lemma {:induction false} HomesAbsorb(l: Layout, length: nat, bs: seq<nat>, x: nat)
    requires Homes(l, length, bs) && x < length && !InLog(l, x)
    ensures Homes(l, length, GroupCommit.Absorb(bs, x))
  {
  }

  /** Pinning one more buffer and listing its block keeps pins and list in step. */
  lemma {:induction false} PinnedToo(before: Bufs, after: Bufs, bs: seq<nat>, b: nat)
    requires Pinned(before, bs) && b < |before|
    requires after == before[b := before[b].(dirty := true)]
    ensures Pinned(after, GroupCommit.Absorb(bs, before[b].blockno))
  {
    var all := GroupCommit.Absorb(bs, before[b].blockno);
    forall k | 0 <= k < |all| ensures IsDirty(after, all[k]) {
      if k < |bs| {
        assert after[BufferOf(before, bs[k])].dirty;
      } else {
        assert after[b].dirty;
      }
    }
  }

  lemma {:induction false} SamePins(before: Bufs, after: Bufs, bs: seq<nat>)
    requires Pinned(before, bs)
    requires forall x: nat :: IsDirty(after, x) == IsDirty(before, x)
    ensures Pinned(after, bs)
  {
    forall i | 0 <= i < |after| && after[i].dirty ensures after[i].blockno in bs {
      assert IsDirty(after, after[i].blockno);
    }
  }

  lemma {:induction false} StayPinned(before: Bufs, after: Bufs, bs: seq<nat>, b: nat)
    requires Pinned(before, bs) && b < |before| == |after| && after == before[b := after[b]]
    requires before[b].dirty == after[b].dirty
    requires after[b].dirty ==> after[b].blockno == before[b].blockno
    ensures Pinned(after, bs)
  {
    forall k | 0 <= k < |bs| ensures IsDirty(after, bs[k]) {
      assert after[BufferOf(before, bs[k])].dirty;
    }
  }

  /** What system calls see is the disk with the logged blocks overwritten by their latest contents. */
  lemma {:induction false} Pending(bufs: Bufs, disk: Disk, l: Layout, bs: seq<nat>)
    requires BC.BufsOk(bufs, disk) && Quiet(bufs) && Pinned(bufs, bs) && Homes(l, |disk|, bs)
    ensures Overwrite(Home(l, disk), bs, Latest(bufs, disk, bs)) ==
            map x | 0 <= x < |disk| && !InLog(l, x) :: BC.View(bufs, disk, x)
    ensures bs == [] ==> AllClean(bufs)
  {
    forall x: nat | x < |disk| && x !in bs ensures BC.View(bufs, disk, x) == disk[x] {
      assert !IsDirty(bufs, x);
      CleanView(bufs, disk, x);
    }
  }

  lemma {:induction false} HeaderSpot(bufs: Bufs, l: Layout, bs: seq<nat>)
    requires Pinned(bufs, bs) && 1 <= l.size
    requires forall i | 0 <= i < |bs| :: !InLog(l, bs[i])
    ensures !IsDirty(bufs, l.start)
  {
    assert InLog(l, l.start);
  }

  lemma {:induction false} CommittedDisk(l: Layout, d: Disk, bs: seq<nat>, vals: seq<Block>, e: Disk)
    requires WellFormed(l, d) && Listed(d[l.start]) == [] && Targets(l, |d|, bs) && |vals| == |bs|
    requires var committed := AfterHead(l, AfterLog(l, d, vals), bs);
             e == AfterHead(l, AfterInstall(l, committed, bs), [])
    ensures WellFormed(l, e) && Listed(e[l.start]) == []
    ensures Home(l, e) == Overwrite(Home(l, d), bs, vals)
  {
    CommitStates(l, d, bs, vals, 2 * |bs| + 2);
  }

  lemma {:induction false} AllWrites(l: Layout, ws: seq<Disk>, d: Disk, bs: seq<nat>, vals: seq<Block>)
    requires |bs| <= LOGSIZE && l.start + |bs| < |d|
    requires (forall i | 0 <= i < |bs| :: bs[i] < |d|) && |vals| == |bs|
    ensures var marked := AfterHead(l, AfterLog(l, d, vals), bs);
            ws + FillWrites(l, d, vals) + [marked] + InstallWrites(l, marked, bs)
            + [AfterHead(l, AfterInstall(l, marked, bs), [])] == ws + CommitWrites(l, d, bs, vals)
  {
  }

  /** The latest contents of the logged blocks, as the cache has them. */
  ghost function Latest(bufs: Bufs, disk: Disk, bs: seq<nat>): (vals: seq<Block>)
    requires forall i | 0 <= i < |bs| :: bs[i] < |disk|
    ensures |vals| == |bs|
    ensures forall i | 0 <= i < |bs| :: vals[i] == BC.View(bufs, disk, bs[i])
  {
    seq(|bs|, i requires 0 <= i < |bs| => BC.View(bufs, disk, bs[i]))
  }

  lemma {:induction false} FillStep(l: Layout, d: Disk, vals: seq<Block>, tail: nat)
    requires l.start + |vals| < |d| && tail < |vals|
    ensures AfterLog(l, d, vals[..tail + 1]) == AfterLog(l, d, vals[..tail])[l.start + tail + 1 := vals[tail]]
    ensures FillWrites(l, d, vals[..tail + 1]) == FillWrites(l, d, vals[..tail]) + [AfterLog(l, d, vals[..tail + 1])]
  {
    assert vals[..tail + 1][..tail] == vals[..tail];
  }

  lemma {:induction false} InstallMore(l: Layout, d: Disk, bs: seq<nat>, tail: nat)
    requires l.start + |bs| < |d| && tail < |bs| && forall i | 0 <= i < |bs| :: bs[i] < |d|
    ensures var now, more := AfterInstall(l, d, bs[..tail]), AfterInstall(l, d, bs[..tail + 1]);
            && more == now[bs[tail] := d[l.start + tail + 1]]
            && InstallWrites(l, d, bs[..tail + 1]) == InstallWrites(l, d, bs[..tail]) + [more]
  {
    assert bs[..tail + 1][..tail] == bs[..tail];
  }

  lemma {:induction false} LogReady(bufs: Bufs, disk: Disk, l: Layout, bs: seq<nat>, tail: nat)
    requires BC.BufsOk(bufs, disk) && Quiet(bufs) && Pinned(bufs, bs)
    requires l.start + l.size <= |disk| && Homes(l, |disk|, bs) && tail < |bs| <= NBUF
    requires |bs| < l.size || (tail == 0 && 2 <= l.size)
    ensures bs[tail] != l.start + tail + 1 && l.start + tail + 1 < |disk| && bs[tail] < |disk|
    ensures Room(bufs, l.start + tail + 1) <==> |bs| < NBUF
    ensures IsDirty(bufs, bs[tail])
    ensures l.start + tail + 1 !in bs
  {
    assert InLog(l, l.start + tail + 1);
    if |bs| < NBUF {
      PinsLeaveRoom(bufs, disk, bs);
    } else {
      PinsFillCache(bufs, disk, bs, l.start + tail + 1);
    }
  }

  lemma {:induction false} StillPinned(before: Bufs, after: Bufs, bs: seq<nat>, x: nat)
    requires Pinned(before, bs) && x !in bs
    requires forall y: nat | y != x :: IsDirty(after, y) == IsDirty(before, y)
    requires !IsDirty(after, x)
    ensures Pinned(after, bs)
  {
    forall i | 0 <= i < |after| && after[i].dirty ensures after[i].blockno in bs {
      assert IsDirty(after, after[i].blockno);
      assert before[BufferOf(before, after[i].blockno)].dirty;
    }
  }

  /** When install_trans comes to the block at tail, the copies it needs can be had. */
  lemma {:induction false} InstallReady(bufs: Bufs, disk: Disk, l: Layout, bs: seq<nat>, tail: nat, d: Disk,
                                        pinned: bool)
    requires BC.BufsOk(bufs, disk) && Quiet(bufs)
    requires 1 <= l.size && l.start + l.size <= |d| == |disk| && Targets(l, |d|, bs) && tail < |bs|
    requires pinned ==> Pinned(bufs, bs[tail..]) && |bs| < NBUF
    requires !pinned ==> AllClean(bufs)
    requires disk == AfterInstall(l, d, bs[..tail])
    ensures bs[tail] != l.start + tail + 1 && l.start + tail + 1 < |disk| && bs[tail] < |disk|
    ensures Room(bufs, l.start + tail + 1)
    ensures pinned ==> IsDirty(bufs, bs[tail])
    ensures !pinned ==> forall i | 0 <= i < NBUF :: BC.Recyclable(bufs[i])
    ensures BC.View(bufs, disk, l.start + tail + 1) == d[l.start + tail + 1]
    ensures Distinct(bs[tail..])
  {
    var logged := l.start + tail + 1;
    assert InLog(l, logged);
    AfterInstallAt(l, d, bs[..tail], logged);
    if pinned {
      PinsLeaveRoom(bufs, disk, bs[tail..]);
      assert bs[tail..][0] == bs[tail];
    } else {
      assert BC.Recyclable(bufs[0]);
    }
    CleanView(bufs, disk, logged);
  }

  /** A clean buffer that stays clean changes nothing about which blocks are dirty. */
  lemma {:induction false} SameDirt(before: Bufs, after: Bufs, b: nat)
    requires b < |before| == |after| && after == before[b := after[b]] && !before[b].dirty && !after[b].dirty
    ensures forall x: nat :: IsDirty(after, x) == IsDirty(before, x)
    ensures AllClean(before) == AllClean(after)
    ensures forall bs :: Pinned(before, bs) ==> Pinned(after, bs)
  {
    forall i | 0 <= i < |after|
      ensures after[i].dirty == before[i].dirty && (after[i].dirty ==> after[i] == before[i])
    {
    }
  }

  lemma {:induction false} StillClean(before: Bufs, after: Bufs, home: nat)
    requires AllClean(before) && !IsDirty(after, home)
    requires forall x: nat | x != home :: IsDirty(after, x) == IsDirty(before, x)
    ensures AllClean(after)
  {
    forall i | 0 <= i < |after| ensures !after[i].dirty {
      assert after[i].dirty ==> IsDirty(after, after[i].blockno);
    }
  }

  /** Writing the first pinned block leaves the others pinned. */
  lemma {:induction false} Unpinned(before: Bufs, after: Bufs, bs: seq<nat>)
    requires bs != [] && Pinned(before, bs) && Distinct(bs)
    requires forall x: nat | x != bs[0] :: IsDirty(after, x) == IsDirty(before, x)
    requires !IsDirty(after, bs[0])
    ensures Pinned(after, bs[1..])
  {
    forall k | 0 <= k < |bs[1..]| ensures IsDirty(after, bs[1..][k]) {
      assert IsDirty(before, bs[k + 1]);
    }
    forall i | 0 <= i < |after| && after[i].dirty ensures after[i].blockno in bs[1..] {
      assert IsDirty(after, after[i].blockno);
      var j :| 0 <= j < |before| && before[j].dirty && before[j].blockno == after[i].blockno;
    }
  }
}
