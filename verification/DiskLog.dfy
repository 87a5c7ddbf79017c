/** Sizes shared by the file-system modules (param.h, fs.h). */
module Params {
  const MAXOPBLOCKS: nat := 10
  const LOGSIZE: nat := 3 * MAXOPBLOCKS
  const NBUF: nat := 3 * MAXOPBLOCKS

  /** A 512-byte disk block seen as 128 integers, the way log.c reads its header block. */
  const WORDS: nat := 128
  type Block = b: seq<int> | |b| == WORDS witness seq(WORDS, _ => 0)

  /** The disk as memide.c keeps it: one-block writes are atomic. */
  type Disk = seq<Block>
}

/** The on-disk redo log of log.c: what each disk write of commit and recovery does, what file
    system a disk stands for, and that only the header write of a commit changes it. */
module DiskLog {
  import opened Params

  /** The log area: the header block at start, data blocks after it; size counts the header. */
  datatype Layout = Layout(start: nat, size: nat)

  predicate InLog(l: Layout, x: nat) {
    l.start <= x < l.start + l.size
  }

  predicate Distinct(bs: seq<nat>) {
    forall i, j | 0 <= i < j < |bs| :: bs[i] != bs[j]
  }

  /** Home blocks a header may list: distinct blocks of the disk outside the log that fit in it. */
  ghost predicate Targets(l: Layout, length: nat, bs: seq<nat>) {
    && |bs| <= LOGSIZE
    && |bs| < l.size
    && Distinct(bs)
    && forall i | 0 <= i < |bs| :: bs[i] < length && !InLog(l, bs[i])
  }

  // ----- the header block -----

  /** The block write_head stores: n, the first n block numbers, and whatever was there after them. */
  function HeaderBlock(bs: seq<nat>, was: Block): Block
    requires |bs| <= LOGSIZE
  {
    seq(WORDS, i requires 0 <= i < WORDS =>
      if i == 0 then |bs| else if i <= |bs| then bs[i - 1] else was[i])
  }

  predicate GoodHeader(b: Block) {
    && 0 <= b[0] <= LOGSIZE
    && forall i | 1 <= i <= b[0] :: 0 <= b[i]
  }

  /** The block numbers read_head takes from a header block. */
  function Listed(b: Block): (bs: seq<nat>)
    requires GoodHeader(b)
  {
    seq(b[0], i requires 0 <= i < b[0] => b[1 + i])
  }

  lemma {:induction false} HeaderRoundTrip(bs: seq<nat>, was: Block)
    requires |bs| <= LOGSIZE
    ensures GoodHeader(HeaderBlock(bs, was)) && Listed(HeaderBlock(bs, was)) == bs
  {
    var h := HeaderBlock(bs, was);
    assert forall i | 1 <= i <= h[0] :: h[i] == bs[i - 1];
  }

  // ----- what a disk stands for -----

  /** A disk whose header a recovery may follow. */
  ghost predicate WellFormed(l: Layout, d: Disk) {
    && 1 <= l.size
    && l.start + l.size <= |d|
    && GoodHeader(d[l.start])
    && Targets(l, |d|, Listed(d[l.start]))
  }

  ghost function Position(bs: seq<nat>, x: nat): (i: nat)
    requires x in bs
    ensures i < |bs| && bs[i] == x
  {
    var i :| 0 <= i < |bs| && bs[i] == x;
    i
  }

  /** A file system: the contents of every block outside the log. */
  type FileSystem = map<nat, Block>

  ghost function Home(l: Layout, d: Disk): FileSystem {
    map x | 0 <= x < |d| && !InLog(l, x) :: d[x]
  }

  /** The file system that d stands for: a block listed in the header is the copy in the log. */
  ghost function Logical(l: Layout, d: Disk): FileSystem
    requires WellFormed(l, d)
  {
    var bs := Listed(d[l.start]);
    map x | 0 <= x < |d| && !InLog(l, x) ::
      if x in bs then d[l.start + 1 + Position(bs, x)] else d[x]
  }

  /** fs with block bs[i] replaced by vals[i]. */
  ghost function Overwrite(fs: FileSystem, bs: seq<nat>, vals: seq<Block>): FileSystem
    requires |bs| == |vals|
  {
    map x | x in fs :: if x in bs then vals[Position(bs, x)] else fs[x]
  }

  // ----- the disk after some of the writes -----

  /** After write_log has stored vals in the first log blocks. */
  function AfterLog(l: Layout, d: Disk, vals: seq<Block>): (e: Disk)
    requires l.start + |vals| < |d|
    ensures |e| == |d|
  {
    if vals == [] then d
    else
      var n := |vals|;
      AfterLog(l, d, vals[..n - 1])[l.start + n := vals[n - 1]]
  }

  /** After write_head has stored bs in the header. */
  function AfterHead(l: Layout, d: Disk, bs: seq<nat>): (e: Disk)
    requires l.start < |d| && |bs| <= LOGSIZE
    ensures |e| == |d|
  {
    d[l.start := HeaderBlock(bs, d[l.start])]
  }

  /** After install_trans has copied log block i to home block bs[i], for every i. */
  function AfterInstall(l: Layout, d: Disk, bs: seq<nat>): (e: Disk)
    requires l.start + |bs| < |d| && forall i | 0 <= i < |bs| :: bs[i] < |d|
    ensures |e| == |d|
  {
    if bs == [] then d
    else
      var n := |bs|;
      AfterInstall(l, d, bs[..n - 1])[bs[n - 1] := d[l.start + n]]
  }

  lemma {:induction false} AfterLogAt(l: Layout, d: Disk, vals: seq<Block>, x: nat)
    requires l.start + |vals| < |d| && x < |d|
    ensures AfterLog(l, d, vals)[x] ==
            if l.start < x <= l.start + |vals| then vals[x - l.start - 1] else d[x]
  {
    if vals != [] {
      AfterLogAt(l, d, vals[..|vals| - 1], x);
    }
  }

  lemma {:induction false} AfterInstallAt(l: Layout, d: Disk, bs: seq<nat>, x: nat)
    requires l.start + |bs| < |d| && forall i | 0 <= i < |bs| :: bs[i] < |d|
    requires Distinct(bs) && x < |d|
    ensures AfterInstall(l, d, bs)[x] == if x in bs then d[l.start + 1 + Position(bs, x)] else d[x]
  {
    if bs != [] {
      var n := |bs|;
      AfterInstallAt(l, d, bs[..n - 1], x);
      if x in bs && x != bs[n - 1] {
        assert x == bs[Position(bs, x)] && Position(bs, x) < n - 1;
        assert bs[..n - 1][Position(bs, x)] == x;
        assert x == bs[Position(bs[..n - 1], x)];
      }
    }
  }

  // ----- writing the log changes nothing, the header write changes everything -----

  /** As long as the header lists nothing, filling log blocks leaves the file system alone. */
  lemma {:induction false} FillingKeeps(l: Layout, d: Disk, vals: seq<Block>)
    requires WellFormed(l, d) && Listed(d[l.start]) == [] && |vals| < l.size
    ensures WellFormed(l, AfterLog(l, d, vals)) && Listed(AfterLog(l, d, vals)[l.start]) == []
    ensures Logical(l, AfterLog(l, d, vals)) == Logical(l, d) == Home(l, d)
  {
    var e := AfterLog(l, d, vals);
    forall x | 0 <= x < |d| && !(l.start < x <= l.start + |vals|) ensures e[x] == d[x] {
      AfterLogAt(l, d, vals, x);
    }
  }

  /** A disk whose header lists bs and whose log holds vals stands for the overwritten file system. */
  lemma {:induction false} LoggedCopiesRule(l: Layout, d: Disk, e: Disk, bs: seq<nat>, vals: seq<Block>)
    requires Targets(l, |d|, bs) && |vals| == |bs|
    requires l.start + l.size <= |d| == |e|
    requires GoodHeader(e[l.start]) && Listed(e[l.start]) == bs
    requires forall i | 0 <= i < |vals| :: e[l.start + 1 + i] == vals[i]
    requires forall x: nat | x < |d| && !InLog(l, x) :: e[x] == d[x]
    ensures WellFormed(l, e) && Logical(l, e) == Overwrite(Home(l, d), bs, vals)
  {
  }

  /** Storing the header makes the logged copies the file system, all at once. */
  lemma {:induction false} HeaderCommits(l: Layout, d: Disk, bs: seq<nat>, vals: seq<Block>)
    requires WellFormed(l, d) && Listed(d[l.start]) == []
    requires Targets(l, |d|, bs) && |vals| == |bs|
    ensures var e := AfterHead(l, AfterLog(l, d, vals), bs);
            && WellFormed(l, e) && Listed(e[l.start]) == bs
            && Logical(l, e) == Overwrite(Home(l, d), bs, vals)
  {
    var f := AfterLog(l, d, vals);
    var e := AfterHead(l, f, bs);
    HeaderRoundTrip(bs, f[l.start]);
    forall x: nat | x < |d| && !InLog(l, x) ensures e[x] == d[x] {
      AfterLogAt(l, d, vals, x);
    }
    forall i | 0 <= i < |vals| ensures e[l.start + 1 + i] == vals[i] {
      AfterLogAt(l, d, vals, l.start + 1 + i);
    }
    LoggedCopiesRule(l, d, e, bs, vals);
  }

  /** Overwriting some listed home blocks with their logged copies does not change the meaning. */
  lemma {:induction false} HomeCopiesAgree(l: Layout, d: Disk, e: Disk)
    requires WellFormed(l, d) && |e| == |d|
    requires forall x: nat | x < |d| && InLog(l, x) :: e[x] == d[x]
    requires var bs := Listed(d[l.start]);
             forall x: nat | x < |d| && !InLog(l, x) && x !in bs :: e[x] == d[x]
    ensures WellFormed(l, e) && Listed(e[l.start]) == Listed(d[l.start])
    ensures Logical(l, e) == Logical(l, d)
  {
    assert e[l.start] == d[l.start];
  }

  /** Copying any number of logged blocks home keeps the file system. */
  lemma {:induction false} InstallingKeeps(l: Layout, d: Disk, k: nat)
    requires WellFormed(l, d)
    requires k <= |Listed(d[l.start])|
    ensures var bs := Listed(d[l.start]);
            var e := AfterInstall(l, d, bs[..k]);
            && WellFormed(l, e) && Listed(e[l.start]) == bs
            && Logical(l, e) == Logical(l, d)
            && (k == |bs| ==> Home(l, e) == Logical(l, d))
  {
    var bs := Listed(d[l.start]);
    var done := bs[..k];
    var e := AfterInstall(l, d, done);
    forall x: nat | x < |d| && x !in done ensures e[x] == d[x] {
      AfterInstallAt(l, d, done, x);
    }
    assert forall x: nat | x < |d| && InLog(l, x) :: x !in done;
    HomeCopiesAgree(l, d, e);
    if k == |bs| {
      assert done == bs;
      forall x: nat | x in bs ensures e[x] == d[l.start + 1 + Position(bs, x)] {
        AfterInstallAt(l, d, bs, x);
      }
      assert Home(l, e) == Logical(l, d);
    }
  }

  /** Erasing the header after every block is home keeps the file system. */
  lemma {:induction false} ErasingKeeps(l: Layout, d: Disk)
    requires WellFormed(l, d)
    requires Home(l, d) == Logical(l, d)
    ensures WellFormed(l, AfterHead(l, d, [])) && Listed(AfterHead(l, d, [])[l.start]) == []
    ensures Logical(l, AfterHead(l, d, [])) == Logical(l, d) == Home(l, AfterHead(l, d, []))
  {
    HeaderRoundTrip([], d[l.start]);
  }

  // ----- every crash point -----

  /** The disk after the first k of the 2n+2 writes of a commit. */
  function CommitState(l: Layout, d: Disk, bs: seq<nat>, vals: seq<Block>, k: nat): Disk
    requires |bs| <= LOGSIZE && l.start + |bs| < |d|
    requires (forall i | 0 <= i < |bs| :: bs[i] < |d|) && |vals| == |bs|
    requires k <= 2 * |bs| + 2
  {
    var n := |bs|;
    if k <= n then
      AfterLog(l, d, vals[..k])
    else
      var committed := AfterHead(l, AfterLog(l, d, vals), bs);
      if k <= 2 * n + 1 then
        AfterInstall(l, committed, bs[..k - n - 1])
      else
        AfterHead(l, AfterInstall(l, committed, bs), [])
  }

  /** The disk after the first k of the n+1 writes of a recovery. */
  function RecoveryState(l: Layout, d: Disk, k: nat): Disk
    requires l.start < |d| && GoodHeader(d[l.start])
    requires l.start + |Listed(d[l.start])| < |d|
    requires forall i | 0 <= i < |Listed(d[l.start])| :: Listed(d[l.start])[i] < |d|
    requires k <= |Listed(d[l.start])| + 1
  {
    var bs := Listed(d[l.start]);
    if k <= |bs| then AfterInstall(l, d, bs[..k])
    else AfterHead(l, AfterInstall(l, d, bs), [])
  }

  /** The disk after each write of write_log, of install_trans, of a recovery, and of a commit. */
  function FillWrites(l: Layout, d: Disk, vals: seq<Block>): (ws: seq<Disk>)
    requires l.start + |vals| < |d|
    ensures |ws| == |vals|
  {
    if vals == [] then [] else FillWrites(l, d, vals[..|vals| - 1]) + [AfterLog(l, d, vals)]
  }

  function InstallWrites(l: Layout, d: Disk, bs: seq<nat>): (ws: seq<Disk>)
    requires l.start + |bs| < |d| && forall i | 0 <= i < |bs| :: bs[i] < |d|
    ensures |ws| == |bs|
  {
    if bs == [] then [] else InstallWrites(l, d, bs[..|bs| - 1]) + [AfterInstall(l, d, bs)]
  }

  function RecoveryWrites(l: Layout, d: Disk): seq<Disk>
    requires l.start < |d| && GoodHeader(d[l.start])
    requires l.start + |Listed(d[l.start])| < |d|
    requires forall i | 0 <= i < |Listed(d[l.start])| :: Listed(d[l.start])[i] < |d|
  {
    var bs := Listed(d[l.start]);
    InstallWrites(l, d, bs) + [AfterHead(l, AfterInstall(l, d, bs), [])]
  }

  function CommitWrites(l: Layout, d: Disk, bs: seq<nat>, vals: seq<Block>): seq<Disk>
    requires |bs| <= LOGSIZE && l.start + |bs| < |d|
    requires (forall i | 0 <= i < |bs| :: bs[i] < |d|) && |vals| == |bs|
  {
    var committed := AfterHead(l, AfterLog(l, d, vals), bs);
    FillWrites(l, d, vals) + [committed] + InstallWrites(l, committed, bs)
    + [AfterHead(l, AfterInstall(l, committed, bs), [])]
  }

  lemma {:induction false} FillWritesAt(l: Layout, d: Disk, vals: seq<Block>, k: nat)
    requires l.start + |vals| < |d| && k < |vals|
    ensures FillWrites(l, d, vals)[k] == AfterLog(l, d, vals[..k + 1])
  {
    if k + 1 == |vals| {
      assert vals[..k + 1] == vals;
    } else {
      FillWritesAt(l, d, vals[..|vals| - 1], k);
      assert vals[..|vals| - 1][..k + 1] == vals[..k + 1];
    }
  }

  lemma {:induction false} InstallWritesAt(l: Layout, d: Disk, bs: seq<nat>, k: nat)
    requires l.start + |bs| < |d| && forall i | 0 <= i < |bs| :: bs[i] < |d|
    requires k < |bs|
    ensures InstallWrites(l, d, bs)[k] == AfterInstall(l, d, bs[..k + 1])
  {
    if k + 1 == |bs| {
      assert bs[..k + 1] == bs;
    } else {
      InstallWritesAt(l, d, bs[..|bs| - 1], k);
      assert bs[..|bs| - 1][..k + 1] == bs[..k + 1];
    }
  }

  lemma {:induction false} CommitWritesAt(l: Layout, d: Disk, bs: seq<nat>, vals: seq<Block>, k: nat)
    requires |bs| <= LOGSIZE && l.start + |bs| < |d|
    requires (forall i | 0 <= i < |bs| :: bs[i] < |d|) && |vals| == |bs|
    requires k < 2 * |bs| + 2
    ensures |CommitWrites(l, d, bs, vals)| == 2 * |bs| + 2
    ensures CommitWrites(l, d, bs, vals)[k] == CommitState(l, d, bs, vals, k + 1)
  {
    var n := |bs|;
    var committed := AfterHead(l, AfterLog(l, d, vals), bs);
    if k < n {
      FillWritesAt(l, d, vals, k);
    } else if n < k < 2 * n + 1 {
      InstallWritesAt(l, committed, bs, k - n - 1);
    }
  }

  lemma {:induction false} RecoveryWritesAt(l: Layout, d: Disk, k: nat)
    requires WellFormed(l, d) && k < |Listed(d[l.start])| + 1
    ensures |RecoveryWrites(l, d)| == |Listed(d[l.start])| + 1
    ensures RecoveryWrites(l, d)[k] == RecoveryState(l, d, k + 1)
  {
    var bs := Listed(d[l.start]);
    if k < |bs| {
      InstallWritesAt(l, d, bs, k);
    }
  }

  /** No write of a recovery changes the file system, and a finished one leaves it all at home. */
  lemma {:induction false} RecoveryKeeps(l: Layout, d: Disk, k: nat)
    requires WellFormed(l, d)
    requires k <= |Listed(d[l.start])| + 1
    ensures WellFormed(l, RecoveryState(l, d, k))
    ensures Logical(l, RecoveryState(l, d, k)) == Logical(l, d)
    ensures k == |Listed(d[l.start])| + 1 ==>
              && Listed(RecoveryState(l, d, k)[l.start]) == []
              && Home(l, RecoveryState(l, d, k)) == Logical(l, d)
  {
    var bs := Listed(d[l.start]);
    InstallingKeeps(l, d, if k <= |bs| then k else |bs|);
    assert bs[..|bs|] == bs;
    if k == |bs| + 1 {
      ErasingKeeps(l, AfterInstall(l, d, bs));
    }
  }

  /** A commit moves the file system from old to new exactly at its header write, write number n+1. */
  lemma {:induction false} CommitStates(l: Layout, d: Disk, bs: seq<nat>, vals: seq<Block>, k: nat)
    requires WellFormed(l, d) && Listed(d[l.start]) == []
    requires Targets(l, |d|, bs) && |vals| == |bs|
    requires k <= 2 * |bs| + 2
    ensures var e := CommitState(l, d, bs, vals, k);
            && WellFormed(l, e)
            && Logical(l, e) == (if k <= |bs| then Home(l, d) else Overwrite(Home(l, d), bs, vals))
            && (k == 2 * |bs| + 2 ==> Listed(e[l.start]) == [] && Home(l, e) == Logical(l, e))
  {
    var n := |bs|;
    if k <= n {
      FillingKeeps(l, d, vals[..k]);
    } else {
      HeaderCommits(l, d, bs, vals);
      var committed := AfterHead(l, AfterLog(l, d, vals), bs);
      var done := k - n - 1;
      RecoveryKeeps(l, committed, done);
    }
  }

  /** A machine that crashes again and again: each disk is what an interrupted recovery of the one
      before left behind. */
  ghost predicate CrashChain(l: Layout, ds: seq<Disk>)
    decreases |ds|
  {
    && ds != []
    && WellFormed(l, ds[0])
    && (|ds| > 1 ==>
          && CrashChain(l, ds[..|ds| - 1])
          && WellFormed(l, ds[|ds| - 2])
          && InterruptedRecovery(l, ds[|ds| - 2], ds[|ds| - 1]))
  }

  ghost predicate InterruptedRecovery(l: Layout, d: Disk, e: Disk)
    requires WellFormed(l, d)
  {
    exists k | 0 <= k <= |Listed(d[l.start])| + 1 :: e == RecoveryState(l, d, k)
  }

  lemma {:induction false} CrashChainKeeps(l: Layout, ds: seq<Disk>)
    requires CrashChain(l, ds)
    ensures WellFormed(l, ds[|ds| - 1])
    ensures Logical(l, ds[|ds| - 1]) == Logical(l, ds[0])
  {
    var m := |ds| - 1;
    if m > 0 {
      CrashChainKeeps(l, ds[..m]);
      InterruptionKeeps(l, ds[m - 1], ds[m]);
    }
  }

  lemma {:induction false} InterruptionKeeps(l: Layout, d: Disk, e: Disk)
    requires WellFormed(l, d) && InterruptedRecovery(l, d, e)
    ensures WellFormed(l, e) && Logical(l, e) == Logical(l, d)
  {
    var k :| 0 <= k <= |Listed(d[l.start])| + 1 && e == RecoveryState(l, d, k);
    RecoveryKeeps(l, d, k);
  }

  /** Crash atomicity. Crash a commit after any number k of its writes, crash the recovery any
      number of times at any of its writes, then let one recovery finish: the log is empty and the
      blocks outside it are exactly the old ones if the header write had not happened, and exactly
      the new ones if it had. */
  lemma {:induction false} CrashAtomicity(l: Layout, d: Disk, bs: seq<nat>, vals: seq<Block>, k: nat, ds: seq<Disk>)
    requires WellFormed(l, d) && Listed(d[l.start]) == []
    requires Targets(l, |d|, bs) && |vals| == |bs|
    requires k <= 2 * |bs| + 2
    requires CrashChain(l, ds) && ds[0] == CommitState(l, d, bs, vals, k)
    ensures WellFormed(l, ds[|ds| - 1])
    ensures var last := ds[|ds| - 1];
            var r := RecoveryState(l, last, |Listed(last[l.start])| + 1);
            && WellFormed(l, r) && Listed(r[l.start]) == []
            && Home(l, r) == if k <= |bs| then Home(l, d) else Overwrite(Home(l, d), bs, vals)
  {
    CommitStates(l, d, bs, vals, k);
    CrashChainKeeps(l, ds);
    var last := ds[|ds| - 1];
    RecoveryKeeps(l, last, |Listed(last[l.start])| + 1);
  }

  /** The empty header at the start of a commit is needed: with a stale one still listing a block,
      the very first log write already changes the file system. */
  lemma {:induction false} StaleHeaderBreaksAtomicity(l: Layout, d: Disk, home: nat, val: Block)
    requires WellFormed(l, d) && Listed(d[l.start]) == [home]
    requires val != d[l.start + 1]
    ensures WellFormed(l, AfterLog(l, d, [val])) && home in Home(l, d)
    ensures Logical(l, AfterLog(l, d, [val]))[home] == val != Logical(l, d)[home]
  {
    var e := AfterLog(l, d, [val]);
    AfterLogAt(l, d, [val], l.start);
    AfterLogAt(l, d, [val], l.start + 1);
    assert home in Listed(d[l.start]) && Position([home], home) == 0;
    assert [home][0] == home < |d| && !InLog(l, home);
  }
}
