/** The process table of proc.c: its records and the loops that scan it under ptable.lock. */
module ProcTable {
  import opened Options

  /** initproc, the slot children of exited processes are passed to. */
  const INIT: nat := 0

  datatype ProcState = UNUSED | EMBRYO | SLEEPING | RUNNABLE | RUNNING | ZOMBIE

  /** What a process can sleep on: a process (wait), a sleep lock, or anything else. */
  datatype Chan = NoChan | OnProc(p: nat) | OnLock(l: nat) | OnOther(c: nat)

  /** Where a kernel thread stands in the code of proc.c and sleeplock.c. */
  datatype Pc =
    | User                          // outside this code, no lock held
    | ForkRet                       // forkret, inside ptable.lock
    | Unlock(ret: Pc)               // about to release ptable.lock
    | Yield(ret: Pc)                // yield, inside ptable.lock
    | Swtch(k: Cont)                // sched, about to leave the CPU
    | Back(k: Cont)                 // off the CPU, or just back on it inside ptable.lock
    | WaitCall                      // wait, before acquire
    | Wait                          // the scan of wait
    | Exit                          // exit, before acquire
    | Exiting                       // exit, before wakeup1(parent)
    | PassOn                        // exit, before passing its children to init
    | Dying                         // exit, before state = ZOMBIE
    | Fork                          // allocproc, before acquire
    | Alloc                         // the scan of allocproc
    | ForkStack(np: nat)            // fork, before the new process has a kernel stack
    | ForkParent(np: nat)           // before np->parent = proc
    | ForkStart(np: nat)            // before np->state = RUNNABLE
    | Kill(pid: nat)                // kill, before acquire
    | Killing(pid: nat)             // the scan of kill
    | Notify(chan: Chan, ret: Pc)   // wakeup, before acquire
    | Notifying(chan: Chan, ret: Pc)// wakeup1
    | Doze(chan: Chan, ret: Pc)     // sleep, before acquiring ptable.lock
    | Dozing(chan: Chan, ret: Pc)   // before releasing lk
    | Marking(chan: Chan, ret: Pc)  // before state = SLEEPING
    | Acquire(l: nat)               // acquiresleep, before acquire(&lk->lk)
    | Test(l: nat)                  // its loop test
    | Release(l: nat)               // releasesleep, before acquire(&lk->lk)
    | Free(l: nat)                  // before locked = 0
    | Done(l: nat)                  // acquiresleep or releasesleep, before release(&lk->lk)

  /** What the thread does when the scheduler switches back to it. */
  datatype Cont = AfterYield(ret: Pc) | AfterSleep(ret: Pc) | AfterWait | Dead

  /** kstack says whether the slot owns a kernel stack. held are the sleep locks the process has
      acquired and not released, host the CPU whose `proc` it is; neither is stored by the kernel. */
  datatype Proc = Proc(state: ProcState, chan: Chan, parent: Option<nat>, killed: bool, pid: nat, kstack: bool,
                       pc: Pc, held: set<nat>, host: Option<nat>)

  type Table = seq<Proc>

  // ----- scans -----

  /** The first slot from i on that satisfies f. */
  function First(t: Table, f: Proc -> bool, i: nat): (r: Option<nat>)
    ensures r.Some? ==> i <= r.value < |t| && f(t[r.value])
    ensures forall j | i <= j < |t| && (r.Some? ==> j < r.value) :: !f(t[j])
    decreases |t| - i
  {
    if i >= |t| then None else if f(t[i]) then Some(i) else First(t, f, i + 1)
  }

  function ZombieChild(p: nat): Proc -> bool {
    (q: Proc) => q.parent == Some(p) && q.state == ZOMBIE
  }

  function Child(p: nat): Proc -> bool {
    (q: Proc) => q.parent == Some(p)
  }

  function Unused(): Proc -> bool {
    (q: Proc) => q.state == UNUSED
  }

  function HasPid(pid: nat): Proc -> bool {
    (q: Proc) => q.pid == pid
  }

  // ----- updates of the whole table -----

  function WakeOne(q: Proc, chan: Chan): Proc {
    if q.state == SLEEPING && q.chan == chan then q.(state := RUNNABLE) else q
  }

  function WakeAll(t: Table, chan: Chan): (r: Table)
    ensures |r| == |t| && forall i | 0 <= i < |t| :: r[i] == WakeOne(t[i], chan)
  {
    seq(|t|, i requires 0 <= i < |t| => WakeOne(t[i], chan))
  }

  function AdoptOne(q: Proc, p: nat): Proc {
    if q.parent == Some(p) then q.(parent := Some(INIT)) else q
  }

  function Adopt(t: Table, p: nat): (r: Table)
    ensures |r| == |t| && forall i | 0 <= i < |t| :: r[i] == AdoptOne(t[i], p)
  {
    seq(|t|, i requires 0 <= i < |t| => AdoptOne(t[i], p))
  }

  /** exit passes the children of p to init, and wakes init if one of them is a zombie. */
  function PassToInit(t: Table, p: nat): Table {
    if First(t, ZombieChild(p), 0).Some? then WakeAll(Adopt(t, p), OnProc(INIT)) else Adopt(t, p)
  }

  function Reap(q: Proc): Proc {
    q.(state := UNUSED, parent := None, killed := false, pid := 0, kstack := false)
  }

  // ----- the loops -----

  /** ptable.proc, and the loops that run over it with ptable.lock held. */
  class ProcessTable {
    const proc: array<Proc>

    constructor (t: Table)
      ensures proc[..] == t && fresh(proc)
    {
      proc := new Proc[|t|](i requires 0 <= i < |t| => t[i]);
    }

    method Wakeup1(chan: Chan)
      modifies proc
      ensures proc[..] == WakeAll(old(proc[..]), chan)
      ensures forall i | 0 <= i < proc.Length && old(proc[i].state) == SLEEPING && old(proc[i].chan) == chan ::
                proc[i] == old(proc[i]).(state := RUNNABLE)
      ensures forall i | 0 <= i < proc.Length && !(old(proc[i].state) == SLEEPING && old(proc[i].chan) == chan) ::
                proc[i] == old(proc[i])
    {
      for i := 0 to proc.Length
        invariant forall j | 0 <= j < i :: proc[j] == WakeOne(old(proc[j]), chan)
        invariant forall j | i <= j < proc.Length :: proc[j] == old(proc[j])
      {
        if proc[i].state == SLEEPING && proc[i].chan == chan {
          proc[i] := proc[i].(state := RUNNABLE);
        }
      }
    }

    /** The loop of exit. */
    method PassChildren(p: nat)
      requires p != INIT
      modifies proc
      ensures proc[..] == PassToInit(old(proc[..]), p)
      ensures PassedOn(old(proc[..]), proc[..], p)
    {
      ghost var was := proc[..];
      ghost var woken := false;
      for i := 0 to proc.Length
        invariant woken <==> exists j :: 0 <= j < i && ZombieChild(p)(was[j])
        invariant forall j | 0 <= j < i :: proc[j] == Passed(was[j], p, woken)
        invariant forall j | i <= j < proc.Length :: proc[j] == WakeIf(was[j], woken)
      {
        if proc[i].parent == Some(p) {
          proc[i] := proc[i].(parent := Some(INIT));
          if proc[i].state == ZOMBIE {
            Wakeup1(OnProc(INIT));
            woken := true;
          }
        }
      }
      PassedAll(was, proc[..], p, woken);
      PassedFields(was, p);
    }

    method FindUnused() returns (r: Option<nat>)
      ensures r == First(proc[..], Unused(), 0)
      ensures r.Some? ==> r.value < proc.Length && proc[r.value].state == UNUSED
      ensures forall i | 0 <= i < proc.Length && (r.Some? ==> i < r.value) :: proc[i].state != UNUSED
    {
      r := None;
      var i := 0;
      while i < proc.Length && r == None
        invariant 0 <= i <= proc.Length
        invariant r == None ==> First(proc[..], Unused(), 0) == First(proc[..], Unused(), i)
        invariant r.Some? ==> r == First(proc[..], Unused(), 0)
      {
        if proc[i].state == UNUSED {
          r := Some(i);
        }
        i := i + 1;
      }
    }

    /** allocproc up to release: the first unused slot gets the next process identifier. */
    method TakeSlot(nextpid: nat) returns (r: Option<nat>, next: nat)
      modifies proc
      ensures r.None? ==> next == nextpid && forall i | 0 <= i < proc.Length ::
                proc[i] == old(proc[i]) && proc[i].state != UNUSED
      ensures r.Some? ==>
                && r.value < proc.Length && old(proc[r.value].state) == UNUSED && next == nextpid + 1
                && (forall i | 0 <= i < r.value :: old(proc[i].state) != UNUSED)
                && proc[r.value] == old(proc[r.value]).(state := EMBRYO, pid := nextpid)
                && forall i | 0 <= i < proc.Length && i != r.value :: proc[i] == old(proc[i])
    {
      r := FindUnused();
      next := nextpid;
      if r.Some? {
        proc[r.value] := proc[r.value].(state := EMBRYO);
        proc[r.value] := proc[r.value].(pid := next);
        next := next + 1;
      }
    }

    /** The scan of wait with the reaping of the zombie it finds: its process identifier, and otherwise
        whether there are children at all. */
    method ReapChild(p: nat) returns (pid: Option<nat>, havekids: bool)
      modifies proc
      ensures pid.Some? <==>
                exists i :: 0 <= i < proc.Length && old(proc[i].parent) == Some(p) && old(proc[i].state) == ZOMBIE
      ensures pid.None? ==>
                && (forall i | 0 <= i < proc.Length :: proc[i] == old(proc[i]))
                && (havekids <==> exists i :: 0 <= i < proc.Length && proc[i].parent == Some(p))
      ensures pid.Some? ==>
                exists z :: 0 <= z < proc.Length && Reaped(old(proc[..]), proc[..], p, z) &&
                            old(proc[z].pid) == pid.value
    {
      var z;
      z, havekids := FindChild(p);
      pid := None;
      if z.Some? {
        assert ZombieChild(p)(proc[z.value]);
        pid := Some(proc[z.value].pid);
        proc[z.value] := proc[z.value].(kstack := false);
        proc[z.value] := proc[z.value].(state := UNUSED, pid := 0, parent := None, killed := false);
        assert Reaped(old(proc[..]), proc[..], p, z.value);
      }
    }

    /** The scan of wait: the zombie to reap, and otherwise whether there are children at all. */
    method FindChild(p: nat) returns (r: Option<nat>, havekids: bool)
      ensures r == First(proc[..], ZombieChild(p), 0)
      ensures r.None? <==> forall i | 0 <= i < proc.Length :: !(proc[i].parent == Some(p) && proc[i].state == ZOMBIE)
      ensures r == None ==> (havekids <==> First(proc[..], Child(p), 0).Some?)
      ensures r == None ==> (havekids <==> exists i :: 0 <= i < proc.Length && proc[i].parent == Some(p))
    {
      r, havekids := None, false;
      var i := 0;
      while i < proc.Length && r == None
        invariant 0 <= i <= proc.Length
        invariant r == None ==> First(proc[..], ZombieChild(p), 0) == First(proc[..], ZombieChild(p), i)
        invariant r.Some? ==> r == First(proc[..], ZombieChild(p), 0)
        invariant havekids <==> exists j :: 0 <= j < i && Child(p)(proc[j])
      {
        if proc[i].parent == Some(p) {
          assert Child(p)(proc[i]);
          havekids := true;
          if proc[i].state == ZOMBIE {
            r := Some(i);
          }
        }
        i := i + 1;
      }
    }

    /** The loop of kill. */
    method MarkKilled(pid: nat) returns (ok: bool)
      modifies proc
      ensures var t := old(proc[..]); var r := First(t, HasPid(pid), 0);
              && (ok <==> r.Some?)
              && proc[..] == if r.Some? then t[r.value := KillOne(t[r.value])] else t
      ensures !ok <==> forall i | 0 <= i < proc.Length :: old(proc[i].pid) != pid
      ensures ok ==>
                exists k :: 0 <= k < proc.Length && old(proc[k].pid) == pid && MarkedAt(old(proc[..]), proc[..], k)
      ensures !ok ==> forall i | 0 <= i < proc.Length :: proc[i] == old(proc[i])
    {
      var i := 0;
      ok := false;
      while i < proc.Length && !ok
        invariant 0 <= i <= proc.Length
        invariant !ok ==> First(old(proc[..]), HasPid(pid), 0) == First(old(proc[..]), HasPid(pid), i)
        invariant !ok ==> proc[..] == old(proc[..])
        invariant ok ==> var t := old(proc[..]); var r := First(t, HasPid(pid), 0);
                         r.Some? && proc[..] == t[r.value := KillOne(t[r.value])]
      {
        if proc[i].pid == pid {
          proc[i] := KillOne(proc[i]);
          ok := true;
        }
        i := i + 1;
      }
      if ok {
        ghost var k := First(old(proc[..]), HasPid(pid), 0).value;
        assert old(proc[..])[k].pid == pid && MarkedAt(old(proc[..]), proc[..], k);
      }
    }
  }

  ghost predicate HasZombie(t: Table, p: nat) {
    exists j :: 0 <= j < |t| && t[j].parent == Some(p) && t[j].state == ZOMBIE
  }

  ghost predicate PassedOne(t: Table, t': Table, p: nat, i: nat)
    requires i < |t| == |t'|
  {
    && (t[i].parent == Some(p) ==> t'[i].parent == Some(INIT))
    && (t[i].parent != Some(p) ==> t'[i].parent == t[i].parent)
    && (HasZombie(t, p) && t[i].state == SLEEPING && t[i].chan == OnProc(INIT) ==> t'[i].state == RUNNABLE)
    && (!(HasZombie(t, p) && t[i].state == SLEEPING && t[i].chan == OnProc(INIT)) ==> t'[i].state == t[i].state)
    && t'[i] == t[i].(parent := t'[i].parent, state := t'[i].state)
  }

  /** From t to t' the children of p became children of init, which was woken if one is a zombie. */
  ghost predicate PassedOn(t: Table, t': Table, p: nat) {
    |t'| == |t| && forall i | 0 <= i < |t| :: PassedOne(t, t', p, i)
  }

  lemma {:induction false} PassedFields(t: Table, p: nat)
    ensures PassedOn(t, PassToInit(t, p), p)
  {
    var r := First(t, ZombieChild(p), 0);
    assert r.Some? ==> ZombieChild(p)(t[r.value]);
    assert r.None? ==> forall j | 0 <= j < |t| :: !ZombieChild(p)(t[j]);
    assert HasZombie(t, p) <==> r.Some?;
    var t' := PassToInit(t, p);
    forall i | 0 <= i < |t| ensures PassedOne(t, t', p, i) {
    }
  }

  /** From t to t' the process in slot k was killed and, if asleep, made runnable. */
  ghost predicate MarkedAt(t: Table, t': Table, k: nat) {
    && |t'| == |t| && k < |t|
    && t'[k].killed && (t[k].state == SLEEPING ==> t'[k].state == RUNNABLE)
    && (t[k].state != SLEEPING ==> t'[k].state == t[k].state)
    && t'[k] == t[k].(killed := t'[k].killed, state := t'[k].state)
    && forall i | 0 <= i < |t| && i != k :: t'[i] == t[i]
  }

  /** From t to t' the zombie child of p in slot z became an unused slot. */
  ghost predicate Reaped(t: Table, t': Table, p: nat, z: nat) {
    && |t'| == |t| && z < |t| && t[z].parent == Some(p) && t[z].state == ZOMBIE
    && t'[z].state == UNUSED && t'[z].pid == 0 && t'[z].parent == None && !t'[z].killed && !t'[z].kstack
    && t'[z].chan == t[z].chan && t'[z].pc == t[z].pc && t'[z].held == t[z].held && t'[z].host == t[z].host
    && forall i | 0 <= i < |t| && i != z :: t'[i] == t[i]
  }

  function KillOne(q: Proc): Proc {
    q.(killed := true, state := if q.state == SLEEPING then RUNNABLE else q.state)
  }

  ghost function WakeIf(q: Proc, woken: bool): Proc {
    if woken then WakeOne(q, OnProc(INIT)) else q
  }

  ghost function Passed(q: Proc, p: nat, woken: bool): Proc {
    WakeIf(AdoptOne(q, p), woken)
  }

  lemma {:induction false} PassedAll(was: Table, t: Table, p: nat, woken: bool)
    requires |t| == |was| && forall j | 0 <= j < |was| :: t[j] == Passed(was[j], p, woken)
    requires woken <==> exists j :: 0 <= j < |was| && ZombieChild(p)(was[j])
    ensures t == PassToInit(was, p)
  {
    var r := First(was, ZombieChild(p), 0);
    assert woken <==> r.Some?;
  }
}
