/** Every interleaving of the scheduler, processes and sleep locks keeps the invariant; the safety
    theorems of proc.c and sleeplock.c follow from it. */
module SchedulerSafety {
  import opened Options
  import opened ProcTable
  import opened Scheduler
  import opened SchedulerCore
  import opened SchedulerFamily
  import opened SleepLocks

  ghost predicate Rest(s: State) {
    Targets(s.table) && Family(s.table) && LocksOk(s)
  }

  ghost predicate Invariant(s: State) {
    Core(s) && Rest(s)
  }

  // ----- steps that change one record -----

  /** A change of p's own record that no family, no process under construction and no sleep lock
      depends on. */
  predicate Plain(q: Proc, q': Proc, n: nat) {
    && q.state != EMBRYO && KinUnchanged(q, q') && Unnoticed(q, q') && NamesOk(q', n)
    && (InFork(Base(q'.pc)) ==> Base(q'.pc) == Base(q.pc))
    && (OwesPc(q.pc).Some? ==> OwesPc(q'.pc) == OwesPc(q.pc))
  }

  lemma {:induction false} PlainKeeps(s: State, s': State, p: nat, q: Proc)
    requires Rest(s) && p < |s.table| && Plain(s.table[p], q, |s.locks|)
    requires s'.table == s.table[p := q] && s'.locks == s.locks
    ensures Rest(s')
  {
    TargetsKept(s.table, s'.table, p);
    FamilyKept(s.table, s'.table);
    LocksKept(s, s');
  }

  lemma {:induction false} SameKeeps(s: State, s': State)
    requires Rest(s) && s'.table == s.table && s'.locks == s.locks
    ensures Rest(s')
  {
    LocksKept(s, s');
  }

  lemma {:induction false} HostPlain(q: Proc, p: nat, n: nat, host: Option<nat>)
    requires ProcOk(q, p) && NamesOk(q, n) && q.state != EMBRYO && q.state != UNUSED
    ensures Plain(q, q.(host := host), n)
    ensures q.state == RUNNABLE && Parked(q.pc) ==> Plain(q, q.(state := RUNNING), n)
  {
  }

  lemma {:induction false} SchedSafe(s: State, c: nat)
    requires Invariant(s) && c < |s.cpus|
    ensures Invariant(SchedStep(s, c))
  {
    SchedKeeps(s, c);
    var at, s' := s.cpus[c].at, SchedStep(s, c);
    assert CpuOk(s.cpus[c], s.table, c);
    if s'.table == s.table {
      SameKeeps(s, s');
    } else {
      assert NamesOk(s.table[at.i], |s.locks|) && ProcOk(s.table[at.i], at.i);
      HostPlain(s.table[at.i], at.i, |s.locks|, s'.table[at.i].host);
      PlainKeeps(s, s', at.i, s'.table[at.i]);
    }
  }

  lemma {:induction false} TakePlain(q: Proc, p: nat, n: nat)
    requires ProcOk(q, p) && q.state == RUNNING && NamesOk(q, n)
    ensures WantsTable(q.pc) ==> Plain(q, q.(pc := TookTable(q.pc)), n)
    ensures Preemptible(q.pc) ==> Plain(q, q.(pc := Yield(q.pc)), n)
  {
  }

  lemma {:induction false} DropPlain(q: Proc, chan: Chan, p: nat, n: nat)
    requires ProcOk(q, p) && q.state == RUNNING && NamesOk(q, n) && DropsTable(q.pc)
    ensures Plain(q, q.(pc := DroppedTable(q.pc), chan := chan), n)
  {
  }

  lemma {:induction false} SwtchPlain(q: Proc, p: nat, n: nat)
    requires ProcOk(q, p) && q.pc.Swtch? && NamesOk(q, n)
    ensures Plain(q, q.(pc := Back(q.pc.k)), n)
  {
  }

  lemma {:induction false} EntryPlain(s: State, p: nat, op: Op)
    requires p < |s.table| && s.table[p].state == RUNNING && NamesOk(s.table[p], |s.locks|)
    requires s.table[p].pc == User && MayCall(s, p, op)
    ensures Plain(s.table[p], s.table[p].(pc := Entry(op)), |s.locks|)
  {
  }

  lemma {:induction false} SleepPlain(q: Proc, p: nat, n: nat)
    requires ProcOk(q, p) && q.state == RUNNING && NamesOk(q, n)
    ensures q.pc.Marking? ==> Plain(q, q.(chan := q.pc.chan, state := SLEEPING, pc := Swtch(AfterSleep(q.pc.ret))), n)
    ensures q.pc.Yield? ==> Plain(q, q.(state := RUNNABLE, pc := Swtch(AfterYield(q.pc.ret))), n)
    ensures q.pc == Back(AfterWait) ==> Plain(q, q.(chan := NoChan, pc := Wait), n)
    ensures q.pc.Dozing? && !q.pc.chan.OnLock? ==> Plain(q, q.(pc := Marking(q.pc.chan, q.pc.ret)), n)
  {
  }

  lemma {:induction false} ReturnPlain(q: Proc, p: nat, n: nat)
    requires ProcOk(q, p) && q.state == RUNNING && NamesOk(q, n) && (q.pc.Wait? || q.pc.Alloc? || q.pc.Killing?)
    ensures Plain(q, q.(pc := Unlock(User)), n) && Plain(q, q.(killed := true, pc := Unlock(User)), n)
  {
  }

  /** Process p runs on CPU c. */
  ghost predicate Runs(s: State, c: nat, p: nat) {
    Invariant(s) && c < |s.cpus| && s.cpus[c].at == On(p) && p < |s.table|
  }

  lemma {:induction false} CallSafe(s: State, c: nat, p: nat, op: Op)
    requires Runs(s, c, p) && s.table[p].pc == User && MayCall(s, p, op)
    ensures Invariant(Next(s, Call(c, op)))
  {
    CallKeeps(s, c, p, op);
    Running(s, c, p);
    assert NamesOk(s.table[p], |s.locks|);
    EntryPlain(s, p, op);
    PlainKeeps(s, Next(s, Call(c, op)), p, s.table[p].(pc := Entry(op)));
  }

  lemma {:induction false} PreemptSafe(s: State, c: nat, p: nat)
    requires Runs(s, c, p) && Preemptible(s.table[p].pc) && s.lock == None
    ensures Invariant(Next(s, Preempt(c)))
  {
    PreemptKeeps(s, c, p);
    Running(s, c, p);
    assert NamesOk(s.table[p], |s.locks|);
    TakePlain(s.table[p], p, |s.locks|);
    PlainKeeps(s, Next(s, Preempt(c)), p, s.table[p].(pc := Yield(s.table[p].pc)));
  }

  lemma {:induction false} TakeSafe(s: State, c: nat, p: nat)
    requires Runs(s, c, p) && (WantsTable(s.table[p].pc) || DropsTable(s.table[p].pc))
    ensures Invariant(ProcStep(s, c, p))
  {
    TakeKeeps(s, c, p);
    Running(s, c, p);
    var q, s' := s.table[p], ProcStep(s, c, p);
    assert NamesOk(q, |s.locks|);
    if s' != s {
      if WantsTable(q.pc) {
        TakePlain(q, p, |s.locks|);
      } else {
        DropPlain(q, s'.table[p].chan, p, |s.locks|);
      }
      PlainKeeps(s, s', p, s'.table[p]);
    }
  }

  lemma {:induction false} SwitchSafe(s: State, c: nat, p: nat)
    requires Runs(s, c, p) && s.table[p].pc.Swtch?
    ensures Invariant(ProcStep(s, c, p))
  {
    SwitchKeeps(s, c, p);
    Running(s, c, p);
    assert NamesOk(s.table[p], |s.locks|);
    SwtchPlain(s.table[p], p, |s.locks|);
    PlainKeeps(s, ProcStep(s, c, p), p, s.table[p].(pc := Back(s.table[p].pc.k)));
  }

  lemma {:induction false} LockSafe(s: State, c: nat, p: nat)
    requires Runs(s, c, p) && LockOf(s.table[p].pc).Some? && LockOf(s.table[p].pc).value < |s.locks|
    ensures Invariant(ProcStep(s, c, p))
  {
    LockStepKeeps(s, c, p);
    Running(s, c, p);
    LockStepLocks(s, c, p);
    var me, l := s.table[p], LockOf(s.table[p].pc).value;
    var q := LockStep(me, s.locks[l], p, l).0;
    LockStepOwn(me, s.locks[l], p, l);
    assert KinUnchanged(me, q);
    FamilyKept(s.table, s.table[p := q]);
    TargetsKept(s.table, s.table[p := q], p);
  }

  lemma {:induction false} OwnRest(s: State, s': State, p: nat)
    requires Rest(s) && p < |s.table| == |s'.table| && s'.locks == s.locks
    requires s'.table == s.table[p := s'.table[p]] && Plain(s.table[p], s'.table[p], |s.locks|)
    ensures Rest(s')
  {
    PlainKeeps(s, s', p, s'.table[p]);
  }

  /** The remaining steps on p's own record. */
  lemma {:induction false} OwnSafe(s: State, c: nat, p: nat)
    requires Runs(s, c, p)
    requires var pc := s.table[p].pc;
             pc.Marking? || pc.Yield? || pc == Back(AfterWait) || (pc.Dozing? && LockOf(pc) == None)
    ensures Invariant(ProcStep(s, c, p))
  {
    Running(s, c, p);
    if s.table[p].pc.Dozing? { DozingKeeps(s, c, p); } else { InTableKeeps(s, c, p); }
    assert NamesOk(s.table[p], |s.locks|);
    SleepPlain(s.table[p], p, |s.locks|);
    OwnRest(s, ProcStep(s, c, p), p);
  }

  // ----- steps that change other records -----

  /** The others' records as p's step inside ptable.lock finds them. */
  lemma {:induction false} OthersOutside(s: State, c: nat, p: nat)
    requires Runs(s, c, p) && InTable(s.table[p].pc)
    ensures forall j | 0 <= j < |s.table| && j != p :: !s.table[j].pc.PassOn? && !s.table[j].pc.Dying?
    ensures forall j | 0 <= j < |s.table| && j != p :: !s.table[j].pc.Marking?
  {
    forall j | 0 <= j < |s.table| && j != p
      ensures !s.table[j].pc.PassOn? && !s.table[j].pc.Dying? && !s.table[j].pc.Marking?
    {
      BesideInTable(s, c, p, j);
    }
  }

  /** A change to a slot other than p's that neither a process under construction nor a sleep lock
      depends on. */
  predicate Bystander(q: Proc, q': Proc, p: nat, n: nat) {
    Unnoticed(q, q') && NamesOk(q', n) && KeepsEmbryo(q, q', p) && q'.pc == q.pc
  }

  lemma {:induction false} WakeSlot(q: Proc, chan: Chan, p: nat, n: nat)
    requires NamesOk(q, n)
    ensures KinUnchanged(q, WakeOne(q, chan)) && Bystander(q, WakeOne(q, chan), p, n)
  {
  }

  lemma {:induction false} KillSlot(q: Proc, p: nat, n: nat)
    requires NamesOk(q, n)
    ensures KinUnchanged(q, KillOne(q)) && Bystander(q, KillOne(q), p, n)
  {
  }

  lemma {:induction false} AdoptSlot(q: Proc, p: nat, n: nat)
    requires NamesOk(q, n)
    ensures Bystander(q, AdoptOne(q, p), p, n)
  {
  }

  lemma {:induction false} PassSlot(t: Table, p: nat, j: nat, n: nat)
    requires j < |t| && NamesOk(t[j], n)
    ensures |PassToInit(t, p)| == |t| && Bystander(t[j], PassToInit(t, p)[j], p, n)
  {
    var q := AdoptOne(t[j], p);
    AdoptSlot(t[j], p, n);
    WakeSlot(q, OnProc(INIT), p, n);
    assert PassToInit(t, p)[j] == q || PassToInit(t, p)[j] == WakeOne(q, OnProc(INIT));
  }

  /** p's own part of such a step. */
  predicate Stepper(q: Proc, q': Proc, n: nat) {
    Unnoticed(q, q') && NamesOk(q', n) && q.state != EMBRYO && !InFork(Base(q.pc)) && !InFork(Base(q'.pc))
  }

  lemma {:induction false} BystandersKeep(s: State, s': State, p: nat)
    requires Rest(s) && p < |s.table| == |s'.table| && s'.locks == s.locks && Family(s'.table)
    requires Stepper(s.table[p], s'.table[p], |s.locks|)
    requires forall j {:trigger s'.table[j]} | 0 <= j < |s.table| && j != p ::
               Bystander(s.table[j], s'.table[j], p, |s.locks|)
    requires OwesPc(s.table[p].pc).Some? ==> NoWaiters(s'.table, OwesPc(s.table[p].pc).value)
    ensures Rest(s')
  {
    TargetsKept(s.table, s'.table, p);
    LocksKept(s, s');
  }

  /** Waking a channel leaves nobody waiting for the sleep lock it stands for. */
  lemma {:induction false} NoneWaits(s: State, c: nat, p: nat, l: nat, ret: Pc)
    requires Runs(s, c, p) && s.table[p].pc == Notifying(OnLock(l), ret)
    ensures NoWaiters(WakeAll(s.table, OnLock(l))[p := s.table[p].(pc := Unlock(ret))], l)
  {
    var t := WakeAll(s.table, OnLock(l))[p := s.table[p].(pc := Unlock(ret))];
    Running(s, c, p);
    OthersOutside(s, c, p);
    assert SpinsOk(s, p);
    forall j | 0 <= j < |t| ensures WaitsFor(t[j]) != Some(l) {
      assert SpinsOk(s, j);
    }
  }

  lemma {:induction false} NotifyRest(s: State, s': State, p: nat, chan: Chan, ret: Pc)
    requires Rest(s) && p < |s.table| && s'.locks == s.locks && s.table[p].state == RUNNING
    requires s.table[p].pc == Notifying(chan, ret) && PcOk(s.table[p].pc)
    requires s'.table == WakeAll(s.table, chan)[p := s.table[p].(pc := Unlock(ret))]
    requires chan.OnLock? ==> NoWaiters(s'.table, chan.l)
    ensures Rest(s')
  {
    var n := |s.locks|;
    assert NamesOk(s.table[p], n);
    assert KinUnchanged(s.table[p], s'.table[p]);
    forall j {:trigger s'.table[j]} | 0 <= j < |s.table| && j != p
      ensures KinUnchanged(s.table[j], s'.table[j]) && Bystander(s.table[j], s'.table[j], p, n)
    {
      assert NamesOk(s.table[j], n);
      WakeSlot(s.table[j], chan, p, n);
    }
    FamilyKept(s.table, s'.table);
    BystandersKeep(s, s', p);
  }

  lemma {:induction false} NotifySafe(s: State, c: nat, p: nat)
    requires Runs(s, c, p) && s.table[p].pc.Notifying?
    ensures Invariant(ProcStep(s, c, p))
  {
    InTableKeeps(s, c, p);
    Running(s, c, p);
    var me := s.table[p];
    if me.pc.chan.OnLock? { NoneWaits(s, c, p, me.pc.chan.l, me.pc.ret); }
    NotifyRest(s, ProcStep(s, c, p), p, me.pc.chan, me.pc.ret);
  }

  lemma {:induction false} ExitingRest(s: State, s': State, p: nat, r: nat)
    requires Rest(s) && Procs(s.table) && p < |s.table| && s'.locks == s.locks && s.table[p].state == RUNNING
    requires s.table[p].pc.Exiting? && s.table[p].parent == Some(r)
    requires s'.table == WakeAll(s.table, OnProc(r))[p := s.table[p].(pc := PassOn)]
    ensures Rest(s')
  {
    ExitingKin(s.table, p);
    var n := |s.locks|;
    assert NamesOk(s.table[p], n);
    forall j {:trigger s'.table[j]} | 0 <= j < |s.table| && j != p ensures Bystander(s.table[j], s'.table[j], p, n) {
      assert NamesOk(s.table[j], n);
      WakeSlot(s.table[j], OnProc(r), p, n);
    }
    BystandersKeep(s, s', p);
  }

  lemma {:induction false} ExitingSafe(s: State, c: nat, p: nat)
    requires Runs(s, c, p) && s.table[p].pc.Exiting?
    ensures Invariant(ProcStep(s, c, p))
  {
    InTableKeeps(s, c, p);
    Running(s, c, p);
    assert KinOk(s.table, p);
    ExitingRest(s, ProcStep(s, c, p), p, s.table[p].parent.value);
  }

  lemma {:induction false} PassOnRest(s: State, s': State, p: nat)
    requires Rest(s) && p < |s.table| && s'.locks == s.locks && s.table[p].state == RUNNING && s.table[p].pc.PassOn?
    requires Family(s'.table) && s'.table == PassToInit(s.table, p)[p := s.table[p].(pc := Dying)]
    ensures Rest(s')
  {
    var n := |s.locks|;
    assert NamesOk(s.table[p], n);
    forall j {:trigger s'.table[j]} | 0 <= j < |s.table| && j != p ensures Bystander(s.table[j], s'.table[j], p, n) {
      assert NamesOk(s.table[j], n);
      PassSlot(s.table, p, j, n);
    }
    BystandersKeep(s, s', p);
  }

  lemma {:induction false} PassOnSafe(s: State, c: nat, p: nat)
    requires Runs(s, c, p) && s.table[p].pc.PassOn?
    ensures Invariant(ProcStep(s, c, p))
  {
    InTableKeeps(s, c, p);
    Running(s, c, p);
    OthersOutside(s, c, p);
    PassOnKin(s.table, p);
    PassOnRest(s, ProcStep(s, c, p), p);
  }

  lemma {:induction false} ReapRest(s: State, s': State, p: nat, k: nat)
    requires Rest(s) && p < |s.table| && k < |s.table| && k != p && k != INIT && s'.locks == s.locks
    requires s.table[p].state == RUNNING && s.table[p].pc.Wait?
    requires s.table[k].state == ZOMBIE && StateOk(s.table[k], k)
    requires s'.table == s.table[k := Reap(s.table[k])][p := s.table[p].(pc := Unlock(User))]
    ensures Rest(s')
  {
    assert NamesOk(s.table[p], |s.locks|) && NamesOk(s.table[k], |s.locks|);
    assert forall j | 0 <= j < |s.table| && j != p && j != k :: NamesOk(s.table[j], |s.locks|);
    ReapKin(s.table, p, k, s'.table[p]);
    BystandersKeep(s, s', p);
  }

  lemma {:induction false} WaitSleepRest(s: State, s': State, p: nat)
    requires Rest(s) && p < |s.table| && s'.locks == s.locks && s.table[p].state == RUNNING && s.table[p].pc.Wait?
    requires First(s.table, ZombieChild(p), 0) == None
    requires forall j | 0 <= j < |s.table| && j != p :: !s.table[j].pc.PassOn? && !s.table[j].pc.Dying?
    requires s'.table == s.table[p := s.table[p].(chan := OnProc(p), state := SLEEPING, pc := Swtch(AfterWait))]
    ensures Rest(s')
  {
    assert forall j | 0 <= j < |s.table| :: NamesOk(s.table[j], |s.locks|);
    SleepInWaitKin(s.table, p, s'.table[p]);
    BystandersKeep(s, s', p);
  }

  lemma {:induction false} WaitSafe(s: State, c: nat, p: nat)
    requires Runs(s, c, p) && s.table[p].pc.Wait?
    ensures Invariant(ProcStep(s, c, p))
  {
    InTableKeeps(s, c, p);
    Running(s, c, p);
    var me, s' := s.table[p], ProcStep(s, c, p);
    var z := First(s.table, ZombieChild(p), 0);
    if z.Some? {
      BesideInTable(s, c, p, z.value);
      ReapRest(s, s', p, z.value);
    } else if s'.table[p].pc.Unlock? {
      assert NamesOk(me, |s.locks|);
      ReturnPlain(me, p, |s.locks|);
      PlainKeeps(s, s', p, s'.table[p]);
    } else {
      OthersOutside(s, c, p);
      WaitSleepRest(s, s', p);
    }
  }

  lemma {:induction false} DyingSafe(s: State, c: nat, p: nat)
    requires Runs(s, c, p) && s.table[p].pc.Dying?
    ensures Invariant(ProcStep(s, c, p))
  {
    InTableKeeps(s, c, p);
    Running(s, c, p);
    assert forall j | 0 <= j < |s.table| :: NamesOk(s.table[j], |s.locks|);
    DyingKin(s.table, p);
    BystandersKeep(s, ProcStep(s, c, p), p);
  }

  lemma {:induction false} KillRest(s: State, s': State, p: nat, k: nat)
    requires Rest(s) && p < |s.table| && k < |s.table| && k != p && s'.locks == s.locks
    requires s.table[p].state == RUNNING && s.table[p].pc.Killing?
    requires s'.table == s.table[k := KillOne(s.table[k])][p := s.table[p].(pc := Unlock(User))]
    ensures Rest(s')
  {
    assert forall j | 0 <= j < |s.table| :: NamesOk(s.table[j], |s.locks|);
    KillSlot(s.table[k], p, |s.locks|);
    FamilyKept(s.table, s'.table);
    BystandersKeep(s, s', p);
  }

  lemma {:induction false} KillingSafe(s: State, c: nat, p: nat)
    requires Runs(s, c, p) && s.table[p].pc.Killing?
    ensures Invariant(ProcStep(s, c, p))
  {
    InTableKeeps(s, c, p);
    Running(s, c, p);
    var me, s' := s.table[p], ProcStep(s, c, p);
    var k := First(s.table, HasPid(me.pc.pid), 0);
    if k.Some? && k.value != p {
      KillRest(s, s', p, k.value);
    } else {
      assert NamesOk(me, |s.locks|);
      ReturnPlain(me, p, |s.locks|);
      PlainKeeps(s, s', p, s'.table[p]);
    }
  }

  lemma {:induction false} AllocRest(s: State, s': State, p: nat, k: nat)
    requires Rest(s) && p < |s.table| && k < |s.table| && k != p && s'.locks == s.locks
    requires s.table[p].state == RUNNING && s.table[p].pc.Alloc?
    requires s.table[k].state == UNUSED && ProcOk(s.table[k], k)
    requires s'.table ==
               s.table[k := s.table[k].(state := EMBRYO, pid := s.nextpid)]
                      [p := s.table[p].(pc := Unlock(ForkStack(k)))]
    ensures Rest(s')
  {
    assert forall j | 0 <= j < |s.table| :: NamesOk(s.table[j], |s.locks|);
    AllocTargets(s.table, p, k, s'.table[p], s'.table[k]);
    FamilyKept(s.table, s'.table);
    LocksKept(s, s');
  }

  lemma {:induction false} AllocSafe(s: State, c: nat, p: nat)
    requires Runs(s, c, p) && s.table[p].pc.Alloc?
    ensures Invariant(ProcStep(s, c, p))
  {
    InTableKeeps(s, c, p);
    Running(s, c, p);
    var me, s' := s.table[p], ProcStep(s, c, p);
    var u := First(s.table, Unused(), 0);
    if u.Some? {
      BesideInTable(s, c, p, u.value);
      AllocRest(s, s', p, u.value);
    } else {
      assert NamesOk(me, |s.locks|);
      ReturnPlain(me, p, |s.locks|);
      PlainKeeps(s, s', p, s'.table[p]);
    }
  }

  // ----- fork outside ptable.lock -----

  lemma {:induction false} ForkSlots(t: Table, p: nat)
    requires Targets(t) && Procs(t) && p < |t| && InFork(t[p].pc) && t[p].state == RUNNING
    ensures var t', k := ForkStep(t, p), t[p].pc.np;
            && k < |t| && k != p && t' == t[k := t'[k]][p := t'[p]]
            && ProcOk(t'[k], k) && Beside(t[k], t'[k]) && ProcOk(t'[p], p) && t'[p] == t[p].(pc := t'[p].pc)
            && !InTable(t'[p].pc) && t'[k].held == t[k].held == {}
  {
    assert BuildsOk(t, p) && ProcOk(t[p], p) && ProcOk(t[t[p].pc.np], t[p].pc.np);
  }

  lemma {:induction false} ForkSafe(s: State, c: nat, p: nat)
    requires Runs(s, c, p) && InFork(s.table[p].pc)
    ensures Invariant(ProcStep(s, c, p))
  {
    Running(s, c, p);
    var s', k := ProcStep(s, c, p), s.table[p].pc.np;
    ForkSlots(s.table, p);
    PairStepKeeps(s, c, p, s'.table[p], k, s'.table[k], s.nextpid);
    ForkRest(s, s', p);
  }

  lemma {:induction false} ForkUnnoticed(t: Table, p: nat, n: nat)
    requires p < |t| && InFork(t[p].pc) && BuildsOk(t, p) && NamesOk(t[p], n)
    requires var k := t[p].pc.np; NamesOk(t[k], n) && ProcOk(t[k], k)
    ensures var t', k := ForkStep(t, p), t[p].pc.np;
            && |t'| == |t| && Unnoticed(t[p], t'[p]) && NamesOk(t'[p], n) && Unnoticed(t[k], t'[k]) && NamesOk(t'[k], n)
            && OwesPc(t[p].pc) == None && OwesPc(t[k].pc) == None
  {
  }

  lemma {:induction false} ForkLocks(s: State, s': State, p: nat)
    requires LocksOk(s) && Targets(s.table) && Procs(s.table) && p < |s.table|
    requires InFork(s.table[p].pc) && s.table[p].state == RUNNING
    requires s'.table == ForkStep(s.table, p) && s'.locks == s.locks
    ensures LocksOk(s')
  {
    var k := s.table[p].pc.np;
    assert BuildsOk(s.table, p);
    assert NamesOk(s.table[p], |s.locks|) && NamesOk(s.table[k], |s.locks|) && ProcOk(s.table[k], k);
    ForkUnnoticed(s.table, p, |s.locks|);
    forall j {:trigger s'.table[j]} | 0 <= j < |s.table| && j != p && j != k
      ensures s'.table[j] == s.table[j] && NamesOk(s'.table[j], |s.locks|)
    {
      assert NamesOk(s.table[j], |s.locks|);
    }
    LocksKept(s, s');
  }

  lemma {:induction false} ForkRest(s: State, s': State, p: nat)
    requires Rest(s) && Procs(s.table) && p < |s.table| && InFork(s.table[p].pc) && s.table[p].state == RUNNING
    requires s'.table == ForkStep(s.table, p) && s'.locks == s.locks
    ensures Rest(s')
  {
    forall j | 0 <= j < |s.table| && s.table[j].state == EMBRYO ensures !InFork(Base(s.table[j].pc)) {
      assert ProcOk(s.table[j], j);
    }
    ForkTargets(s.table, p);
    ForkKin(s.table, p);
    ForkLocks(s, s', p);
  }

  // ----- every step, every run -----

  lemma {:induction false} ProcSafe(s: State, c: nat, p: nat)
    requires Runs(s, c, p)
    ensures Invariant(ProcStep(s, c, p))
  {
    var pc := s.table[p].pc;
    assert NamesOk(s.table[p], |s.locks|) && SpinsOk(s, p);
    if WantsTable(pc) || DropsTable(pc) {
      TakeSafe(s, c, p);
    } else if pc.Swtch? {
      SwitchSafe(s, c, p);
    } else if InFork(pc) {
      ForkSafe(s, c, p);
    } else if LockOf(pc).Some? {
      LockSafe(s, c, p);
    } else {
      match pc
      case Notifying(_, _) => NotifySafe(s, c, p);
      case Exiting => ExitingSafe(s, c, p);
      case PassOn => PassOnSafe(s, c, p);
      case Wait => WaitSafe(s, c, p);
      case Dying => DyingSafe(s, c, p);
      case Killing(_) => KillingSafe(s, c, p);
      case Alloc => AllocSafe(s, c, p);
      case Dozing(_, _) => OwnSafe(s, c, p);
      case Marking(_, _) => OwnSafe(s, c, p);
      case Yield(_) => OwnSafe(s, c, p);
      case Back(k) => if k == AfterWait { OwnSafe(s, c, p); }
      case _ =>
    }
  }

  lemma {:induction false} StepKeeps(s: State, step: Step)
    requires Invariant(s)
    ensures Invariant(Next(s, step))
  {
    if step.c < |s.cpus| {
      var at := s.cpus[step.c].at;
      if step.Go? && !at.On? {
        SchedSafe(s, step.c);
      } else if at.On? && at.i < |s.table| {
        var p := at.i;
        match step
        case Go(c) => ProcSafe(s, c, p);
        case Call(c, op) =>
          if s.table[p].pc == User && MayCall(s, p, op) { CallSafe(s, c, p, op); }
        case Preempt(c) =>
          if Preemptible(s.table[p].pc) && s.lock == None { PreemptSafe(s, c, p); }
      }
    }
  }

  lemma {:induction false} BootedOk(s: State)
    requires Booted(s)
    ensures Invariant(s)
  {
  }

  /** Every interleaving of any number of CPUs and processes keeps the invariant. */
  lemma {:induction false} RunsKeep(s: State, steps: seq<Step>)
    requires Booted(s)
    ensures Invariant(Run(s, steps))
  {
    if steps == [] {
      BootedOk(s);
    } else {
      RunsKeep(s, steps[..|steps| - 1]);
      StepKeeps(Run(s, steps[..|steps| - 1]), steps[|steps| - 1]);
    }
  }

  // ----- what follows -----

  /** No lost wakeup in wait: a process asleep there has no zombie child, its own or inherited. */
  lemma {:induction false} NoLostWakeupInWait(s: State, steps: seq<Step>, p: nat, q: nat)
    requires Booted(s) && p < |Run(s, steps).table| && q < |Run(s, steps).table|
    requires var me := Run(s, steps).table[p]; me.state == SLEEPING && me.chan == OnProc(p)
    requires Run(s, steps).table[q].parent == Some(p)
    ensures Run(s, steps).table[q].state != ZOMBIE
  {
    RunsKeep(s, steps);
    assert KinOk(Run(s, steps).table, q);
  }

  /** A zombie always has a living parent to collect it, and that parent is not asleep in wait. */
  lemma {:induction false} ZombieIsCollected(s: State, steps: seq<Step>, q: nat)
    requires Booted(s) && q < |Run(s, steps).table| && Run(s, steps).table[q].state == ZOMBIE
    ensures var t := Run(s, steps).table;
            && t[q].parent.Some? && t[q].parent.value < |t| && Live(t[t[q].parent.value].state)
            && !(t[t[q].parent.value].state == SLEEPING && t[t[q].parent.value].chan == OnProc(t[q].parent.value))
  {
    RunsKeep(s, steps);
    var t := Run(s, steps).table;
    assert KinOk(t, q) && ProcOk(t[q], q);
  }

  /** No lost wakeup in acquiresleep: with the lock's spin lock free, whoever sleeps on the lock faces
      a held lock. */
  lemma {:induction false} NoLostWakeupOnLock(s: State, steps: seq<Step>, p: nat, l: nat)
    requires Booted(s) && p < |Run(s, steps).table| && l < |Run(s, steps).locks|
    requires var me := Run(s, steps).table[p]; me.state == SLEEPING && me.chan == OnLock(l)
    requires Run(s, steps).locks[l].spin == None
    ensures Run(s, steps).locks[l].locked
  {
    RunsKeep(s, steps);
    var r := Run(s, steps);
    assert WaiterOk(r, p) && ProcOk(r.table[p], p);
  }

  /** A process that has acquired a sleep lock and not released it is alone in that, and the lock
      carries its pid. */
  lemma {:induction false} OneHolder(s: State, steps: seq<Step>, p: nat, q: nat, l: nat)
    requires Booted(s) && p < |Run(s, steps).table| && q < |Run(s, steps).table|
    requires l in Run(s, steps).table[p].held
    ensures l in Run(s, steps).table[q].held ==> q == p
    ensures var r := Run(s, steps); l < |r.locks| && r.locks[l].locked && r.locks[l].pid == r.table[p].pid
  {
    RunsKeep(s, steps);
    var r := Run(s, steps);
    assert HoldsOk(r, p) && HoldsOk(r, q);
    assert LockOk(r, l);
  }

  /** With ptable.lock free a process is RUNNING exactly when a CPU has it as `proc`, and never do two
      CPUs have the same one. */
  lemma {:induction false} RunningIffCurrent(s: State, steps: seq<Step>, p: nat)
    requires Booted(s) && p < |Run(s, steps).table|
    ensures var r := Run(s, steps);
            && (r.lock == None ==>
                 (r.table[p].state == RUNNING <==> exists c :: 0 <= c < |r.cpus| && r.cpus[c].cur == Some(p)))
            && (forall c, d | 0 <= c < |r.cpus| && 0 <= d < |r.cpus| && r.cpus[c].cur == r.cpus[d].cur == Some(p) ::
                   c == d)
  {
    RunsKeep(s, steps);
    var r := Run(s, steps);
    assert ProcOk(r.table[p], p) && HostOk(r, p);
    forall c | 0 <= c < |r.cpus| && r.cpus[c].cur == Some(p)
      ensures r.table[p].host == Some(c) && (r.lock == None ==> r.table[p].state == RUNNING)
    {
      assert CpuOk(r.cpus[c], r.table, c);
      assert r.lock == Some(c) <==> Holding(r.cpus[c], r.table);
    }
  }

  /** No CPU is on, or about to switch to, a kernel stack that has been freed. */
  lemma {:induction false} NeverOnFreedStack(s: State, steps: seq<Step>, c: nat)
    requires Booted(s) && c < |Run(s, steps).cpus|
    ensures var r := Run(s, steps); var at := r.cpus[c].at;
            at.On? || at.Entering? || at.Chosen? ==> at.i < |r.table| && r.table[at.i].kstack
  {
    RunsKeep(s, steps);
    var r := Run(s, steps);
    assert CpuOk(r.cpus[c], r.table, c);
    var at := r.cpus[c].at;
    if at.On? || at.Entering? || at.Chosen? { assert ProcOk(r.table[at.i], at.i); }
  }

  lemma {:induction false} StackKeptInTable(t: Table, n: nat, p: nat, z: nat)
    requires p < |t| && z < |t| && Procs(t) && t[z].kstack && InTableOp(t[p].pc)
    ensures |InTableStep(t, n, p).0| == |t|
    ensures InTableStep(t, n, p).0[z].kstack || (t[p].pc.Wait? && z != p && First(t, ZombieChild(p), 0) == Some(z))
  {
    if t[p].pc.Alloc? {
      var u := First(t, Unused(), 0);
      if u.Some? { assert ProcOk(t[u.value], u.value); }
    }
  }

  lemma {:induction false} FreesOnlyInWait(s: State, c: nat, p: nat, z: nat)
    requires Runs(s, c, p) && z < |s.table| && s.table[z].kstack
    ensures |ProcStep(s, c, p).table| == |s.table|
    ensures ProcStep(s, c, p).table[z].kstack
            || (s.table[p].pc.Wait? && z != p && First(s.table, ZombieChild(p), 0) == Some(z))
  {
    Running(s, c, p);
    if InTableOp(s.table[p].pc) {
      StackKeptInTable(s.table, s.nextpid, p, z);
    } else if InFork(s.table[p].pc) {
      assert BuildsOk(s.table, p);
    }
  }

  /** The stack wait frees belongs to a zombie that its CPU has left. */
  lemma {:induction false} ReapsOffCpu(s: State, steps: seq<Step>, c: nat, z: nat, d: nat)
    requires Booted(s) && c < |Run(s, steps).cpus| && d < |Run(s, steps).cpus|
    requires var r := Run(s, steps); z < |r.table| && r.table[z].kstack && !Next(r, Go(c)).table[z].kstack
    ensures var r := Run(s, steps); r.table[z].state == ZOMBIE && r.cpus[d].cur != Some(z) && r.cpus[d].at != On(z)
  {
    RunsKeep(s, steps);
    var r := Run(s, steps);
    var at := r.cpus[c].at;
    assert CpuOk(r.cpus[c], r.table, c) && CpuOk(r.cpus[d], r.table, d);
    assert at.On?;
    var p := at.i;
    FreesOnlyInWait(r, c, p, z);
    BesideInTable(r, c, p, z);
  }

  /** Three of the panics of sched cannot happen: whoever switches away holds ptable.lock, is inside the
      spin lock of no sleep lock, so that ptable.lock is its only one and ncli is 1, and is no longer
      RUNNING. The fourth, on the interrupt flag, is about the processor and not modelled. */
  lemma {:induction false} SchedNeverPanics(s: State, steps: seq<Step>, c: nat, p: nat)
    requires Booted(s) && c < |Run(s, steps).cpus| && Run(s, steps).cpus[c].at == On(p)
    requires p < |Run(s, steps).table| && Run(s, steps).table[p].pc.Swtch?
    ensures Run(s, steps).lock == Some(c) && Run(s, steps).table[p].state != RUNNING
    ensures forall l | 0 <= l < |Run(s, steps).locks| :: Run(s, steps).locks[l].spin != Some(p)
  {
    RunsKeep(s, steps);
    var r := Run(s, steps);
    Running(r, c, p);
    forall l | 0 <= l < |r.locks| ensures r.locks[l].spin != Some(p) {
      assert LockOk(r, l);
    }
  }
}
