/** Which CPU runs which process, who is inside ptable.lock, and what each state of a process means:
    the part of the invariant the other safety properties stand on. */
module SchedulerCore {
  import opened Options
  import opened ProcTable
  import opened Scheduler

  // ----- program points -----

  /** Points inside ptable.lock. */
  predicate InTable(pc: Pc) {
    DropsTable(pc) || InTableOp(pc) || pc.Swtch? || pc.Back? || pc.Dozing?
  }

  /** Where a process that may be scheduled is parked. */
  predicate Parked(pc: Pc) {
    pc.ForkRet? || (pc.Back? && pc.k != Dead)
  }

  predicate SleepsOn(chan: Chan, ret: Pc) {
    (chan.OnOther? && ret == User) || (chan.OnLock? && ret == Acquire(chan.l))
  }

  predicate NotifiesOn(chan: Chan, ret: Pc) {
    (chan.OnOther? && ret == User) || (chan.OnLock? && ret == Done(chan.l))
  }

  predicate PcOk(pc: Pc) {
    match pc
    case Unlock(ret) => ret.User? || ret.ForkStack? || ret.Done?
    case Yield(ret) => Preemptible(ret)
    case Swtch(k) => ContOk(k)
    case Back(k) => ContOk(k)
    case Notify(chan, ret) => NotifiesOn(chan, ret)
    case Notifying(chan, ret) => NotifiesOn(chan, ret)
    case Doze(chan, ret) => SleepsOn(chan, ret)
    case Dozing(chan, ret) => SleepsOn(chan, ret)
    case Marking(chan, ret) => SleepsOn(chan, ret)
    case _ => true
  }

  predicate ContOk(k: Cont) {
    match k
    case AfterYield(ret) => Preemptible(ret)
    case AfterSleep(ret) => ret.User? || ret.Acquire?
    case _ => true
  }

  /** The point of the process's own code, under a yield or a pending release of ptable.lock. */
  function Base(pc: Pc): Pc {
    match pc
    case Unlock(ret) => ret
    case Yield(ret) => ret
    case Swtch(AfterYield(ret)) => ret
    case Back(AfterYield(ret)) => ret
    case _ => pc
  }

  predicate Exits(pc: Pc) {
    pc.Exit? || pc.Exiting? || pc.PassOn? || pc.Dying?
  }

  // ----- processes and CPUs -----

  predicate Live(st: ProcState) {
    st == SLEEPING || st == RUNNABLE || st == RUNNING
  }

  predicate AsleepOk(q: Proc, p: nat) {
    && (q.pc.Swtch? || q.pc.Back?)
    && ((q.chan == OnProc(p) && q.pc.k == AfterWait)
        || (q.pc.k.AfterSleep? && SleepsOn(q.chan, q.pc.k.ret)))
  }

  predicate StateOk(q: Proc, p: nat) {
    match q.state
    case UNUSED =>
      q.host == None && !q.kstack && q.held == {} && q.parent == None && (q.pc == ForkRet || q.pc == Back(Dead))
    case EMBRYO => q.host == None && q.held == {} && (q.pc == ForkRet || q.pc == Back(Dead))
    case SLEEPING => q.kstack && AsleepOk(q, p)
    case RUNNABLE => q.kstack && (Parked(q.pc) || (q.pc.Swtch? && q.pc.k.AfterYield?))
    case RUNNING => q.kstack && q.host.Some? && !q.pc.Swtch? && q.pc != Back(Dead)
    case ZOMBIE => q.kstack && q.held == {} && (q.pc == Swtch(Dead) || q.pc == Back(Dead))
  }

  predicate ProcOk(q: Proc, p: nat) {
    && PcOk(q.pc) && StateOk(q, p)
    && (q.pc.Swtch? ==> q.host.Some?)
    && (Exits(Base(q.pc)) ==> q.held == {} && p != INIT)
    && (p == INIT ==> Live(q.state) && q.parent == None)
  }

  /** What a CPU's place says about the process it has as `proc`. */
  predicate CpuOk(u: Cpu, t: Table, c: nat) {
    match u.at
    case Idle => u.cur == None
    case Scan(i) => u.cur == None
    case Chosen(i) => u.cur == Some(i) && i < |t| && t[i].host == Some(c) && t[i].state == RUNNABLE && Parked(t[i].pc)
    case Entering(i) => u.cur == Some(i) && i < |t| && t[i].host == Some(c) && t[i].state == RUNNING && Parked(t[i].pc)
    case On(i) => u.cur == Some(i) && i < |t| && t[i].host == Some(c) && (t[i].state == RUNNING <==> !t[i].pc.Swtch?)
    case Leaving(i) => u.cur == Some(i) && i < |t| && t[i].host == Some(c) && t[i].state != RUNNING && t[i].pc.Back?
  }

  /** The CPU is inside ptable.lock. */
  predicate Holding(u: Cpu, t: Table) {
    u.at.Scan? || u.at.Chosen? || u.at.Entering? || u.at.Leaving? || (u.at.On? && u.at.i < |t| && InTable(t[u.at.i].pc))
  }

  predicate HostOk(s: State, p: nat)
    requires p < |s.table|
  {
    s.table[p].host.Some? ==> s.table[p].host.value < |s.cpus| && s.cpus[s.table[p].host.value].cur == Some(p)
  }

  ghost predicate Procs(t: Table) {
    |t| >= 1 && forall p | 0 <= p < |t| :: ProcOk(t[p], p)
  }

  ghost predicate Core(s: State) {
    && Procs(s.table)
    && (forall p | 0 <= p < |s.table| :: HostOk(s, p))
    && (forall c | 0 <= c < |s.cpus| :: CpuOk(s.cpus[c], s.table, c))
    && (forall c | 0 <= c < |s.cpus| :: s.lock == Some(c) <==> Holding(s.cpus[c], s.table))
    && (s.lock.Some? ==> s.lock.value < |s.cpus|)
  }

  /** Whatever other CPUs host is left alone while c is inside ptable.lock. */
  lemma {:induction false} HostedElsewhere(s: State, c: nat, p: nat)
    requires Core(s) && p < |s.table| && s.lock == Some(c)
    requires s.table[p].host.Some? && s.table[p].host != Some(c)
    ensures s.table[p].state == RUNNING && !InTable(s.table[p].pc)
  {
    var d := s.table[p].host.value;
    assert HostOk(s, p) && CpuOk(s.cpus[d], s.table, d);
    assert s.lock == Some(d) <==> Holding(s.cpus[d], s.table);
  }

  lemma {:induction false} Hosted(s: State, c: nat, p: nat)
    requires Core(s) && p < |s.table| && s.table[p].host == Some(c)
    ensures c < |s.cpus| && s.cpus[c].cur == Some(p)
  {
    assert HostOk(s, p);
  }

  predicate OwnLock(l: Option<nat>, l': Option<nat>, c: nat) {
    l' == l || ((l == None || l == Some(c)) && (l' == None || l' == Some(c)))
  }

  /** What a step of CPU c may do to slot p. */
  predicate Touch(q: Proc, q': Proc, c: nat) {
    && (q'.host == q.host || ((q.host == None || q.host == Some(c)) && (q'.host == None || q'.host == Some(c))))
    && (q.host.Some? && q.host != Some(c) ==> q'.state == q.state && q'.pc == q.pc)
  }

  ghost predicate StepOf(s: State, s': State, c: nat) {
    && c < |s.cpus| && |s'.cpus| == |s.cpus| && |s'.table| == |s.table|
    && (forall d {:trigger s'.cpus[d]} | 0 <= d < |s.cpus| && d != c :: s'.cpus[d] == s.cpus[d])
    && (forall p {:trigger s'.table[p]} | 0 <= p < |s.table| :: Touch(s.table[p], s'.table[p], c))
    && OwnLock(s.lock, s'.lock, c)
  }

  lemma {:induction false} CoreKept(s: State, s': State, c: nat)
    requires Core(s) && StepOf(s, s', c) && Procs(s'.table)
    requires forall p | 0 <= p < |s'.table| && s'.table[p].host == Some(c) :: s'.cpus[c].cur == Some(p)
    requires CpuOk(s'.cpus[c], s'.table, c)
    requires s'.lock == Some(c) <==> Holding(s'.cpus[c], s'.table)
    ensures Core(s')
  {
    forall p | 0 <= p < |s'.table| ensures HostOk(s', p) {
      assert HostOk(s, p) && Touch(s.table[p], s'.table[p], c);
    }
    forall d | 0 <= d < |s'.cpus|
      ensures CpuOk(s'.cpus[d], s'.table, d)
      ensures s'.lock == Some(d) <==> Holding(s'.cpus[d], s'.table)
    {
      if d != c {
        assert CpuOk(s.cpus[d], s.table, d);
        assert s.lock == Some(d) <==> Holding(s.cpus[d], s.table);
        if s.cpus[d].cur.Some? {
          var p := s.cpus[d].cur.value;
          assert Touch(s.table[p], s'.table[p], c);
        }
      }
    }
  }

  // ----- the scheduler's steps -----

  lemma {:induction false} FreeToChoose(s: State, c: nat, i: nat)
    requires Core(s) && c < |s.cpus| && s.cpus[c].at.Scan? && i < |s.table| && s.table[i].state != RUNNING
    ensures s.table[i].host == None
  {
    assert CpuOk(s.cpus[c], s.table, c);
    assert s.lock == Some(c) <==> Holding(s.cpus[c], s.table);
    if s.table[i].host.Some? {
      if s.table[i].host == Some(c) {
        Hosted(s, c, i);
      } else {
        HostedElsewhere(s, c, i);
      }
    }
  }

  lemma {:induction false} OnlyCurrent(s: State, c: nat)
    requires Core(s) && c < |s.cpus|
    ensures forall p | 0 <= p < |s.table| && s.table[p].host == Some(c) :: s.cpus[c].cur == Some(p)
  {
    forall p | 0 <= p < |s.table| && s.table[p].host == Some(c) ensures s.cpus[c].cur == Some(p) {
      Hosted(s, c, p);
    }
  }

  lemma {:induction false} SchedKeeps(s: State, c: nat)
    requires Core(s) && c < |s.cpus|
    ensures Core(SchedStep(s, c))
  {
    var s', at := SchedStep(s, c), s.cpus[c].at;
    assert CpuOk(s.cpus[c], s.table, c);
    assert s.lock == Some(c) <==> Holding(s.cpus[c], s.table);
    OnlyCurrent(s, c);
    if at.Scan? && at.i < |s.table| && s.table[at.i].state == RUNNABLE {
      FreeToChoose(s, c, at.i);
      assert ProcOk(s.table[at.i], at.i);
    }
    if at.Chosen? || at.Leaving? {
      assert ProcOk(s.table[at.i], at.i);
    }
    CoreKept(s, s', c);
  }

  // ----- steps of a process on its own record -----

  /** Process p runs on CPU c, and the step changes nothing but its record, ptable.lock and sleep
      locks. */
  lemma {:induction false} OwnStepKeeps(s: State, c: nat, p: nat, q: Proc, lock: Option<nat>, locks: seq<SleepLock>)
    requires Core(s) && c < |s.cpus| && s.cpus[c].at == On(p)
    requires p < |s.table| && ProcOk(q, p) && q.host == Some(c) && (q.state == RUNNING <==> !q.pc.Swtch?)
    requires OwnLock(s.lock, lock, c) && (lock == Some(c) <==> InTable(q.pc))
    ensures Core(s.(table := s.table[p := q], lock := lock, locks := locks))
  {
    var s' := s.(table := s.table[p := q], lock := lock, locks := locks);
    assert CpuOk(s.cpus[c], s.table, c);
    OnlyCurrent(s, c);
    CoreKept(s, s', c);
  }

  lemma {:induction false} Running(s: State, c: nat, p: nat)
    requires Core(s) && c < |s.cpus| && s.cpus[c].at == On(p)
    ensures p < |s.table| && s.table[p].host == Some(c) && ProcOk(s.table[p], p)
    ensures s.table[p].state == RUNNING <==> !s.table[p].pc.Swtch?
    ensures s.lock == Some(c) <==> InTable(s.table[p].pc)
  {
    assert CpuOk(s.cpus[c], s.table, c);
    assert s.lock == Some(c) <==> Holding(s.cpus[c], s.table);
  }

  lemma {:induction false} SwitchKeeps(s: State, c: nat, p: nat)
    requires Core(s) && c < |s.cpus| && s.cpus[c].at == On(p) && p < |s.table| && s.table[p].pc.Swtch?
    ensures Core(ProcStep(s, c, p))
  {
    Running(s, c, p);
    OnlyCurrent(s, c);
    CoreKept(s, ProcStep(s, c, p), c);
  }

  lemma {:induction false} TakeKeeps(s: State, c: nat, p: nat)
    requires Core(s) && c < |s.cpus| && s.cpus[c].at == On(p) && p < |s.table|
    requires WantsTable(s.table[p].pc) || DropsTable(s.table[p].pc)
    ensures Core(ProcStep(s, c, p))
  {
    Running(s, c, p);
    var s' := ProcStep(s, c, p);
    if s' != s {
      OwnStepKeeps(s, c, p, s'.table[p], s'.lock, s.locks);
    }
  }

  lemma {:induction false} LockStepOwn(me: Proc, lk: SleepLock, p: nat, l: nat)
    requires ProcOk(me, p) && me.state == RUNNING && LockOf(me.pc) == Some(l)
    ensures var q := LockStep(me, lk, p, l).0;
            && ProcOk(q, p) && q.host == me.host && q.state == RUNNING && !q.pc.Swtch?
            && (InTable(q.pc) <==> InTable(me.pc))
  {
  }

  lemma {:induction false} LockStepKeeps(s: State, c: nat, p: nat)
    requires Core(s) && c < |s.cpus| && s.cpus[c].at == On(p) && p < |s.table|
    requires LockOf(s.table[p].pc).Some? && LockOf(s.table[p].pc).value < |s.locks|
    ensures Core(ProcStep(s, c, p))
  {
    Running(s, c, p);
    var me, l := s.table[p], LockOf(s.table[p].pc).value;
    LockStepOwn(me, s.locks[l], p, l);
    var (q, lk) := LockStep(me, s.locks[l], p, l);
    OwnStepKeeps(s, c, p, q, s.lock, s.locks[l := lk]);
  }

  lemma {:induction false} DozingKeeps(s: State, c: nat, p: nat)
    requires Core(s) && c < |s.cpus| && s.cpus[c].at == On(p) && p < |s.table|
    requires s.table[p].pc.Dozing? && LockOf(s.table[p].pc) == None
    ensures Core(ProcStep(s, c, p))
  {
    Running(s, c, p);
    var me := s.table[p];
    OwnStepKeeps(s, c, p, me.(pc := Marking(me.pc.chan, me.pc.ret)), s.lock, s.locks);
  }

  lemma {:induction false} CallKeeps(s: State, c: nat, p: nat, op: Op)
    requires Core(s) && c < |s.cpus| && s.cpus[c].at == On(p) && p < |s.table|
    requires s.table[p].pc == User && MayCall(s, p, op)
    ensures Core(Next(s, Call(c, op)))
  {
    Running(s, c, p);
    OwnStepKeeps(s, c, p, s.table[p].(pc := Entry(op)), s.lock, s.locks);
  }

  lemma {:induction false} PreemptKeeps(s: State, c: nat, p: nat)
    requires Core(s) && c < |s.cpus| && s.cpus[c].at == On(p) && p < |s.table|
    requires Preemptible(s.table[p].pc) && s.lock == None
    ensures Core(Next(s, Preempt(c)))
  {
    Running(s, c, p);
    OwnStepKeeps(s, c, p, s.table[p].(pc := Yield(s.table[p].pc)), Some(c), s.locks);
  }

  // ----- steps on other records -----

  /** A slot that is on a CPU keeps its state and its place. */
  predicate Beside(q: Proc, q': Proc) {
    q'.host == q.host && (q.host.Some? ==> q'.state == q.state && q'.pc == q.pc)
  }

  lemma {:induction false} TableStepKeeps(s: State, c: nat, p: nat, t: Table, nextpid: nat)
    requires Core(s) && c < |s.cpus| && s.cpus[c].at == On(p) && p < |s.table| == |t|
    requires Procs(t) && t[p].host == Some(c) && (t[p].state == RUNNING <==> !t[p].pc.Swtch?)
    requires InTable(t[p].pc) <==> InTable(s.table[p].pc)
    requires forall j {:trigger t[j]} | 0 <= j < |t| && j != p :: Beside(s.table[j], t[j])
    ensures Core(s.(table := t, nextpid := nextpid))
  {
    Running(s, c, p);
    OnlyCurrent(s, c);
    CoreKept(s, s.(table := t, nextpid := nextpid), c);
  }

  /** A slot other than p's, while p is inside ptable.lock. */
  lemma {:induction false} BesideInTable(s: State, c: nat, p: nat, j: nat)
    requires Core(s) && c < |s.cpus| && s.cpus[c].at == On(p) && p < |s.table| && InTable(s.table[p].pc)
    requires j < |s.table| && j != p
    ensures ProcOk(s.table[j], j)
    ensures s.table[j].host.Some? ==> s.table[j].state == RUNNING && !InTable(s.table[j].pc)
    ensures s.table[j].host == None ==> s.table[j].state != RUNNING
    ensures Exits(s.table[j].pc) ==> s.table[j].pc.Exit?
  {
    Running(s, c, p);
    if s.table[j].host == Some(c) {
      Hosted(s, c, j);
    } else if s.table[j].host.Some? {
      HostedElsewhere(s, c, j);
    }
  }

  lemma {:induction false} WokenOk(q: Proc, j: nat, chan: Chan)
    requires ProcOk(q, j) && (q.host.Some? ==> q.state == RUNNING)
    ensures ProcOk(WakeOne(q, chan), j) && Beside(q, WakeOne(q, chan))
    ensures ProcOk(KillOne(q), j) && Beside(q, KillOne(q))
  {
  }

  lemma {:induction false} WakeKeeps(s: State, c: nat, p: nat, chan: Chan, pc: Pc)
    requires Core(s) && c < |s.cpus| && s.cpus[c].at == On(p) && p < |s.table| && InTable(s.table[p].pc)
    requires s.table[p].state == RUNNING && ProcOk(s.table[p].(pc := pc), p) && InTable(pc)
    ensures Core(s.(table := WakeAll(s.table, chan)[p := s.table[p].(pc := pc)]))
  {
    var t := WakeAll(s.table, chan)[p := s.table[p].(pc := pc)];
    Running(s, c, p);
    forall j | 0 <= j < |t| ensures ProcOk(t[j], j) && (j != p ==> Beside(s.table[j], t[j])) {
      if j != p {
        BesideInTable(s, c, p, j);
        WokenOk(s.table[j], j, chan);
      }
    }
    TableStepKeeps(s, c, p, t, s.nextpid);
  }

  lemma {:induction false} PassOnKeeps(s: State, c: nat, p: nat)
    requires Core(s) && c < |s.cpus| && s.cpus[c].at == On(p) && p < |s.table| && s.table[p].pc.PassOn?
    ensures Core(ProcStep(s, c, p))
  {
    var t := InTableStep(s.table, s.nextpid, p).0;
    Running(s, c, p);
    forall j | 0 <= j < |t| ensures ProcOk(t[j], j) && (j != p ==> Beside(s.table[j], t[j])) {
      if j != p {
        BesideInTable(s, c, p, j);
        WokenOk(AdoptOne(s.table[j], p), j, OnProc(INIT));
      }
    }
    TableStepKeeps(s, c, p, t, s.nextpid);
  }

  /** A step that changes one other slot, which is on no CPU. */
  lemma {:induction false} PairStepKeeps(s: State, c: nat, p: nat, q: Proc, k: nat, r: Proc, nextpid: nat)
    requires Core(s) && c < |s.cpus| && s.cpus[c].at == On(p) && p < |s.table| && k < |s.table| && k != p
    requires ProcOk(q, p) && q.host == Some(c) && q.state == RUNNING && (InTable(q.pc) <==> InTable(s.table[p].pc))
    requires !q.pc.Swtch? && ProcOk(r, k) && Beside(s.table[k], r)
    ensures Core(s.(table := s.table[k := r][p := q], nextpid := nextpid))
  {
    TableStepKeeps(s, c, p, s.table[k := r][p := q], nextpid);
  }

  lemma {:induction false} WaitKeeps(s: State, c: nat, p: nat)
    requires Core(s) && c < |s.cpus| && s.cpus[c].at == On(p) && p < |s.table| && s.table[p].pc.Wait?
    ensures Core(ProcStep(s, c, p))
  {
    Running(s, c, p);
    var z := First(s.table, ZombieChild(p), 0);
    if z.Some? {
      BesideInTable(s, c, p, z.value);
      PairStepKeeps(s, c, p, s.table[p].(pc := Unlock(User)), z.value, Reap(s.table[z.value]), s.nextpid);
    } else {
      var t := InTableStep(s.table, s.nextpid, p).0;
      OwnStepKeeps(s, c, p, t[p], s.lock, s.locks);
    }
  }

  lemma {:induction false} AllocKeeps(s: State, c: nat, p: nat)
    requires Core(s) && c < |s.cpus| && s.cpus[c].at == On(p) && p < |s.table| && s.table[p].pc.Alloc?
    ensures Core(ProcStep(s, c, p))
  {
    Running(s, c, p);
    var u := First(s.table, Unused(), 0);
    if u.Some? {
      var k := u.value;
      BesideInTable(s, c, p, k);
      PairStepKeeps(s, c, p, s.table[p].(pc := Unlock(ForkStack(k))), k,
                    s.table[k].(state := EMBRYO, pid := s.nextpid), s.nextpid + 1);
    } else {
      OwnStepKeeps(s, c, p, s.table[p].(pc := Unlock(User)), s.lock, s.locks);
    }
  }

  lemma {:induction false} KillOtherKeeps(s: State, c: nat, p: nat, k: nat)
    requires Core(s) && c < |s.cpus| && s.cpus[c].at == On(p) && p < |s.table| && s.table[p].pc.Killing?
    requires k < |s.table| && k != p
    ensures Core(s.(table := s.table[k := KillOne(s.table[k])][p := s.table[p].(pc := Unlock(User))]))
  {
    Running(s, c, p);
    BesideInTable(s, c, p, k);
    WokenOk(s.table[k], k, NoChan);
    PairStepKeeps(s, c, p, s.table[p].(pc := Unlock(User)), k, KillOne(s.table[k]), s.nextpid);
  }

  lemma {:induction false} KillingKeeps(s: State, c: nat, p: nat)
    requires Core(s) && c < |s.cpus| && s.cpus[c].at == On(p) && p < |s.table| && s.table[p].pc.Killing?
    ensures Core(ProcStep(s, c, p))
  {
    var k := First(s.table, HasPid(s.table[p].pc.pid), 0);
    if k.Some? && k.value != p {
      KillOtherKeeps(s, c, p, k.value);
    } else {
      Running(s, c, p);
      var q := if k.Some? then KillOne(s.table[p]) else s.table[p];
      OwnStepKeeps(s, c, p, q.(pc := Unlock(User)), s.lock, s.locks);
      assert k.Some? ==> s.table[p := q][p := q.(pc := Unlock(User))] == s.table[p := q.(pc := Unlock(User))];
    }
  }

  /** The other steps inside ptable.lock change only the record of the process. */
  lemma {:induction false} OwnTableKeeps(s: State, c: nat, p: nat)
    requires Core(s) && c < |s.cpus| && s.cpus[c].at == On(p) && p < |s.table|
    requires var pc := s.table[p].pc; pc.Yield? || pc == Back(AfterWait) || pc.Dying? || pc.Marking?
    ensures Core(ProcStep(s, c, p))
  {
    Running(s, c, p);
    var t := InTableStep(s.table, s.nextpid, p).0;
    OwnStepKeeps(s, c, p, t[p], s.lock, s.locks);
  }

  lemma {:induction false} InTableKeeps(s: State, c: nat, p: nat)
    requires Core(s) && c < |s.cpus| && s.cpus[c].at == On(p) && p < |s.table| && InTableOp(s.table[p].pc)
    ensures Core(ProcStep(s, c, p))
  {
    Running(s, c, p);
    var me := s.table[p];
    match me.pc
    case Wait => WaitKeeps(s, c, p);
    case Alloc => AllocKeeps(s, c, p);
    case Killing(_) => KillingKeeps(s, c, p);
    case PassOn => PassOnKeeps(s, c, p);
    case Notifying(chan, ret) => WakeKeeps(s, c, p, chan, Unlock(ret));
    case Exiting =>
      if me.parent.Some? {
        WakeKeeps(s, c, p, OnProc(me.parent.value), PassOn);
      } else {
        OwnStepKeeps(s, c, p, me.(pc := PassOn), s.lock, s.locks);
      }
    case _ => OwnTableKeeps(s, c, p);
  }
}
