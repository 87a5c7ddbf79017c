/** Any number of CPUs running the scheduler of proc.c and, on behalf of processes, its yield, sleep,
    wakeup, fork, exit, wait and kill and the sleep locks of sleeplock.c, interleaved one step at a
    time. A loop over the process table under ptable.lock is one step. */
module Scheduler {
  import opened Options
  import opened ProcTable

  /** Where a CPU is: in the scheduler loop (at slot i, between choosing slot i and switching to it,
      or just back from it), or on the kernel stack of a process. */
  datatype Place =
    | Idle
    | Scan(i: nat)
    | Chosen(i: nat)
    | Entering(i: nat)
    | On(i: nat)
    | Leaving(i: nat)

  /** cur is the per-CPU variable `proc`. */
  datatype Cpu = Cpu(cur: Option<nat>, at: Place)

  /** spin is the process inside lk->lk. holder is the process the lock belongs to, which the kernel
      does not store. */
  datatype SleepLock = SleepLock(spin: Option<nat>, locked: bool, pid: nat, holder: Option<nat>)

  /** lock is the CPU holding ptable.lock. */
  datatype State = State(table: Table, cpus: seq<Cpu>, lock: Option<nat>, locks: seq<SleepLock>, nextpid: nat)

  datatype Op =
    | DoWait
    | DoExit
    | DoFork
    | DoKill(pid: nat)
    | DoAcquire(l: nat)
    | DoRelease(l: nat)
    | DoSleep(c: nat)
    | DoWakeup(c: nat)

  /** CPU c takes a step, its process enters the kernel, or its timer interrupts it. */
  datatype Step = Go(c: nat) | Call(c: nat, op: Op) | Preempt(c: nat)

  // ----- steps of a process -----

  /** Releasing a sleep lock one does not hold, exiting while holding one, and the exit of init are
      errors of the caller. */
  predicate MayCall(s: State, p: nat, op: Op)
    requires p < |s.table|
  {
    match op
    case DoExit => p != INIT && s.table[p].held == {}
    case DoAcquire(l) => l < |s.locks|
    case DoRelease(l) => l < |s.locks| && l in s.table[p].held
    case _ => true
  }

  function Entry(op: Op): Pc {
    match op
    case DoWait => WaitCall
    case DoExit => Exit
    case DoFork => Fork
    case DoKill(pid) => Kill(pid)
    case DoAcquire(l) => Acquire(l)
    case DoRelease(l) => Release(l)
    case DoSleep(c) => Doze(OnOther(c), User)
    case DoWakeup(c) => Notify(OnOther(c), User)
  }

  /** Points where interrupts are enabled. */
  predicate Preemptible(pc: Pc) {
    pc.User? || pc.WaitCall? || pc.Exit? || pc.Fork? || pc.ForkStack? || pc.ForkParent? || pc.ForkStart?
    || pc.Kill? || pc.Acquire? || pc.Release?
  }

  /** The next step is acquire(&ptable.lock). */
  predicate WantsTable(pc: Pc) {
    pc.WaitCall? || pc.Exit? || pc.Fork? || pc.Kill? || pc.Notify? || pc.Doze?
  }

  function TookTable(pc: Pc): Pc {
    match pc
    case WaitCall => Wait
    case Exit => Exiting
    case Fork => Alloc
    case Kill(pid) => Killing(pid)
    case Notify(chan, ret) => Notifying(chan, ret)
    case Doze(chan, ret) => Dozing(chan, ret)
    case _ => pc
  }

  /** The next step is release(&ptable.lock). */
  predicate DropsTable(pc: Pc) {
    pc.ForkRet? || pc.Unlock? || (pc.Back? && (pc.k.AfterYield? || pc.k.AfterSleep?))
  }

  function DroppedTable(pc: Pc): Pc {
    match pc
    case Unlock(ret) => ret
    case Back(AfterYield(ret)) => ret
    case Back(AfterSleep(ret)) => ret
    case _ => User
  }

  /** A step on the table with ptable.lock held. */
  function InTableStep(t: Table, nextpid: nat, p: nat): (Table, nat)
    requires p < |t|
  {
    var me := t[p];
    match me.pc
    case Yield(ret) => (t[p := me.(state := RUNNABLE, pc := Swtch(AfterYield(ret)))], nextpid)
    case Back(AfterWait) => (t[p := me.(chan := NoChan, pc := Wait)], nextpid)
    case Wait => (
      var z := First(t, ZombieChild(p), 0);
      if z.Some? then
        (t[z.value := Reap(t[z.value])][p := me.(pc := Unlock(User))], nextpid)
      else if First(t, Child(p), 0) == None || me.killed then (t[p := me.(pc := Unlock(User))], nextpid)
      else (t[p := me.(chan := OnProc(p), state := SLEEPING, pc := Swtch(AfterWait))], nextpid))
    case Exiting => (
      var woken := if me.parent.Some? then WakeAll(t, OnProc(me.parent.value)) else t;
      (woken[p := me.(pc := PassOn)], nextpid))
    case PassOn => (PassToInit(t, p)[p := me.(pc := Dying)], nextpid)
    case Dying => (t[p := me.(state := ZOMBIE, pc := Swtch(Dead))], nextpid)
    case Alloc => (
      var u := First(t, Unused(), 0);
      if u.Some? then
        (t[u.value := t[u.value].(state := EMBRYO, pid := nextpid)][p := me.(pc := Unlock(ForkStack(u.value)))],
         nextpid + 1)
      else (t[p := me.(pc := Unlock(User))], nextpid))
    case Killing(pid) => (
      var k := First(t, HasPid(pid), 0);
      var t' := if k.Some? then t[k.value := KillOne(t[k.value])] else t;
      (t'[p := t'[p].(pc := Unlock(User))], nextpid))
    case Notifying(chan, ret) => (WakeAll(t, chan)[p := me.(pc := Unlock(ret))], nextpid)
    case Marking(chan, ret) =>
      (t[p := me.(chan := chan, state := SLEEPING, pc := Swtch(AfterSleep(ret)))], nextpid)
    case _ => (t, nextpid)
  }

  predicate InTableOp(pc: Pc) {
    pc.Yield? || pc == Back(AfterWait) || pc.Wait? || pc.Exiting? || pc.PassOn? || pc.Dying? || pc.Alloc?
    || pc.Killing? || pc.Notifying? || pc.Marking?
  }

  /** fork after allocproc, with no lock held. */
  function ForkStep(t: Table, p: nat): Table
    requires p < |t|
  {
    var me := t[p];
    match me.pc
    case ForkStack(np) =>
      if np < |t| then t[np := t[np].(kstack := true, pc := ForkRet)][p := me.(pc := ForkParent(np))] else t
    case ForkParent(np) =>
      if np < |t| then t[np := t[np].(parent := Some(p))][p := me.(pc := ForkStart(np))] else t
    case ForkStart(np) =>
      if np < |t| then t[np := t[np].(state := RUNNABLE)][p := me.(pc := User)] else t
    case _ => t
  }

  predicate InFork(pc: Pc) {
    pc.ForkStack? || pc.ForkParent? || pc.ForkStart?
  }

  /** acquiresleep and releasesleep around their use of ptable.lock. */
  function LockStep(me: Proc, lk: SleepLock, p: nat, l: nat): (Proc, SleepLock) {
    match me.pc
    case Acquire(_) => if lk.spin == None then (me.(pc := Test(l)), lk.(spin := Some(p))) else (me, lk)
    case Test(_) =>
      if lk.locked then (me.(pc := Doze(OnLock(l), Acquire(l))), lk)
      else (me.(pc := Done(l), held := me.held + {l}), lk.(locked := true, pid := me.pid, holder := Some(p)))
    case Release(_) => if lk.spin == None then (me.(pc := Free(l)), lk.(spin := Some(p))) else (me, lk)
    case Free(_) =>
      (me.(pc := Notify(OnLock(l), Done(l)), held := me.held - {l}), lk.(locked := false, pid := 0, holder := None))
    case Done(_) => (me.(pc := User), lk.(spin := None))
    case Dozing(chan, ret) => (me.(pc := Marking(chan, ret)), lk.(spin := None))
    case _ => (me, lk)
  }

  /** The sleep lock a step of LockStep is about. */
  function LockOf(pc: Pc): Option<nat> {
    match pc
    case Acquire(l) => Some(l)
    case Test(l) => Some(l)
    case Release(l) => Some(l)
    case Free(l) => Some(l)
    case Done(l) => Some(l)
    case Dozing(OnLock(l), _) => Some(l)
    case _ => None
  }

  /** One step of process p, which runs on CPU c. */
  function ProcStep(s: State, c: nat, p: nat): State
    requires c < |s.cpus| && p < |s.table|
  {
    var me := s.table[p];
    if WantsTable(me.pc) then
      if s.lock == None then s.(lock := Some(c), table := s.table[p := me.(pc := TookTable(me.pc))]) else s
    else if DropsTable(me.pc) then
      var chan := if me.pc.Back? && me.pc.k.AfterSleep? then NoChan else me.chan;
      s.(lock := None, table := s.table[p := me.(pc := DroppedTable(me.pc), chan := chan)])
    else if me.pc.Swtch? then
      s.(table := s.table[p := me.(pc := Back(me.pc.k))], cpus := s.cpus[c := s.cpus[c].(at := Leaving(p))])
    else if InTableOp(me.pc) then
      var (t, n) := InTableStep(s.table, s.nextpid, p); s.(table := t, nextpid := n)
    else if InFork(me.pc) then s.(table := ForkStep(s.table, p))
    else if LockOf(me.pc).Some? && LockOf(me.pc).value < |s.locks| then
      var l := LockOf(me.pc).value;
      var (me', lk) := LockStep(me, s.locks[l], p, l);
      s.(table := s.table[p := me'], locks := s.locks[l := lk])
    else if me.pc.Dozing? then s.(table := s.table[p := me.(pc := Marking(me.pc.chan, me.pc.ret))])
    else s
  }

  /** One step of the scheduler on CPU c. */
  function SchedStep(s: State, c: nat): State
    requires c < |s.cpus|
  {
    match s.cpus[c].at
    case Idle => if s.lock == None then s.(lock := Some(c), cpus := s.cpus[c := Cpu(None, Scan(0))]) else s
    case Scan(i) =>
      if i >= |s.table| then s.(lock := None, cpus := s.cpus[c := Cpu(None, Idle)])
      else if s.table[i].state != RUNNABLE then s.(cpus := s.cpus[c := Cpu(None, Scan(i + 1))])
      else s.(cpus := s.cpus[c := Cpu(Some(i), Chosen(i))], table := s.table[i := s.table[i].(host := Some(c))])
    case Chosen(i) =>
      if i < |s.table| then
        s.(cpus := s.cpus[c := Cpu(Some(i), Entering(i))], table := s.table[i := s.table[i].(state := RUNNING)])
      else s
    case Entering(i) => s.(cpus := s.cpus[c := Cpu(Some(i), On(i))])
    case Leaving(i) =>
      if i < |s.table| then
        s.(cpus := s.cpus[c := Cpu(None, Scan(i + 1))], table := s.table[i := s.table[i].(host := None)])
      else s
    case On(_) => s
  }

  function Next(s: State, step: Step): State {
    if step.c >= |s.cpus| then s else
    var at := s.cpus[step.c].at;
    if step.Go? && !at.On? then SchedStep(s, step.c)
    else if !at.On? || at.i >= |s.table| then s
    else
      var p := at.i;
      var me := s.table[p];
      match step
      case Go(c) => ProcStep(s, c, p)
      case Call(c, op) =>
        if me.pc == User && MayCall(s, p, op) then s.(table := s.table[p := me.(pc := Entry(op))]) else s
      case Preempt(c) =>
        if Preemptible(me.pc) && s.lock == None then
          s.(lock := Some(c), table := s.table[p := me.(pc := Yield(me.pc))])
        else s
  }

  /** A machine after boot: one process, init, runnable for the first time. */
  ghost predicate Booted(s: State) {
    && |s.table| >= 1 && s.lock == None && s.nextpid == 2
    && s.table[INIT] == Proc(RUNNABLE, NoChan, None, false, 1, true, ForkRet, {}, None)
    && (forall p | 1 <= p < |s.table| :: s.table[p] == Proc(UNUSED, NoChan, None, false, 0, false, ForkRet, {}, None))
    && (forall c | 0 <= c < |s.cpus| :: s.cpus[c] == Cpu(None, Idle))
    && (forall l | 0 <= l < |s.locks| :: s.locks[l] == SleepLock(None, false, 0, None))
  }

  function Run(s: State, steps: seq<Step>): State {
    if steps == [] then s else Next(Run(s, steps[..|steps| - 1]), steps[|steps| - 1])
  }
}
