/** The sleep locks of sleeplock.c: at most one holder, and no sleeper on a lock that is free. */
module SleepLocks {
  import opened Options
  import opened ProcTable
  import opened Scheduler
  import opened SchedulerCore

  /** The sleep lock whose spin lock the thread is inside of. */
  function SpinPc(pc: Pc): Option<nat> {
    match pc
    case Test(l) => Some(l)
    case Free(l) => Some(l)
    case Done(l) => Some(l)
    case Unlock(Done(l)) => Some(l)
    case Doze(OnLock(l), _) => Some(l)
    case Dozing(OnLock(l), _) => Some(l)
    case Notify(OnLock(l), _) => Some(l)
    case Notifying(OnLock(l), _) => Some(l)
    case _ => None
  }

  /** The sleep lock whose sleepers the thread wakes before it leaves. */
  function OwesPc(pc: Pc): Option<nat> {
    match pc
    case Notify(OnLock(l), _) => Some(l)
    case Notifying(OnLock(l), _) => Some(l)
    case _ => None
  }

  /** The sleep lock a process sleeps on, or is about to. */
  function WaitsFor(q: Proc): Option<nat> {
    match q.pc
    case Doze(OnLock(l), _) => Some(l)
    case Dozing(OnLock(l), _) => Some(l)
    case Marking(OnLock(l), _) => Some(l)
    case _ => if q.state == SLEEPING && q.chan.OnLock? then Some(q.chan.l) else None
  }

  /** Locks that program points name exist, and a process releases only what it holds. */
  predicate NamesOk(q: Proc, n: nat) {
    && (forall l | l in q.held :: l < n)
    && (match Base(q.pc)
        case Acquire(l) => l < n
        case Release(l) => l in q.held
        case Free(l) => l in q.held
        case Swtch(AfterSleep(Acquire(l))) => l < n
        case Back(AfterSleep(Acquire(l))) => l < n
        case Marking(OnLock(l), _) => l < n
        case _ => true)
    && (q.state == SLEEPING && q.chan.OnLock? ==> q.chan.l < n)
  }

  predicate SpinsOk(s: State, p: nat)
    requires p < |s.table|
  {
    var l := SpinPc(s.table[p].pc);
    l.Some? ==> l.value < |s.locks| && s.locks[l.value].spin == Some(p)
  }

  ghost predicate HoldsOk(s: State, p: nat)
    requires p < |s.table|
  {
    forall l | l in s.table[p].held :: l < |s.locks| && s.locks[l].holder == Some(p)
  }

  predicate LockOk(s: State, l: nat)
    requires l < |s.locks|
  {
    var lk := s.locks[l];
    && (lk.spin.Some? ==> lk.spin.value < |s.table| && SpinPc(s.table[lk.spin.value].pc) == Some(l))
    && (lk.locked <==> lk.holder.Some?)
    && (lk.holder.Some? ==>
          && lk.holder.value < |s.table| && l in s.table[lk.holder.value].held
          && lk.pid == s.table[lk.holder.value].pid)
  }

  predicate Owed(s: State, l: nat)
    requires l < |s.locks|
  {
    var r := s.locks[l].spin;
    r.Some? && r.value < |s.table| && OwesPc(s.table[r.value].pc) == Some(l)
  }

  predicate WaiterOk(s: State, p: nat)
    requires p < |s.table|
  {
    var l := WaitsFor(s.table[p]);
    l.Some? ==> l.value < |s.locks| && (s.locks[l.value].locked || Owed(s, l.value))
  }

  ghost predicate LocksOk(s: State) {
    && (forall p | 0 <= p < |s.table| :: NamesOk(s.table[p], |s.locks|))
    && (forall p | 0 <= p < |s.table| :: SpinsOk(s, p))
    && (forall p | 0 <= p < |s.table| :: HoldsOk(s, p))
    && (forall l | 0 <= l < |s.locks| :: LockOk(s, l))
    && (forall p | 0 <= p < |s.table| :: WaiterOk(s, p))
  }

  /** A change to a slot that the sleep locks do not notice. */
  predicate Unnoticed(q: Proc, q': Proc) {
    && SpinPc(q'.pc) == SpinPc(q.pc) && q'.held == q.held
    && (q.held == {} || q'.pid == q.pid)
    && (WaitsFor(q') == None || WaitsFor(q') == WaitsFor(q))
  }

  /** Nobody waits for lock l any more. */
  ghost predicate NoWaiters(t: Table, l: nat) {
    forall j | 0 <= j < |t| :: WaitsFor(t[j]) != Some(l)
  }

  lemma {:induction false} LocksKept(s: State, s': State)
    requires LocksOk(s) && s'.locks == s.locks && |s'.table| == |s.table|
    requires forall j {:trigger s'.table[j]} | 0 <= j < |s.table| :: Unnoticed(s.table[j], s'.table[j])
    requires forall j {:trigger s'.table[j]} | 0 <= j < |s.table| :: NamesOk(s'.table[j], |s.locks|)
    requires forall j {:trigger s'.table[j]} | 0 <= j < |s.table| && OwesPc(s.table[j].pc).Some? ::
               OwesPc(s'.table[j].pc) == OwesPc(s.table[j].pc) || NoWaiters(s'.table, OwesPc(s.table[j].pc).value)
    ensures LocksOk(s')
  {
    forall p | 0 <= p < |s'.table| ensures SpinsOk(s', p) && HoldsOk(s', p) {
      assert SpinsOk(s, p) && HoldsOk(s, p) && Unnoticed(s.table[p], s'.table[p]);
    }
    forall l | 0 <= l < |s'.locks| ensures LockOk(s', l) {
      assert LockOk(s, l);
      var lk := s.locks[l];
      if lk.spin.Some? { assert Unnoticed(s.table[lk.spin.value], s'.table[lk.spin.value]); }
      if lk.holder.Some? { assert Unnoticed(s.table[lk.holder.value], s'.table[lk.holder.value]); }
    }
    forall p | 0 <= p < |s'.table| ensures WaiterOk(s', p) {
      assert WaiterOk(s, p) && Unnoticed(s.table[p], s'.table[p]);
      var w := WaitsFor(s'.table[p]);
      if w.Some? && !s.locks[w.value].locked {
        var r := s.locks[w.value].spin.value;
        assert OwesPc(s.table[r].pc) == Some(w.value);
        assert s'.table[r] == s'.table[r];
      }
    }
  }

  // ----- steps of acquiresleep and releasesleep -----

  /** p's step on lock l keeps its own promises, takes nothing from others, and leaves a lock it
      frees owing its sleepers a wakeup. */
  predicate LockMove(me: Proc, lk: SleepLock, q: Proc, lk': SleepLock, p: nat, l: nat) {
    && q.pid == me.pid
    && (SpinPc(q.pc) == Some(l) <==> lk'.spin == Some(p)) && (SpinPc(q.pc) == None || SpinPc(q.pc) == Some(l))
    && OwnLock(lk.spin, lk'.spin, p) && OwnLock(lk.holder, lk'.holder, p)
    && (q.held == me.held || q.held == me.held + {l} || q.held == me.held - {l})
    && (l in q.held <==> lk'.holder == Some(p))
    && (lk'.locked <==> lk'.holder.Some?)
    && (if lk'.holder == lk.holder then lk'.pid == lk.pid else lk'.holder == Some(p) ==> lk'.pid == q.pid)
    && OwesPc(me.pc) == None
    && (|| lk'.locked
        || (lk'.spin == Some(p) && OwesPc(q.pc) == Some(l))
        || (!lk.locked && (lk'.spin == lk.spin || lk'.spin == None || lk.spin == None)))
    && (WaitsFor(q).Some? ==> WaitsFor(q) == Some(l) && lk'.locked)
  }

  lemma {:induction false} LockStepNames(me: Proc, lk: SleepLock, p: nat, l: nat, n: nat)
    requires ProcOk(me, p) && me.state == RUNNING && LockOf(me.pc) == Some(l) && l < n && NamesOk(me, n)
    ensures NamesOk(LockStep(me, lk, p, l).0, n)
  {
  }

  lemma {:induction false} LockStepMoves(me: Proc, lk: SleepLock, p: nat, l: nat, n: nat)
    requires ProcOk(me, p) && me.state == RUNNING && LockOf(me.pc) == Some(l) && l < n && NamesOk(me, n)
    requires SpinPc(me.pc).Some? ==> lk.spin == Some(p)
    requires lk.spin == Some(p) ==> SpinPc(me.pc) == Some(l)
    requires (l in me.held <==> lk.holder == Some(p)) && (lk.locked <==> lk.holder.Some?)
    requires WaitsFor(me) == Some(l) ==> lk.locked
    ensures var (q, lk') := LockStep(me, lk, p, l); LockMove(me, lk, q, lk', p, l)
  {
  }

  lemma {:induction false} LockMoveHolds(s: State, p: nat, l: nat, q: Proc, lk: SleepLock, j: nat)
    requires LocksOk(s) && p < |s.table| && l < |s.locks| && j < |s.table|
    requires LockMove(s.table[p], s.locks[l], q, lk, p, l)
    requires SpinPc(s.table[p].pc) == None || SpinPc(s.table[p].pc) == Some(l)
    ensures var s' := s.(table := s.table[p := q], locks := s.locks[l := lk]);
            SpinsOk(s', j) && HoldsOk(s', j) && WaiterOk(s', j)
  {
    assert SpinsOk(s, p) && HoldsOk(s, p) && LockOk(s, l);
    assert SpinsOk(s, j) && HoldsOk(s, j) && WaiterOk(s, j);
  }

  lemma {:induction false} LockMoveLock(s: State, p: nat, l: nat, q: Proc, lk: SleepLock, m: nat)
    requires LocksOk(s) && p < |s.table| && l < |s.locks| && m < |s.locks|
    requires LockMove(s.table[p], s.locks[l], q, lk, p, l)
    requires SpinPc(s.table[p].pc) == None || SpinPc(s.table[p].pc) == Some(l)
    ensures LockOk(s.(table := s.table[p := q], locks := s.locks[l := lk]), m)
  {
    assert LockOk(s, l) && LockOk(s, m);
  }

  lemma {:induction false} LockMoveKeeps(s: State, p: nat, l: nat, q: Proc, lk: SleepLock)
    requires LocksOk(s) && p < |s.table| && l < |s.locks|
    requires LockMove(s.table[p], s.locks[l], q, lk, p, l) && NamesOk(q, |s.locks|)
    requires SpinPc(s.table[p].pc) == None || SpinPc(s.table[p].pc) == Some(l)
    ensures LocksOk(s.(table := s.table[p := q], locks := s.locks[l := lk]))
  {
    var s' := s.(table := s.table[p := q], locks := s.locks[l := lk]);
    forall j | 0 <= j < |s'.table| ensures SpinsOk(s', j) && HoldsOk(s', j) && WaiterOk(s', j) {
      LockMoveHolds(s, p, l, q, lk, j);
    }
    forall m | 0 <= m < |s'.locks| ensures LockOk(s', m) {
      LockMoveLock(s, p, l, q, lk, m);
    }
  }

  lemma {:induction false} LockStepLocks(s: State, c: nat, p: nat)
    requires LocksOk(s) && c < |s.cpus| && p < |s.table| && ProcOk(s.table[p], p) && s.table[p].state == RUNNING
    requires LockOf(s.table[p].pc).Some? && LockOf(s.table[p].pc).value < |s.locks|
    ensures LocksOk(ProcStep(s, c, p))
  {
    var me, l := s.table[p], LockOf(s.table[p].pc).value;
    assert NamesOk(me, |s.locks|) && SpinsOk(s, p) && HoldsOk(s, p) && LockOk(s, l) && WaiterOk(s, p);
    LockStepNames(me, s.locks[l], p, l, |s.locks|);
    LockStepMoves(me, s.locks[l], p, l, |s.locks|);
    var (q, lk) := LockStep(me, s.locks[l], p, l);
    LockMoveKeeps(s, p, l, q, lk);
  }
}
