/** Parents and children: processes under construction in fork, and the promise that whoever sleeps
    in wait has no zombie to collect. */
module SchedulerFamily {
  import opened Options
  import opened ProcTable
  import opened Scheduler
  import opened SchedulerCore

  // ----- processes under construction -----

  /** A process between allocproc and the end of fork has its own EMBRYO slot. */
  predicate BuildsOk(t: Table, q: nat)
    requires q < |t|
  {
    var b := Base(t[q].pc);
    InFork(b) ==>
      && b.np < |t| && b.np != q && t[b.np].state == EMBRYO
      && (!b.ForkStack? ==> t[b.np].kstack && t[b.np].pc == ForkRet)
      && (b.ForkStart? ==> t[b.np].parent == Some(q))
  }

  predicate SameTarget(pc: Pc, pc': Pc) {
    InFork(Base(pc)) && InFork(Base(pc')) && Base(pc).np == Base(pc').np
  }

  ghost predicate Targets(t: Table) {
    && (forall q | 0 <= q < |t| :: BuildsOk(t, q))
    && (forall q, r | 0 <= q < |t| && 0 <= r < |t| && q != r :: !SameTarget(t[q].pc, t[r].pc))
  }

  /** What a step of p that builds nothing may do to another slot. */
  predicate KeepsEmbryo(q: Proc, q': Proc, p: nat) {
    && (q'.pc == q.pc || !InFork(Base(q'.pc)))
    && (q.state == EMBRYO ==>
          && q'.state == EMBRYO && q'.kstack == q.kstack && q'.pc == q.pc
          && (q'.parent == q.parent || q.parent == Some(p)))
  }

  lemma {:induction false} TargetsKept(t: Table, t': Table, p: nat)
    requires Targets(t) && p < |t| == |t'| && t[p].state != EMBRYO
    requires forall j {:trigger t'[j]} | 0 <= j < |t| && j != p :: KeepsEmbryo(t[j], t'[j], p)
    requires InFork(Base(t'[p].pc)) ==> Base(t'[p].pc) == Base(t[p].pc)
    requires InFork(Base(t[p].pc)) ==> forall j {:trigger t'[j]} | 0 <= j < |t| :: t'[j].parent == t[j].parent
    ensures Targets(t')
  {
    forall q | 0 <= q < |t'| ensures BuildsOk(t', q) {
      assert BuildsOk(t, q);
      assert q != p ==> KeepsEmbryo(t[q], t'[q], p);
      var b := Base(t[q].pc);
      if InFork(b) { assert KeepsEmbryo(t[b.np], t'[b.np], p); }
    }
    forall q, r | 0 <= q < |t'| && 0 <= r < |t'| && q != r ensures !SameTarget(t'[q].pc, t'[r].pc) {
      assert !SameTarget(t[q].pc, t[r].pc);
      assert q != p ==> KeepsEmbryo(t[q], t'[q], p);
      assert r != p ==> KeepsEmbryo(t[r], t'[r], p);
    }
  }

  /** allocproc gives p a slot nobody else builds. */
  lemma {:induction false} AllocTargets(t: Table, p: nat, k: nat, q: Proc, r: Proc)
    requires Targets(t) && p < |t| && k < |t| && k != p && t[k].state == UNUSED
    requires r == t[k].(state := EMBRYO, pid := r.pid) && q == t[p].(pc := Unlock(ForkStack(k)))
    requires !InFork(Base(r.pc)) && t[p].state != EMBRYO
    ensures Targets(t[k := r][p := q])
  {
    var t' := t[k := r][p := q];
    forall j | 0 <= j < |t'| ensures BuildsOk(t', j) {
      assert BuildsOk(t, j);
    }
    forall j, i | 0 <= j < |t'| && 0 <= i < |t'| && j != i ensures !SameTarget(t'[j].pc, t'[i].pc) {
      assert BuildsOk(t, j) && BuildsOk(t, i) && !SameTarget(t[j].pc, t[i].pc);
    }
  }

  lemma {:induction false} ForkBuilds(t: Table, p: nat, j: nat)
    requires Targets(t) && p < |t| && j < |t| && InFork(t[p].pc) && t[p].state != EMBRYO
    requires t[j].state == EMBRYO ==> !InFork(Base(t[j].pc))
    ensures |ForkStep(t, p)| == |t| && BuildsOk(ForkStep(t, p), j)
  {
    assert BuildsOk(t, p) && BuildsOk(t, j);
    if j != p { assert !SameTarget(t[j].pc, t[p].pc); }
  }

  lemma {:induction false} ForkTargets(t: Table, p: nat)
    requires Targets(t) && p < |t| && InFork(t[p].pc) && t[p].state != EMBRYO
    requires forall j | 0 <= j < |t| && t[j].state == EMBRYO :: !InFork(Base(t[j].pc))
    ensures Targets(ForkStep(t, p))
  {
    var t', k := ForkStep(t, p), t[p].pc.np;
    assert BuildsOk(t, p);
    forall j | 0 <= j < |t'| ensures BuildsOk(t', j) {
      ForkBuilds(t, p, j);
    }
    forall j, i | 0 <= j < |t'| && 0 <= i < |t'| && j != i ensures !SameTarget(t'[j].pc, t'[i].pc) {
      assert !SameTarget(t[j].pc, t[i].pc);
    }
  }

  // ----- families -----

  predicate AsleepInWait(q: Proc) {
    q.state == SLEEPING && q.chan.OnProc?
  }

  predicate LiveParent(q: Proc) {
    Live(q.state) && q.pc != Dying
  }

  /** q is a zombie, or becomes one before ptable.lock is released. */
  predicate Perishes(q: Proc) {
    q.state == ZOMBIE || q.pc.PassOn? || q.pc.Dying?
  }

  predicate KinOk(t: Table, q: nat)
    requires q < |t|
  {
    && (t[q].parent.Some? ==>
          var r := t[q].parent.value;
          r < |t| && r != q && LiveParent(t[r]) && (Perishes(t[q]) ==> !AsleepInWait(t[r])))
    && (q != INIT && t[q].state != UNUSED && t[q].state != EMBRYO ==> t[q].parent.Some?)
  }

  ghost predicate Family(t: Table) {
    forall q | 0 <= q < |t| :: KinOk(t, q)
  }

  /** A change that neither kills nor reparents, and puts nobody to sleep in wait. */
  predicate KinUnchanged(q: Proc, q': Proc) {
    && q'.parent == q.parent
    && (LiveParent(q) ==> LiveParent(q'))
    && (Perishes(q') ==> Perishes(q))
    && (AsleepInWait(q') ==> AsleepInWait(q))
    && (q'.state == UNUSED || q'.state == EMBRYO || (q.state != UNUSED && q.state != EMBRYO))
  }

  lemma {:induction false} FamilyKept(t: Table, t': Table)
    requires Family(t) && |t'| == |t|
    requires forall j {:trigger t'[j]} | 0 <= j < |t| :: KinUnchanged(t[j], t'[j])
    ensures Family(t')
  {
    forall q | 0 <= q < |t'| ensures KinOk(t', q) {
      assert KinOk(t, q) && KinUnchanged(t[q], t'[q]);
      if t[q].parent.Some? {
        var r := t[q].parent.value;
        assert KinUnchanged(t[r], t'[r]);
      }
    }
  }

  /** wait goes to sleep only when none of its children is, or is about to be, a zombie. */
  lemma {:induction false} SleepInWaitKin(t: Table, p: nat, q: Proc)
    requires Family(t) && p < |t| && First(t, ZombieChild(p), 0) == None && t[p].state == RUNNING
    requires forall j | 0 <= j < |t| && j != p :: !t[j].pc.PassOn? && !t[j].pc.Dying?
    requires q.parent == t[p].parent && q.state == SLEEPING && q.pc == Swtch(AfterWait)
    ensures Family(t[p := q])
  {
    var t' := t[p := q];
    forall j | 0 <= j < |t'| ensures KinOk(t', j) {
      assert KinOk(t, j);
      assert !ZombieChild(p)(t[j]);
    }
  }

  lemma {:induction false} ReapKin(t: Table, p: nat, z: nat, q: Proc)
    requires Family(t) && p < |t| && z < |t| && z != p && z != INIT && t[z].state == ZOMBIE
    requires KinUnchanged(t[p], q)
    ensures Family(t[z := Reap(t[z])][p := q])
  {
    var t' := t[z := Reap(t[z])][p := q];
    forall j | 0 <= j < |t'| ensures KinOk(t', j) {
      assert KinOk(t, j);
    }
  }

  /** After wakeup1(parent) the parent is not asleep in wait. */
  lemma {:induction false} ExitingKin(t: Table, p: nat)
    requires Family(t) && Procs(t) && p < |t| && t[p].pc.Exiting? && t[p].state == RUNNING && t[p].parent.Some?
    ensures Family(WakeAll(t, OnProc(t[p].parent.value))[p := t[p].(pc := PassOn)])
  {
    var r := t[p].parent.value;
    var t' := WakeAll(t, OnProc(r))[p := t[p].(pc := PassOn)];
    assert KinOk(t, p) && ProcOk(t[r], r);
    forall j | 0 <= j < |t'| ensures KinOk(t', j) {
      assert KinOk(t, j);
    }
  }

  /** How exit's loop leaves one slot: reparented if it was a child of p, else at most woken. */
  lemma {:induction false} PassedSlot(t: Table, p: nat, j: nat)
    requires j < |t| && p < |t|
    ensures |PassToInit(t, p)| == |t|
    ensures var q, q' := t[j], PassToInit(t, p)[j];
            && q'.pc == q.pc &&
            (q'.state == q.state || (q.state == SLEEPING && q'.state == RUNNABLE)) && q'.chan == q.chan
            && q'.parent == (if q.parent == Some(p) then Some(INIT) else q.parent)
            && (First(t, ZombieChild(p), 0).Some? ==> q'.state != SLEEPING || q.chan != OnProc(INIT))
  {
  }

  lemma {:induction false} PassOnOrphan(t: Table, p: nat, j: nat)
    requires Family(t) && Procs(t) && p < |t| && p != INIT && j < |t| && j != p && t[j].parent == Some(p)
    requires !t[j].pc.PassOn? && !t[j].pc.Dying?
    ensures |PassToInit(t, p)| == |t| && KinOk(PassToInit(t, p), j)
  {
    PassedSlot(t, p, j);
    PassedSlot(t, p, INIT);
    assert ProcOk(t[INIT], INIT) && ProcOk(t[j], j);
    assert !ZombieChild(p)(t[j]) || First(t, ZombieChild(p), 0).Some?;
  }

  lemma {:induction false} PassOnOther(t: Table, p: nat, j: nat)
    requires Family(t) && p < |t| && j < |t| && t[j].parent != Some(p)
    ensures |PassToInit(t, p)| == |t| && KinOk(PassToInit(t, p), j)
  {
    PassedSlot(t, p, j);
    assert KinOk(t, j);
    if t[j].parent.Some? { PassedSlot(t, p, t[j].parent.value); }
  }

  /** Passing the children on leaves p childless and init awake if it got a zombie. */
  lemma {:induction false} PassOnKin(t: Table, p: nat)
    requires Family(t) && Procs(t) && p < |t| && t[p].pc.PassOn? && t[p].state == RUNNING
    requires forall j | 0 <= j < |t| && j != p :: !t[j].pc.PassOn? && !t[j].pc.Dying?
    ensures Family(PassToInit(t, p)[p := t[p].(pc := Dying)])
  {
    assert KinOk(t, p) && ProcOk(t[p], p);
    var t1 := PassToInit(t, p);
    forall j | 0 <= j < |t| ensures |t1| == |t| && KinOk(t1, j) && t1[j].parent != Some(p) {
      PassedSlot(t, p, j);
      if t[j].parent == Some(p) {
        PassOnOrphan(t, p, j);
      } else {
        PassOnOther(t, p, j);
      }
    }
    PassedSlot(t, p, p);
    var t' := t1[p := t[p].(pc := Dying)];
    forall j | 0 <= j < |t'| ensures KinOk(t', j) {
      assert KinOk(t1, j);
    }
  }

  lemma {:induction false} DyingKin(t: Table, p: nat)
    requires Family(t) && p < |t| && t[p].pc.Dying? && t[p].state == RUNNING
    ensures Family(t[p := t[p].(state := ZOMBIE, pc := Swtch(Dead))])
  {
    var t' := t[p := t[p].(state := ZOMBIE, pc := Swtch(Dead))];
    forall j | 0 <= j < |t'| ensures KinOk(t', j) {
      assert KinOk(t, j);
    }
  }

  lemma {:induction false} ForkKin(t: Table, p: nat)
    requires Family(t) && Targets(t) && p < |t| && InFork(t[p].pc) && t[p].state == RUNNING
    ensures Family(ForkStep(t, p))
  {
    var t', k := ForkStep(t, p), t[p].pc.np;
    assert BuildsOk(t, p);
    forall j | 0 <= j < |t'| ensures KinOk(t', j) {
      assert KinOk(t, j);
    }
  }
}
