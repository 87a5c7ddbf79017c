/** What the operations of proc.c and sleeplock.c do when a CPU goes through one without interruption,
    from the call to the return or to the switch away, stated by the fields of the slots and locks. */
module SchedulerCalls {
  import opened Options
  import opened ProcTable
  import opened Scheduler
  import SchedulerCore
  import SchedulerSafety

  /** CPU c takes k steps. */
  function Gos(s: State, c: nat, k: nat): State
    decreases k
  {
    if k == 0 then s else Gos(Next(s, Go(c)), c, k - 1)
  }

  /** Process p runs on CPU c outside the kernel code modelled here. */
  predicate InUser(s: State, c: nat, p: nat) {
    && c < |s.cpus| && s.cpus[c].at == On(p) && p < |s.table|
    && s.table[p].pc == User && s.table[p].state == RUNNING
  }

  /** Process p runs on CPU c at the given point. */
  predicate At(s: State, c: nat, p: nat, pc: Pc) {
    c < |s.cpus| && s.cpus[c].at == On(p) && p < |s.table| && s.table[p].pc == pc
  }

  /** Only the table has changed. */
  predicate OnlyTable(s: State, r: State) {
    r.cpus == s.cpus && r.lock == s.lock && r.locks == s.locks && r.nextpid == s.nextpid && |r.table| == |s.table|
  }

  function WithPc(s: State, p: nat, pc: Pc): State
    requires p < |s.table|
  {
    s.(table := s.table[p := s.table[p].(pc := pc)])
  }

  /** acquire(&ptable.lock) by the process on CPU c. */
  lemma {:induction false} TakesTable(s: State, c: nat, p: nat)
    requires c < |s.cpus| && s.cpus[c].at == On(p) && p < |s.table| && WantsTable(s.table[p].pc) && s.lock == None
    ensures Next(s, Go(c)) == WithPc(s, p, TookTable(s.table[p].pc)).(lock := Some(c))
  {
  }

  /** release(&ptable.lock). */
  lemma {:induction false} DropsTableAt(s: State, c: nat, p: nat, ret: Pc)
    requires At(s, c, p, Unlock(ret))
    ensures Next(s, Go(c)) == WithPc(s, p, ret).(lock := None)
  {
  }

  /** The switch to the scheduler. */
  lemma {:induction false} SwitchesAway(s: State, c: nat, p: nat, k: Cont)
    requires At(s, c, p, Swtch(k))
    ensures Next(s, Go(c)) == WithPc(s, p, Back(k)).(cpus := s.cpus[c := s.cpus[c].(at := Leaving(p))])
  {
  }

  // ----- wakeup -----

  /** Everyone asleep on the channel is runnable, and nobody and nothing else changed. */
  predicate Woke(t: Table, t': Table, chan: Chan, p: nat) {
    && |t'| == |t|
    && (forall q | 0 <= q < |t| && q != p && t[q].state == SLEEPING && t[q].chan == chan ::
          t'[q] == t[q].(state := RUNNABLE))
    && (forall q | 0 <= q < |t| && q != p && !(t[q].state == SLEEPING && t[q].chan == chan) :: t'[q] == t[q])
  }

  lemma {:induction false} Notifies(s: State, c: nat, p: nat, chan: Chan, ret: Pc)
    requires At(s, c, p, Notifying(chan, ret))
    ensures var r := Next(s, Go(c));
            OnlyTable(s, r) && Woke(s.table, r.table, chan, p) && r.table[p] == s.table[p].(pc := Unlock(ret))
  {
  }

  /** wakeup: everyone asleep on the channel is runnable. */
  lemma {:induction false} CallWakeup(s: State, c: nat, p: nat, ch: nat)
    requires InUser(s, c, p) && s.lock == None
    ensures var r := Gos(Next(s, Call(c, DoWakeup(ch))), c, 3);
            OnlyTable(s, r) && Woke(s.table, r.table, OnOther(ch), p) && r.table[p] == s.table[p]
  {
    var s1 := Next(s, Call(c, DoWakeup(ch)));
    assert s1 == WithPc(s, p, Notify(OnOther(ch), User));
    TakesTable(s1, c, p);
    var s2 := Next(s1, Go(c));
    Notifies(s2, c, p, OnOther(ch), User);
    var s3 := Next(s2, Go(c));
    DropsTableAt(s3, c, p, User);
    var s4 := Next(s3, Go(c));
    assert Gos(s1, c, 3) == Gos(s2, c, 2) == Gos(s3, c, 1) == Gos(s4, c, 0);
    assert s4.table[p] == s.table[p];
  }

  /** In every run, right after the step of wakeup1 nobody sleeps on the channel, whatever it is. */
  lemma {:induction false} NobodyLeftAsleep(s: State, steps: seq<Step>, c: nat, p: nat, chan: Chan, ret: Pc, q: nat)
    requires Booted(s) && At(Run(s, steps), c, p, Notifying(chan, ret)) && q < |Run(s, steps).table|
    ensures var t := Next(Run(s, steps), Go(c)).table;
            q < |t| && !(t[q].state == SLEEPING && t[q].chan == chan)
  {
    var r := Run(s, steps);
    SchedulerSafety.RunsKeep(s, steps);
    SchedulerCore.Running(r, c, p);
    Notifies(r, c, p, chan, ret);
  }

  // ----- kill -----

  predicate NoPid(t: Table, pid: nat) {
    forall q | 0 <= q < |t| :: t[q].pid != pid
  }

  lemma {:induction false} Kills(s: State, c: nat, p: nat, pid: nat)
    requires At(s, c, p, Killing(pid))
    ensures var r := Next(s, Go(c));
            && OnlyTable(s, r)
            && (NoPid(s.table, pid) ==> r == WithPc(s, p, Unlock(User)))
            && (!NoPid(s.table, pid) ==>
                  exists k :: 0 <= k < |s.table| && s.table[k].pid == pid
                              && MarkedAt(s.table[p := s.table[p].(pc := Unlock(User))], r.table, k))
  {
    var k := First(s.table, HasPid(pid), 0);
    var r := Next(s, Go(c));
    if k.Some? {
      assert HasPid(pid)(s.table[k.value]);
      assert MarkedAt(s.table[p := s.table[p].(pc := Unlock(User))], r.table, k.value);
    } else {
      forall q | 0 <= q < |s.table| ensures s.table[q].pid != pid {
        assert !HasPid(pid)(s.table[q]);
      }
    }
  }

  /** kill: the process is marked, and runnable if it slept; nothing happens when no slot has the pid. */
  lemma {:induction false} CallKill(s: State, c: nat, p: nat, pid: nat)
    requires InUser(s, c, p) && s.lock == None
    ensures var r := Gos(Next(s, Call(c, DoKill(pid))), c, 3);
            && OnlyTable(s, r)
            && (NoPid(s.table, pid) ==> r == s)
            && (!NoPid(s.table, pid) ==>
                  exists k :: 0 <= k < |s.table| && s.table[k].pid == pid && MarkedAt(s.table, r.table, k))
  {
    var s1 := Next(s, Call(c, DoKill(pid)));
    assert s1 == WithPc(s, p, Kill(pid));
    TakesTable(s1, c, p);
    var s2 := Next(s1, Go(c));
    assert s2 == WithPc(s, p, Killing(pid)).(lock := Some(c));
    Kills(s2, c, p, pid);
    var s3 := Next(s2, Go(c));
    assert s3.table[p].pc == Unlock(User);
    DropsTableAt(s3, c, p, User);
    var s4 := Next(s3, Go(c));
    assert Gos(s1, c, 3) == Gos(s2, c, 2) == Gos(s3, c, 1) == Gos(s4, c, 0);
    assert forall q | 0 <= q < |s.table| :: s2.table[q].pid == s.table[q].pid;
    if NoPid(s.table, pid) {
      assert s4.table == s.table;
    } else {
      var k :| 0 <= k < |s2.table| && s2.table[k].pid == pid
               && MarkedAt(s2.table[p := s2.table[p].(pc := Unlock(User))], s3.table, k);
      assert MarkedAt(s.table, s4.table, k);
    }
  }

  // ----- fork -----

  /** Slot u became a process with the next identifier, a stack and parent p. */
  predicate Forked(s: State, r: State, p: nat, u: nat) {
    && |r.table| == |s.table| && u < |s.table| && s.table[u].state == UNUSED && r.nextpid == s.nextpid + 1
    && (forall q | 0 <= q < u :: s.table[q].state != UNUSED)
    && r.table[u].state == RUNNABLE && r.table[u].pid == s.nextpid && r.table[u].parent == Some(p)
    && r.table[u].kstack && r.table[u].pc == ForkRet
    && r.table[u].chan == s.table[u].chan && r.table[u].killed == s.table[u].killed
    && r.table[u].held == s.table[u].held && r.table[u].host == s.table[u].host
    && forall q | 0 <= q < |s.table| && q != u :: r.table[q] == s.table[q]
  }

  predicate NoneUnused(t: Table) {
    forall q | 0 <= q < |t| :: t[q].state != UNUSED
  }

  /** fork: the first unused slot is a runnable child; nothing happens when there is none. */
  lemma {:induction false} CallFork(s: State, c: nat, p: nat)
    requires InUser(s, c, p) && s.lock == None
    ensures var r := Gos(Next(s, Call(c, DoFork)), c, 6);
            && r.cpus == s.cpus && r.lock == None && r.locks == s.locks
            && (NoneUnused(s.table) ==> r == s)
            && (!NoneUnused(s.table) ==> exists u :: Forked(s, r, p, u))
  {
    var s1 := Next(s, Call(c, DoFork));
    assert s1 == WithPc(s, p, Fork);
    TakesTable(s1, c, p);
    var s2 := Next(s1, Go(c));
    assert s2 == WithPc(s, p, Alloc).(lock := Some(c));
    assert Gos(s1, c, 6) == Gos(s2, c, 5);
    FirstUnused(s, s2, p);
    var u := First(s2.table, Unused(), 0);
    if u.None? {
      ForkFails(s, s2, c, p);
    } else {
      ForkMakes(s, s2, c, p, u.value);
    }
  }

  lemma {:induction false} FirstUnused(s: State, s2: State, p: nat)
    requires p < |s.table| && s.table[p].state == RUNNING && s2 == WithPc(s, p, Alloc).(lock := s2.lock)
    ensures var u := First(s2.table, Unused(), 0);
            && (u.None? <==> NoneUnused(s.table))
            && (u.Some? ==> u.value != p && s.table[u.value].state == UNUSED
                            && forall q | 0 <= q < u.value :: s.table[q].state != UNUSED)
  {
    var u := First(s2.table, Unused(), 0);
    forall q | 0 <= q < |s.table| ensures Unused()(s2.table[q]) <==> s.table[q].state == UNUSED {
    }
    if u.None? {
      forall q | 0 <= q < |s.table| ensures s.table[q].state != UNUSED {
        assert !Unused()(s2.table[q]);
      }
    } else {
      forall q | 0 <= q < u.value ensures s.table[q].state != UNUSED {
        assert !Unused()(s2.table[q]);
      }
    }
  }

  lemma {:induction false} ForkFails(s: State, s2: State, c: nat, p: nat)
    requires InUser(s, c, p) && s.lock == None && s2 == WithPc(s, p, Alloc).(lock := Some(c))
    requires First(s2.table, Unused(), 0).None?
    ensures Gos(s2, c, 5) == s
  {
    var s3 := Next(s2, Go(c));
    assert s3 == WithPc(s, p, Unlock(User)).(lock := Some(c));
    DropsTableAt(s3, c, p, User);
    var s4 := Next(s3, Go(c));
    assert s4.table == s.table && s4 == s;
    assert Next(s, Go(c)) == s;
    assert Gos(s, c, 3) == Gos(s, c, 2) == Gos(s, c, 1) == Gos(s, c, 0);
    assert Gos(s2, c, 5) == Gos(s3, c, 4) == Gos(s4, c, 3);
  }

  lemma {:induction false} ForkMakes(s: State, s2: State, c: nat, p: nat, u: nat)
    requires InUser(s, c, p) && s.lock == None && s2 == WithPc(s, p, Alloc).(lock := Some(c))
    requires First(s2.table, Unused(), 0) == Some(u) && u < |s.table| && u != p && s.table[u].state == UNUSED
    requires forall q | 0 <= q < u :: s.table[q].state != UNUSED
    ensures var r := Gos(s2, c, 5);
            r.cpus == s.cpus && r.lock == None && r.locks == s.locks && Forked(s, r, p, u)
  {
    AllocatesSlot(s, s2, c, p, u);
    var s4 := Next(Next(s2, Go(c)), Go(c));
    assert Gos(s2, c, 5) == Gos(Next(s2, Go(c)), c, 4) == Gos(s4, c, 3);
    Builds(s4, c, p, u);
  }

  lemma {:induction false} AllocatesSlot(s: State, s2: State, c: nat, p: nat, u: nat)
    requires InUser(s, c, p) && s.lock == None && s2 == WithPc(s, p, Alloc).(lock := Some(c))
    requires First(s2.table, Unused(), 0) == Some(u) && u < |s.table| && u != p
    ensures var embryo, me := s.table[u].(state := EMBRYO, pid := s.nextpid), s.table[p].(pc := ForkStack(u));
            Next(Next(s2, Go(c)), Go(c)) == s.(table := s.table[u := embryo][p := me], nextpid := s.nextpid + 1)
  {
    var embryo := s.table[u].(state := EMBRYO, pid := s.nextpid);
    var s3 := s2.(table := s2.table[u := embryo][p := s.table[p].(pc := Unlock(ForkStack(u)))],
                  nextpid := s.nextpid + 1);
    assert Next(s2, Go(c)) == s3;
    DropsTableAt(s3, c, p, ForkStack(u));
  }

  /** fork after allocproc. */
  lemma {:induction false} Builds(s: State, c: nat, p: nat, u: nat)
    requires At(s, c, p, ForkStack(u)) && u < |s.table| && u != p
    ensures var me := s.table[p].(pc := User);
            var np := s.table[u].(kstack := true, pc := ForkRet, parent := Some(p), state := RUNNABLE);
            Gos(s, c, 3) == s.(table := s.table[u := np][p := me])
  {
    var s1 := s.(table := s.table[u := s.table[u].(kstack := true, pc := ForkRet)]
                                 [p := s.table[p].(pc := ForkParent(u))]);
    assert Next(s, Go(c)) == s1;
    Adopts(s1, c, p, u);
    assert Gos(s, c, 3) == Gos(s1, c, 2);
  }

  lemma {:induction false} Adopts(s: State, c: nat, p: nat, u: nat)
    requires At(s, c, p, ForkParent(u)) && u < |s.table| && u != p
    ensures var me, np := s.table[p].(pc := User), s.table[u].(parent := Some(p), state := RUNNABLE);
            Gos(s, c, 2) == s.(table := s.table[u := np][p := me])
  {
    var s1 := s.(table := s.table[u := s.table[u].(parent := Some(p))][p := s.table[p].(pc := ForkStart(u))]);
    assert Next(s, Go(c)) == s1;
    var s2 := Next(s1, Go(c));
    assert s2.table == s1.table[u := s1.table[u].(state := RUNNABLE)][p := s.table[p].(pc := User)];
    assert Gos(s, c, 2) == Gos(s1, c, 1) == Gos(s2, c, 0);
  }

  // ----- wait -----

  predicate Childless(t: Table, p: nat) {
    forall q | 0 <= q < |t| :: t[q].parent != Some(p)
  }

  lemma {:induction false} Waits(s: State, c: nat, p: nat)
    requires At(s, c, p, Wait) && s.table[p].state == RUNNING
    ensures var r := Next(s, Go(c));
            && OnlyTable(s, r)
            && (HasZombie(s.table, p) ==>
                  var t := s.table[p := s.table[p].(pc := Unlock(User))];
                  exists z :: z != p && Reaped(t, r.table, p, z))
            && (!HasZombie(s.table, p) && (s.table[p].killed || Childless(s.table, p)) ==>
                  r == WithPc(s, p, Unlock(User)))
            && (!HasZombie(s.table, p) && !s.table[p].killed && !Childless(s.table, p) ==>
                  r.table == s.table[p := s.table[p].(chan := OnProc(p), state := SLEEPING, pc := Swtch(AfterWait))])
  {
    var z, k := First(s.table, ZombieChild(p), 0), First(s.table, Child(p), 0);
    var r := Next(s, Go(c));
    if z.Some? {
      assert ZombieChild(p)(s.table[z.value]);
      assert Reaped(s.table[p := s.table[p].(pc := Unlock(User))], r.table, p, z.value);
    } else {
      forall q | 0 <= q < |s.table| ensures !(s.table[q].parent == Some(p) && s.table[q].state == ZOMBIE) {
        assert !ZombieChild(p)(s.table[q]);
      }
      if k.None? {
        forall q | 0 <= q < |s.table| ensures s.table[q].parent != Some(p) {
          assert !Child(p)(s.table[q]);
        }
      } else {
        assert Child(p)(s.table[k.value]);
      }
    }
  }

  /** wait: a zombie child is reaped; without children, or killed, it returns; else it sleeps. */
  lemma {:induction false} CallWait(s: State, c: nat, p: nat)
    requires InUser(s, c, p) && s.lock == None
    ensures var r := Gos(Next(s, Call(c, DoWait)), c, 3);
            && r.locks == s.locks && r.nextpid == s.nextpid
            && (HasZombie(s.table, p) ==>
                  r.cpus == s.cpus && r.lock == None && exists z :: z != p && Reaped(s.table, r.table, p, z))
            && (!HasZombie(s.table, p) && (s.table[p].killed || Childless(s.table, p)) ==>
                  r == s)
            && (!HasZombie(s.table, p) && !s.table[p].killed && !Childless(s.table, p) ==>
                  && r.table == s.table[p := s.table[p].(chan := OnProc(p), state := SLEEPING, pc := Back(AfterWait))]
                  && r.cpus == s.cpus[c := s.cpus[c].(at := Leaving(p))] && r.lock == Some(c))
  {
    var s1 := Next(s, Call(c, DoWait));
    assert s1 == WithPc(s, p, WaitCall);
    TakesTable(s1, c, p);
    var s2 := Next(s1, Go(c));
    assert s2 == WithPc(s, p, Wait).(lock := Some(c));
    Waits(s2, c, p);
    var s3 := Next(s2, Go(c));
    var s4 := Next(s3, Go(c));
    assert Gos(s1, c, 3) == Gos(s2, c, 2) == Gos(s3, c, 1) == Gos(s4, c, 0);
    SameKids(s, s2, p);
    if HasZombie(s.table, p) {
      var z :| z != p && Reaped(s2.table[p := s2.table[p].(pc := Unlock(User))], s3.table, p, z);
      DropsTableAt(s3, c, p, User);
      assert Reaped(s.table, s4.table, p, z);
    } else if s.table[p].killed || Childless(s.table, p) {
      DropsTableAt(s3, c, p, User);
      assert s4.table == s.table;
    } else {
      SwitchesAway(s3, c, p, AfterWait);
    }
  }

  lemma {:induction false} SameKids(s: State, s2: State, p: nat)
    requires p < |s.table| == |s2.table| && s2.table == s.table[p := s.table[p].(pc := s2.table[p].pc)]
    ensures HasZombie(s2.table, p) <==> HasZombie(s.table, p)
    ensures Childless(s2.table, p) <==> Childless(s.table, p)
  {
    forall q | 0 <= q < |s.table|
      ensures s2.table[q].parent == s.table[q].parent && s2.table[q].state == s.table[q].state
    {
    }
  }

  // ----- exit -----

  /** What exit of p does to the slot of another process: its children go to init, and whoever waits in
      the parent is woken, as is init if it inherits a zombie. */
  ghost predicate LeftBy(t: Table, p: nat, q: Proc, q': Proc)
    requires p < |t|
  {
    && q' == q.(parent := q'.parent, state := q'.state)
    && (q.parent == Some(p) ==> q'.parent == Some(INIT)) && (q.parent != Some(p) ==> q'.parent == q.parent)
    && (q.state == SLEEPING && (ParentSleeps(t, p, q) || InheritsSleeping(t, p, q)) ==> q'.state == RUNNABLE)
    && (!(q.state == SLEEPING && (ParentSleeps(t, p, q) || InheritsSleeping(t, p, q))) ==> q'.state == q.state)
  }

  predicate ParentSleeps(t: Table, p: nat, q: Proc)
    requires p < |t|
  {
    t[p].parent.Some? && q.chan == OnProc(t[p].parent.value)
  }

  ghost predicate InheritsSleeping(t: Table, p: nat, q: Proc) {
    q.chan == OnProc(INIT) && HasZombie(t, p)
  }

  /** exit: a zombie, off the CPU, that has left its children to init. */
  lemma {:induction false} CallExit(s: State, c: nat, p: nat)
    requires InUser(s, c, p) && s.lock == None && p != INIT && s.table[p].held == {}
    ensures var r := Gos(Next(s, Call(c, DoExit)), c, 5);
            && r.locks == s.locks && r.nextpid == s.nextpid && |r.table| == |s.table|
            && r.lock == Some(c) && r.cpus == s.cpus[c := s.cpus[c].(at := Leaving(p))]
            && r.table[p] == s.table[p].(state := ZOMBIE, pc := Back(Dead))
            && forall q | 0 <= q < |s.table| && q != p :: LeftBy(s.table, p, s.table[q], r.table[q])
  {
    var s1, s2 := WithPc(s, p, Exit), WithPc(s, p, Exiting).(lock := Some(c));
    assert Next(s, Call(c, DoExit)) == s1;
    TakesTable(s1, c, p);
    assert s2.table == s1.table[p := s2.table[p]];
    assert Gos(s1, c, 5) == Gos(s2, c, 4);
    Exits(s2, c, p);
    SameExit(s.table, s2.table, p);
    var r := Gos(s2, c, 4);
    forall q | 0 <= q < |s.table| && q != p ensures LeftBy(s.table, p, s.table[q], r.table[q]) {
      assert LeftBy(s2.table, p, s2.table[q], r.table[q]);
    }
  }

  lemma {:induction false} SameExit(t: Table, t': Table, p: nat)
    requires p < |t| == |t'| && t' == t[p := t[p].(pc := t'[p].pc)]
    ensures forall q: Proc :: ParentSleeps(t', p, q) == ParentSleeps(t, p, q)
    ensures HasZombie(t', p) == HasZombie(t, p)
  {
    SameZombies(t, t', p);
  }

  lemma {:induction false} Exits(s: State, c: nat, p: nat)
    requires At(s, c, p, Exiting)
    ensures var r := Gos(s, c, 4);
            && r.locks == s.locks && r.nextpid == s.nextpid && |r.table| == |s.table|
            && r.lock == s.lock && r.cpus == s.cpus[c := s.cpus[c].(at := Leaving(p))]
            && r.table[p] == s.table[p].(state := ZOMBIE, pc := Back(Dead))
            && forall q | 0 <= q < |s.table| && q != p :: LeftBy(s.table, p, s.table[q], r.table[q])
  {
    WakesParent(s, c, p);
    var s1 := Next(s, Go(c));
    PassesOn(s1, c, p);
    var s2 := Next(s1, Go(c));
    Dies(s2, c, p);
    assert Gos(s, c, 4) == Gos(s1, c, 3) == Gos(s2, c, 2);
    LeavesAll(s.table, s1.table, s2.table, p);
  }

  lemma {:induction false} LeavesAll(t: Table, t1: Table, t2: Table, p: nat)
    requires p < |t| == |t1| == |t2| && t1[p].parent == t[p].parent && t1[p].state == t[p].state && WokeParent(t, t1, p)
    requires forall q | 0 <= q < |t| && q != p :: PassedOne(t1, t2, p, q)
    ensures forall q | 0 <= q < |t| && q != p :: LeftBy(t, p, t[q], t2[q])
  {
    SameZombies(t, t1, p);
    forall q | 0 <= q < |t| && q != p ensures LeftBy(t, p, t[q], t2[q]) {
      assert PassedOne(t1, t2, p, q);
    }
  }

  /** From t to t' whoever slept on the parent of p is runnable. */
  predicate WokeParent(t: Table, t': Table, p: nat)
    requires p < |t|
  {
    && |t'| == |t|
    && (forall q | 0 <= q < |t| && q != p && t[q].state == SLEEPING && ParentSleeps(t, p, t[q]) ::
          t'[q] == t[q].(state := RUNNABLE))
    && (forall q | 0 <= q < |t| && q != p && !(t[q].state == SLEEPING && ParentSleeps(t, p, t[q])) :: t'[q] == t[q])
  }

  lemma {:induction false} WakesParent(s: State, c: nat, p: nat)
    requires At(s, c, p, Exiting)
    ensures var r := Next(s, Go(c));
            OnlyTable(s, r) && r.table[p] == s.table[p].(pc := PassOn) && WokeParent(s.table, r.table, p)
  {
  }

  lemma {:induction false} PassesOn(s: State, c: nat, p: nat)
    requires At(s, c, p, PassOn)
    ensures var r := Next(s, Go(c));
            && OnlyTable(s, r) && r.table[p] == s.table[p].(pc := Dying)
            && forall q | 0 <= q < |s.table| && q != p :: PassedOne(s.table, r.table, p, q)
  {
    PassedFields(s.table, p);
    var r := Next(s, Go(c));
    forall q | 0 <= q < |s.table| && q != p ensures PassedOne(s.table, r.table, p, q) {
      assert PassedOne(s.table, PassToInit(s.table, p), p, q);
    }
  }

  lemma {:induction false} Dies(s: State, c: nat, p: nat)
    requires At(s, c, p, Dying)
    ensures Gos(s, c, 2) == s.(table := s.table[p := s.table[p].(state := ZOMBIE, pc := Back(Dead))],
                               cpus := s.cpus[c := s.cpus[c].(at := Leaving(p))])
  {
    var s1 := s.(table := s.table[p := s.table[p].(state := ZOMBIE, pc := Swtch(Dead))]);
    assert Next(s, Go(c)) == s1;
    SwitchesAway(s1, c, p, Dead);
    assert Gos(s, c, 2) == Gos(s1, c, 1) == Gos(Next(s1, Go(c)), c, 0);
  }

  lemma {:induction false} SameZombies(t: Table, t': Table, p: nat)
    requires |t'| == |t| && forall q | 0 <= q < |t| ::
               t'[q].parent == t[q].parent && (t'[q].state == ZOMBIE <==> t[q].state == ZOMBIE)
    ensures HasZombie(t', p) <==> HasZombie(t, p)
  {
    if HasZombie(t, p) {
      var j :| 0 <= j < |t| && t[j].parent == Some(p) && t[j].state == ZOMBIE;
      assert t'[j].parent == Some(p) && t'[j].state == ZOMBIE;
    }
    if HasZombie(t', p) {
      var j :| 0 <= j < |t'| && t'[j].parent == Some(p) && t'[j].state == ZOMBIE;
      assert t[j].parent == Some(p) && t[j].state == ZOMBIE;
    }
  }

  // ----- sleep and yield -----

  /** sleep: asleep on the channel, and off the CPU. */
  lemma {:induction false} CallSleep(s: State, c: nat, p: nat, ch: nat)
    requires InUser(s, c, p) && s.lock == None
    ensures Gos(Next(s, Call(c, DoSleep(ch))), c, 4)
         == s.(table := s.table[p := s.table[p].(state := SLEEPING, chan := OnOther(ch), pc := Back(AfterSleep(User)))],
               cpus := s.cpus[c := s.cpus[c].(at := Leaving(p))], lock := Some(c))
  {
    var s1 := WithPc(s, p, Doze(OnOther(ch), User));
    assert Next(s, Call(c, DoSleep(ch))) == s1;
    TakesTable(s1, c, p);
    var s2 := WithPc(s, p, Dozing(OnOther(ch), User)).(lock := Some(c));
    assert s2.table == s1.table[p := s2.table[p]];
    var s3 := WithPc(s, p, Marking(OnOther(ch), User)).(lock := Some(c));
    assert s3.table == s2.table[p := s3.table[p]];
    assert Next(s2, Go(c)) == s3;
    assert Gos(s1, c, 4) == Gos(s2, c, 3) == Gos(s3, c, 2);
    Marks(s3, c, p, OnOther(ch), User);
  }

  /** The end of sleep. */
  lemma {:induction false} Marks(s: State, c: nat, p: nat, chan: Chan, ret: Pc)
    requires At(s, c, p, Marking(chan, ret))
    ensures Gos(s, c, 2)
         == s.(table := s.table[p := s.table[p].(state := SLEEPING, chan := chan, pc := Back(AfterSleep(ret)))],
               cpus := s.cpus[c := s.cpus[c].(at := Leaving(p))])
  {
    var s1 := s.(table := s.table[p := s.table[p].(chan := chan, state := SLEEPING, pc := Swtch(AfterSleep(ret)))]);
    assert Next(s, Go(c)) == s1;
    SwitchesAway(s1, c, p, AfterSleep(ret));
    assert Gos(s, c, 2) == Gos(s1, c, 1) == Gos(Next(s1, Go(c)), c, 0);
  }

  /** The timer interrupt: yield makes the process runnable and leaves the CPU. */
  lemma {:induction false} CallYield(s: State, c: nat, p: nat)
    requires InUser(s, c, p) && s.lock == None
    ensures Gos(Next(s, Preempt(c)), c, 2)
         == s.(table := s.table[p := s.table[p].(state := RUNNABLE, pc := Back(AfterYield(User)))],
               cpus := s.cpus[c := s.cpus[c].(at := Leaving(p))], lock := Some(c))
  {
    var s1 := WithPc(s, p, Yield(User)).(lock := Some(c));
    assert Next(s, Preempt(c)) == s1;
    var s2 := s1.(table := s.table[p := s.table[p].(state := RUNNABLE, pc := Swtch(AfterYield(User)))]);
    assert s2.table == s1.table[p := s2.table[p]];
    assert Next(s1, Go(c)) == s2;
    SwitchesAway(s2, c, p, AfterYield(User));
    assert Gos(s1, c, 2) == Gos(s2, c, 1) == Gos(Next(s2, Go(c)), c, 0);
  }

  /** Back on a CPU the process releases ptable.lock and goes on where it was; wait looks again. */
  lemma {:induction false} Resumes(s: State, c: nat, p: nat, k: Cont)
    requires At(s, c, p, Back(k)) && k != Dead
    ensures var r, me := Next(s, Go(c)), s.table[p];
            match k
            case AfterYield(ret) => r == WithPc(s, p, ret).(lock := None)
            case AfterSleep(ret) => r == s.(lock := None, table := s.table[p := me.(pc := ret, chan := NoChan)])
            case AfterWait => r == s.(table := s.table[p := me.(pc := Wait, chan := NoChan)])
  {
  }

  // ----- the scheduler -----

  /** Slots from i up to j hold nobody runnable. */
  predicate NoneRunnable(t: Table, i: nat, j: nat) {
    forall q | i <= q < j && q < |t| :: t[q].state != RUNNABLE
  }

  /** A scan at slot i dispatches the first runnable process from there on, whatever comes before it. */
  lemma {:induction false} ScanDispatches(s: State, c: nat, i: nat, j: nat)
    requires c < |s.cpus| && s.cpus[c] == Cpu(None, Scan(i)) && i <= j < |s.table|
    requires NoneRunnable(s.table, i, j) && s.table[j].state == RUNNABLE
    ensures Gos(s, c, j - i + 3)
         == s.(table := s.table[j := s.table[j].(state := RUNNING, host := Some(c))],
               cpus := s.cpus[c := Cpu(Some(j), On(j))])
    decreases j - i
  {
    if i < j {
      var s1 := s.(cpus := s.cpus[c := Cpu(None, Scan(i + 1))]);
      assert Next(s, Go(c)) == s1;
      ScanDispatches(s1, c, i + 1, j);
      assert s1.cpus[c := Cpu(Some(j), On(j))] == s.cpus[c := Cpu(Some(j), On(j))];
    } else {
      Dispatches(s, c, j);
    }
  }

  lemma {:induction false} Dispatches(s: State, c: nat, j: nat)
    requires c < |s.cpus| && s.cpus[c] == Cpu(None, Scan(j)) && j < |s.table| && s.table[j].state == RUNNABLE
    ensures Gos(s, c, 3)
         == s.(table := s.table[j := s.table[j].(state := RUNNING, host := Some(c))],
               cpus := s.cpus[c := Cpu(Some(j), On(j))])
  {
    var s1 := s.(cpus := s.cpus[c := Cpu(Some(j), Chosen(j))], table := s.table[j := s.table[j].(host := Some(c))]);
    assert Next(s, Go(c)) == s1;
    var s2 := s1.(cpus := s1.cpus[c := Cpu(Some(j), Entering(j))],
                  table := s1.table[j := s1.table[j].(state := RUNNING)]);
    assert Next(s1, Go(c)) == s2;
    var s3 := Next(s2, Go(c));
    assert s3.cpus == s.cpus[c := Cpu(Some(j), On(j))];
    assert Gos(s, c, 3) == Gos(s1, c, 2) == Gos(s2, c, 1) == Gos(s3, c, 0);
  }

  /** A scan that finds nobody lets go of ptable.lock. */
  lemma {:induction false} ScanEnds(s: State, c: nat, i: nat)
    requires c < |s.cpus| && s.cpus[c] == Cpu(None, Scan(i)) && i <= |s.table| && NoneRunnable(s.table, i, |s.table|)
    ensures Gos(s, c, |s.table| - i + 1) == s.(cpus := s.cpus[c := Cpu(None, Idle)], lock := None)
    decreases |s.table| - i
  {
    if i < |s.table| {
      var s1 := s.(cpus := s.cpus[c := Cpu(None, Scan(i + 1))]);
      assert Next(s, Go(c)) == s1;
      ScanEnds(s1, c, i + 1);
      assert s1.cpus[c := Cpu(None, Idle)] == s.cpus[c := Cpu(None, Idle)];
    } else {
      var s1 := s.(cpus := s.cpus[c := Cpu(None, Idle)], lock := None);
      assert Next(s, Go(c)) == s1;
      assert Gos(s, c, 1) == Gos(s1, c, 0);
    }
  }

  /** An idle CPU starts a scan at the first slot, and one that a process has left goes on behind it. */
  lemma {:induction false} ScanStarts(s: State, c: nat)
    requires c < |s.cpus|
    ensures s.cpus[c].at == Idle && s.lock == None ==>
              Next(s, Go(c)) == s.(lock := Some(c), cpus := s.cpus[c := Cpu(None, Scan(0))])
    ensures forall i: nat | s.cpus[c].at == Leaving(i) && i < |s.table| ::
              Next(s, Go(c)) == s.(cpus := s.cpus[c := Cpu(None, Scan(i + 1))],
                                   table := s.table[i := s.table[i].(host := None)])
  {
  }

  // ----- sleep locks -----

  /** The spin lock inside the sleep lock is taken. */
  lemma {:induction false} TakesSpin(s: State, c: nat, p: nat, l: nat)
    requires InUser(s, c, p) && l < |s.locks| && s.locks[l].spin == None
    ensures var locks := s.locks[l := s.locks[l].(spin := Some(p))];
            && Next(WithPc(s, p, Acquire(l)), Go(c)) == WithPc(s, p, Test(l)).(locks := locks)
            && Next(WithPc(s, p, Release(l)), Go(c)) == WithPc(s, p, Free(l)).(locks := locks)
  {
    assert s.table[p := s.table[p].(pc := Acquire(l))][p := s.table[p].(pc := Test(l))]
        == s.table[p := s.table[p].(pc := Test(l))];
    assert s.table[p := s.table[p].(pc := Release(l))][p := s.table[p].(pc := Free(l))]
        == s.table[p := s.table[p].(pc := Free(l))];
  }

  /** And dropped at the end. */
  lemma {:induction false} DropsSpin(s: State, c: nat, p: nat, l: nat)
    requires At(s, c, p, Done(l)) && l < |s.locks|
    ensures Next(s, Go(c)) == WithPc(s, p, User).(locks := s.locks[l := s.locks[l].(spin := None)])
  {
  }

  /** acquiresleep of a free lock. */
  lemma {:induction false} CallAcquire(s: State, c: nat, p: nat, l: nat)
    requires InUser(s, c, p) && l < |s.locks| && s.locks[l].spin == None && !s.locks[l].locked
    ensures Gos(Next(s, Call(c, DoAcquire(l))), c, 3)
         == s.(table := s.table[p := s.table[p].(held := s.table[p].held + {l})],
               locks := s.locks[l := SleepLock(None, true, s.table[p].pid, Some(p))])
  {
    var s1 := WithPc(s, p, Acquire(l));
    assert Next(s, Call(c, DoAcquire(l))) == s1;
    TakesSpin(s, c, p, l);
    var s2 := Next(s1, Go(c));
    assert Gos(s1, c, 3) == Gos(s2, c, 2);
    GetsLock(s2, c, p, l);
    assert s2.locks[l := SleepLock(None, true, s.table[p].pid, Some(p))]
        == s.locks[l := SleepLock(None, true, s.table[p].pid, Some(p))];
    var me := s.table[p].(held := s.table[p].held + {l});
    assert s2.table[p := me] == s.table[p := me];
  }

  lemma {:induction false} GetsLock(s: State, c: nat, p: nat, l: nat)
    requires At(s, c, p, Test(l)) && l < |s.locks| && !s.locks[l].locked
    ensures Gos(s, c, 2)
         == s.(table := s.table[p := s.table[p].(pc := User, held := s.table[p].held + {l})],
               locks := s.locks[l := SleepLock(None, true, s.table[p].pid, Some(p))])
  {
    var mine := s.locks[l].(locked := true, pid := s.table[p].pid, holder := Some(p));
    var me := s.table[p].(pc := Done(l), held := s.table[p].held + {l});
    var s1 := s.(table := s.table[p := me], locks := s.locks[l := mine]);
    assert Next(s, Go(c)) == s1;
    DropsSpin(s1, c, p, l);
    assert Gos(s, c, 2) == Gos(s1, c, 1) == Gos(Next(s1, Go(c)), c, 0);
  }

  /** acquiresleep of a lock that is taken: asleep on it, and off the CPU. */
  lemma {:induction false} CallAcquireTaken(s: State, c: nat, p: nat, l: nat)
    requires InUser(s, c, p) && s.lock == None && l < |s.locks| && s.locks[l].spin == None && s.locks[l].locked
    ensures Gos(Next(s, Call(c, DoAcquire(l))), c, 6)
         == s.(table := s.table[p := s.table[p].(state := SLEEPING, chan := OnLock(l),
                                                 pc := Back(AfterSleep(Acquire(l))))],
               cpus := s.cpus[c := s.cpus[c].(at := Leaving(p))], lock := Some(c))
  {
    var s1 := WithPc(s, p, Acquire(l));
    assert Next(s, Call(c, DoAcquire(l))) == s1;
    TakesSpin(s, c, p, l);
    var s2 := WithPc(s, p, Test(l)).(locks := s.locks[l := s.locks[l].(spin := Some(p))]);
    var s3 := WithPc(s, p, Doze(OnLock(l), Acquire(l))).(locks := s2.locks);
    assert s3.table == s2.table[p := s3.table[p]] && s3.locks == s2.locks[l := s2.locks[l]];
    assert Next(s2, Go(c)) == s3;
    GoesToSleep(s, s3, c, p, l);
    assert Gos(s1, c, 6) == Gos(s2, c, 5) == Gos(s3, c, 4);
  }

  lemma {:induction false} GoesToSleep(s: State, s3: State, c: nat, p: nat, l: nat)
    requires InUser(s, c, p) && s.lock == None && l < |s.locks| && s.locks[l].spin == None
    requires s3 == WithPc(s, p, Doze(OnLock(l), Acquire(l))).(locks := s.locks[l := s.locks[l].(spin := Some(p))])
    ensures Gos(s3, c, 4)
         == s.(table := s.table[p := s.table[p].(state := SLEEPING, chan := OnLock(l),
                                                 pc := Back(AfterSleep(Acquire(l))))],
               cpus := s.cpus[c := s.cpus[c].(at := Leaving(p))], lock := Some(c))
  {
    TakesTable(s3, c, p);
    var s4 := Next(s3, Go(c));
    var s5 := WithPc(s, p, Marking(OnLock(l), Acquire(l))).(lock := Some(c));
    assert s5.table == s4.table[p := s5.table[p]] && s5.locks == s4.locks[l := s.locks[l]];
    assert Next(s4, Go(c)) == s5;
    Marks(s5, c, p, OnLock(l), Acquire(l));
    assert Gos(s3, c, 4) == Gos(s4, c, 3) == Gos(s5, c, 2);
  }

  /** releasesleep: the lock is free, and everyone asleep on it is runnable. */
  lemma {:induction false} CallRelease(s: State, c: nat, p: nat, l: nat)
    requires InUser(s, c, p) && s.lock == None && l < |s.locks| && s.locks[l].spin == None && l in s.table[p].held
    ensures var r := Gos(Next(s, Call(c, DoRelease(l))), c, 6);
            && r.cpus == s.cpus && r.lock == None && r.nextpid == s.nextpid
            && r.locks == s.locks[l := SleepLock(None, false, 0, None)]
            && Woke(s.table, r.table, OnLock(l), p) && r.table[p] == s.table[p].(held := s.table[p].held - {l})
  {
    var s1 := WithPc(s, p, Release(l));
    assert Next(s, Call(c, DoRelease(l))) == s1;
    TakesSpin(s, c, p, l);
    var s2 := WithPc(s, p, Free(l)).(locks := s.locks[l := s.locks[l].(spin := Some(p))]);
    FreesLock(s, s2, c, p, l);
    var s3 := Next(s2, Go(c));
    assert Gos(s1, c, 6) == Gos(s2, c, 5) == Gos(s3, c, 4);
    ReleaseEnds(s3, c, p, l);
    assert s3.locks[l := SleepLock(None, false, 0, None)] == s.locks[l := SleepLock(None, false, 0, None)];
  }

  lemma {:induction false} FreesLock(s: State, s2: State, c: nat, p: nat, l: nat)
    requires InUser(s, c, p) && l < |s.locks|
    requires s2 == WithPc(s, p, Free(l)).(locks := s.locks[l := s.locks[l].(spin := Some(p))])
    ensures var me := s.table[p].(pc := Notify(OnLock(l), Done(l)), held := s.table[p].held - {l});
            Next(s2, Go(c)) == s.(table := s.table[p := me], locks := s.locks[l := SleepLock(Some(p), false, 0, None)])
  {
    var me := s.table[p].(pc := Notify(OnLock(l), Done(l)), held := s.table[p].held - {l});
    var freed := SleepLock(Some(p), false, 0, None);
    assert s2.table[p := me] == s.table[p := me] && s2.locks[l := freed] == s.locks[l := freed];
  }

  lemma {:induction false} ReleaseEnds(s: State, c: nat, p: nat, l: nat)
    requires At(s, c, p, Notify(OnLock(l), Done(l))) && s.lock == None && l < |s.locks|
    ensures var r := Gos(s, c, 4);
            && r.cpus == s.cpus && r.lock == None && r.nextpid == s.nextpid
            && r.locks == s.locks[l := s.locks[l].(spin := None)]
            && Woke(s.table, r.table, OnLock(l), p) && r.table[p] == s.table[p].(pc := User)
  {
    TakesTable(s, c, p);
    var s1 := Next(s, Go(c));
    Notifies(s1, c, p, OnLock(l), Done(l));
    var s2 := Next(s1, Go(c));
    DropsTableAt(s2, c, p, Done(l));
    var s3 := Next(s2, Go(c));
    DropsSpin(s3, c, p, l);
    var s4 := Next(s3, Go(c));
    assert Gos(s, c, 4) == Gos(s1, c, 3) == Gos(s2, c, 2) == Gos(s3, c, 1) == Gos(s4, c, 0);
  }
}
