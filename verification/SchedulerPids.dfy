/** Process identifiers: distinct among processes, and 0 exactly in unused slots. */
module SchedulerPids {
  import opened Options
  import opened ProcTable
  import opened Scheduler
  import opened SchedulerCore
  import opened SchedulerFamily
  import opened SchedulerSafety

  predicate PidOk(q: Proc, n: nat) {
    (q.pid == 0 <==> q.state == UNUSED) && q.pid < n
  }

  ghost predicate Pids(t: Table, n: nat) {
    && n >= 1
    && (forall p | 0 <= p < |t| :: PidOk(t[p], n))
    && (forall p, q | 0 <= p < |t| && 0 <= q < |t| && p != q && t[p].pid != 0 :: t[p].pid != t[q].pid)
  }

  predicate SamePid(q: Proc, q': Proc) {
    q'.pid == q.pid && (q'.state == UNUSED <==> q.state == UNUSED)
  }

  /** A step leaves pids alone, gives a free slot the next pid, or frees a slot. */
  ghost predicate PidStep(t: Table, n: nat, t': Table, n': nat, k: nat) {
    && |t'| == |t|
    && (forall j {:trigger t'[j]} | 0 <= j < |t| && j != k :: SamePid(t[j], t'[j]))
    && (k < |t| ==>
          || (SamePid(t[k], t'[k]) && n' == n)
          || (t[k].state == UNUSED && t'[k].state != UNUSED && t'[k].pid == n && n' == n + 1)
          || (t'[k].state == UNUSED && t'[k].pid == 0 && n' == n))
    && (k >= |t| ==> n' == n)
  }

  lemma {:induction false} PidsKept(t: Table, n: nat, t': Table, n': nat, k: nat)
    requires Pids(t, n) && PidStep(t, n, t', n', k)
    ensures Pids(t', n')
  {
    forall p | 0 <= p < |t'| ensures PidOk(t'[p], n') {
      assert PidOk(t[p], n) && (p != k ==> SamePid(t[p], t'[p]));
    }
    forall p, q | 0 <= p < |t'| && 0 <= q < |t'| && p != q && t'[p].pid != 0 ensures t'[p].pid != t'[q].pid {
      assert PidOk(t[p], n) && PidOk(t[q], n);
      assert (p != k ==> SamePid(t[p], t'[p])) && (q != k ==> SamePid(t[q], t'[q]));
    }
  }

  /** The slot a step on the table gives or takes a pid, if any. */
  function Affected(t: Table, p: nat): nat
    requires p < |t|
  {
    match t[p].pc
    case Wait => if First(t, ZombieChild(p), 0).Some? then First(t, ZombieChild(p), 0).value else p
    case Alloc => if First(t, Unused(), 0).Some? then First(t, Unused(), 0).value else p
    case _ => p
  }

  lemma {:induction false} ReapAndAllocPids(t: Table, n: nat, p: nat)
    requires p < |t| && t[p].state == RUNNING && (t[p].pc.Wait? || t[p].pc.Alloc?)
    ensures var (t', n') := InTableStep(t, n, p); PidStep(t, n, t', n', Affected(t, p))
  {
  }

  lemma {:induction false} OtherTablePids(t: Table, n: nat, p: nat)
    requires p < |t| && t[p].state == RUNNING && InTableOp(t[p].pc) && !t[p].pc.Wait? && !t[p].pc.Alloc?
    ensures var (t', n') := InTableStep(t, n, p); PidStep(t, n, t', n', p)
  {
  }

  lemma {:induction false} TablePids(t: Table, n: nat, p: nat)
    requires p < |t| && t[p].state == RUNNING && InTableOp(t[p].pc)
    ensures var (t', n') := InTableStep(t, n, p); PidStep(t, n, t', n', Affected(t, p))
  {
    if t[p].pc.Wait? || t[p].pc.Alloc? {
      ReapAndAllocPids(t, n, p);
    } else {
      OtherTablePids(t, n, p);
    }
  }

  lemma {:induction false} StepPids(s: State, step: Step)
    requires Invariant(s) && Pids(s.table, s.nextpid)
    ensures Pids(Next(s, step).table, Next(s, step).nextpid)
  {
    var s' := Next(s, step);
    if step.c < |s.cpus| && s.cpus[step.c].at.On? && s.cpus[step.c].at.i < |s.table| {
      var p := s.cpus[step.c].at.i;
      Running(s, step.c, p);
      if step.Go? && InTableOp(s.table[p].pc) {
        TablePids(s.table, s.nextpid, p);
        PidsKept(s.table, s.nextpid, s'.table, s'.nextpid, Affected(s.table, p));
      } else {
        OtherPids(s, step, p);
        PidsKept(s.table, s.nextpid, s'.table, s'.nextpid, |s.table|);
      }
    } else if step.c < |s.cpus| && step.Go? {
      assert CpuOk(s.cpus[step.c], s.table, step.c);
      PidsKept(s.table, s.nextpid, s'.table, s'.nextpid, |s.table|);
    }
  }

  lemma {:induction false} ProcPids(s: State, c: nat, p: nat)
    requires c < |s.cpus| && p < |s.table| && !InTableOp(s.table[p].pc) && BuildsOk(s.table, p)
    ensures var s' := ProcStep(s, c, p); PidStep(s.table, s.nextpid, s'.table, s'.nextpid, |s.table|)
  {
  }

  lemma {:induction false} OtherPids(s: State, step: Step, p: nat)
    requires Targets(s.table) && step.c < |s.cpus| && s.cpus[step.c].at == On(p) && p < |s.table|
    requires !(step.Go? && InTableOp(s.table[p].pc))
    ensures var s' := Next(s, step); PidStep(s.table, s.nextpid, s'.table, s'.nextpid, |s.table|)
  {
    assert BuildsOk(s.table, p);
    if step.Go? { ProcPids(s, step.c, p); }
  }

  /** In every run, no two processes have the same pid, and unused slots have pid 0. */
  lemma {:induction false} UniquePids(s: State, steps: seq<Step>, p: nat, q: nat)
    requires Booted(s) && p < |Run(s, steps).table| && q < |Run(s, steps).table|
    ensures var t := Run(s, steps).table;
            && (t[p].pid == 0 <==> t[p].state == UNUSED)
            && (p != q && t[p].state != UNUSED ==> t[p].pid != t[q].pid)
  {
    RunPids(s, steps);
    assert PidOk(Run(s, steps).table[p], Run(s, steps).nextpid);
  }

  lemma {:induction false} RunPids(s: State, steps: seq<Step>)
    requires Booted(s)
    ensures Pids(Run(s, steps).table, Run(s, steps).nextpid)
  {
    if steps != [] {
      RunPids(s, steps[..|steps| - 1]);
      RunsKeep(s, steps[..|steps| - 1]);
      StepPids(Run(s, steps[..|steps| - 1]), steps[|steps| - 1]);
    }
  }
}
