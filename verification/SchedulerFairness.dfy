/** How many other processes one CPU's scan can dispatch before it reaches a process that stays
    RUNNABLE. */
module SchedulerFairness {
  import opened Options
  import opened ProcTable
  import opened Scheduler
  import opened SchedulerCore
  import opened SchedulerSafety

  /** The slots the scan still passes before slot p of n, from slot i. */
  function Ahead(i: nat, p: nat, n: nat): nat
    requires p < n
  {
    if i <= p then p - i else if i < n then n - i + p else p
  }

  function Distance(at: Place, p: nat, n: nat): (d: nat)
    requires p < n
    ensures d < n
  {
    match at
    case Idle => p
    case Scan(i) => Ahead(i, p, n)
    case Chosen(i) => Ahead(i + 1, p, n)
    case Entering(i) => Ahead(i + 1, p, n)
    case On(i) => Ahead(i + 1, p, n)
    case Leaving(i) => Ahead(i + 1, p, n)
  }

  /** CPU c picks a process to run. */
  predicate Dispatches(s: State, step: Step, c: nat) {
    && step == Go(c) && c < |s.cpus| && s.cpus[c].at.Scan?
    && s.cpus[c].at.i < |s.table| && s.table[s.cpus[c].at.i].state == RUNNABLE
  }

  function Dispatched(s: State, steps: seq<Step>, c: nat): nat {
    if steps == [] then 0
    else
      var before, step := steps[..|steps| - 1], steps[|steps| - 1];
      Dispatched(s, before, c) + (if Dispatches(Run(s, before), step, c) then 1 else 0)
  }

  /** p is RUNNABLE and CPU c is not about to run it, after every prefix of the run. */
  ghost predicate PassedOver(s: State, steps: seq<Step>, c: nat, p: nat) {
    && Waits(Run(s, steps), c, p)
    && (steps == [] || PassedOver(s, steps[..|steps| - 1], c, p))
  }

  predicate Waits(s: State, c: nat, p: nat) {
    c < |s.cpus| && p < |s.table| && s.table[p].state == RUNNABLE && s.cpus[c].cur != Some(p)
  }

  lemma {:induction false} StepSizes(s: State, step: Step)
    requires Invariant(s)
    ensures |Next(s, step).table| == |s.table| && |Next(s, step).cpus| == |s.cpus|
    ensures forall c | 0 <= c < |s.cpus| && c != step.c :: Next(s, step).cpus[c] == s.cpus[c]
    ensures forall c | 0 <= c < |s.cpus| && s.cpus[c].at.On? ::
              Next(s, step).cpus[c] == s.cpus[c] || Next(s, step).cpus[c].at == Leaving(s.cpus[c].at.i)
  {
    if step.c < |s.cpus| {
      assert CpuOk(s.cpus[step.c], s.table, step.c);
      if s.cpus[step.c].at.On? && step.Go? { ProcSizes(s, step.c, s.cpus[step.c].at.i); }
    }
  }

  lemma {:induction false} ProcSizes(s: State, c: nat, p: nat)
    requires c < |s.cpus| && p < |s.table| && s.cpus[c].at == On(p)
    ensures var s' := ProcStep(s, c, p);
            && |s'.table| == |s.table| && (s'.cpus == s.cpus || s'.cpus == s.cpus[c := s.cpus[c].(at := Leaving(p))])
  {
  }

  lemma {:induction false} StepDistance(s: State, step: Step, c: nat, p: nat)
    requires Invariant(s) && Waits(s, c, p) && Waits(Next(s, step), c, p)
    ensures |Next(s, step).table| == |s.table|
    ensures Distance(Next(s, step).cpus[c].at, p, |s.table|) + (if Dispatches(s, step, c) then 1 else 0)
            <= Distance(s.cpus[c].at, p, |s.table|)
  {
    StepSizes(s, step);
    assert CpuOk(s.cpus[c], s.table, c);
  }

  /** A CPU dispatches at most n - 1 other processes, n the size of the table, while p waits. */
  lemma {:induction false} BoundedOvertaking(s: State, steps: seq<Step>, c: nat, p: nat)
    requires Invariant(s) && PassedOver(s, steps, c, p)
    ensures Invariant(Run(s, steps)) && |Run(s, steps).table| == |s.table| && c < |s.cpus| && p < |s.table|
    ensures Dispatched(s, steps, c) + Distance(Run(s, steps).cpus[c].at, p, |s.table|)
              <= Distance(s.cpus[c].at, p, |s.table|)
    ensures Dispatched(s, steps, c) <= |s.table| - 1
  {
    if steps != [] {
      var before, step := steps[..|steps| - 1], steps[|steps| - 1];
      BoundedOvertaking(s, before, c, p);
      StepKeeps(Run(s, before), step);
      StepDistance(Run(s, before), step, c, p);
    }
  }
}
