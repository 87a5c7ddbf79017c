/** kill (proc.c) of a process inside pipewrite or piperead (pipe.c). Both look at proc->killed with the
    pipe's lock held, kill sets it with ptable.lock held, so a kill can come between the look and the
    sleep. */
module PipeKills {
  import opened Options
  import opened PipeRing
  import opened PipeProtocol

  /** Past its look at proc->killed on the way to sleep, or asleep. */
  predicate Bedded(c: Call) {
    c.Active? &&
    (Parks(c.stage) || c.stage == Notify(true) || c.stage == Notifying(true) || c.stage == Notified(true))
  }

  /** No killed process sleeps in the pipe or is about to. */
  ghost predicate Heeded(s: State) {
    forall t | 0 <= t < |s.threads| && s.threads[t].killed :: !Bedded(s.threads[t].call)
  }

  /** A kill of a process that has looked at proc->killed and has yet to take ptable.lock to sleep. */
  predicate TooLate(s: State, step: Step) {
    && step.Kill? && step.t < |s.threads| && s.tlock == None
    && var c := s.threads[step.t].call; c.Active? && (c.stage == Doze || c.stage == Notify(true))
  }

  lemma {:induction false} GoHeeded(s: State, t: nat)
    requires Invariant(s) && Heeded(s) && t < |s.threads| && s.threads[t].call.Active?
    ensures Heeded(Advance(s, t))
  {
    var s' := Advance(s, t);
    AdvanceOthers(s, t);
    forall u | 0 <= u < |s'.threads| && s'.threads[u].killed ensures !Bedded(s'.threads[u].call) {
      assert !Bedded(s.threads[u].call);
      if u == t { assert CallOk(s.pipe, s.threads[t].call); }
    }
  }

  lemma {:induction false} KillHeeded(s: State, t: nat)
    requires Invariant(s) && Heeded(s) && t < |s.threads| && s.tlock == None
    ensures Heeded(Next(s, Kill(t))) <==> !TooLate(s, Kill(t))
  {
    var s' := Next(s, Kill(t));
    assert !InTableLock(s.threads[t].call);
    assert s'.threads[t].killed;
    assert Bedded(s'.threads[t].call) <==> TooLate(s, Kill(t));
    forall u | 0 <= u < |s.threads| && u != t && s'.threads[u].killed ensures !Bedded(s'.threads[u].call) {
      assert s'.threads[u] == s.threads[u];
    }
  }

  /** A step leaves a killed process asleep, or about to be, exactly when it is a kill that comes too
      late. */
  lemma {:induction false} StepHeeded(s: State, step: Step)
    requires Invariant(s) && Heeded(s)
    ensures Heeded(Next(s, step)) <==> !TooLate(s, step)
  {
    if step.t < |s.threads| {
      match step
      case Begin(t, op) =>
        var s' := Next(s, step);
        forall u | 0 <= u < |s'.threads| && s'.threads[u].killed ensures !Bedded(s'.threads[u].call) {
          assert u != t ==> s'.threads[u] == s.threads[u];
        }
      case Go(t) => if s.threads[t].call.Active? { GoHeeded(s, t); }
      case Kill(t) => if s.tlock == None { KillHeeded(s, t); }
    }
  }

  ghost predicate HeededAt(n: nat, steps: seq<Step>, k: nat)
    requires k <= |steps|
  {
    Heeded(Run(n, steps[..k]))
  }

  ghost predicate TooLateAt(n: nat, steps: seq<Step>, k: nat)
    requires k < |steps|
  {
    TooLate(Run(n, steps[..k]), steps[k])
  }

  lemma {:induction false} NextHeeded(n: nat, steps: seq<Step>, k: nat)
    requires k < |steps| && HeededAt(n, steps, k)
    ensures HeededAt(n, steps, k + 1) <==> !TooLateAt(n, steps, k)
  {
    RunsKeep(n, steps[..k]);
    StepHeeded(Run(n, steps[..k]), steps[k]);
    assert steps[..k + 1] == steps[..k] + [steps[k]];
    RunSnoc(n, steps[..k], steps[k]);
  }

  lemma {:induction false} HeededUpTo(n: nat, steps: seq<Step>, k: nat)
    requires k <= |steps| && forall j | 0 <= j < |steps| :: !TooLateAt(n, steps, j)
    ensures HeededAt(n, steps, k)
  {
    if k > 0 {
      HeededUpTo(n, steps, k - 1);
      NextHeeded(n, steps, k - 1);
    }
  }

  /** Throughout a run no killed process sleeps in the pipe, or is about to, exactly when no kill of the
      run comes between a look at proc->killed and the sleep. */
  lemma {:induction false} AlwaysHeededIff(n: nat, steps: seq<Step>)
    ensures (forall k | 0 <= k <= |steps| :: HeededAt(n, steps, k)) <==>
            (forall k | 0 <= k < |steps| :: !TooLateAt(n, steps, k))
  {
    if forall k | 0 <= k <= |steps| :: HeededAt(n, steps, k) {
      forall k | 0 <= k < |steps| ensures !TooLateAt(n, steps, k) {
        assert HeededAt(n, steps, k + 1);
        NextHeeded(n, steps, k);
      }
    }
    if forall k | 0 <= k < |steps| :: !TooLateAt(n, steps, k) {
      forall k | 0 <= k <= |steps| ensures HeededAt(n, steps, k) {
        HeededUpTo(n, steps, k);
      }
    }
  }

  /** GoingToSleep with the reader killed. */
  function GoingKilled(k: nat): State {
    GoingToSleep(k).(threads := GoingToSleep(k).threads[0 := GoingToSleep(k).threads[0].(killed := true)])
  }

  /** The reader is killed when it is about to sleep, and goes on to. */
  function KilledThenSleep(k: nat): seq<Step> {
    if k <= 2 then ToSleep(2) + [Kill(0)] else KilledThenSleep(k - 1) + [Go(0)]
  }

  lemma {:induction false} GoKilled(k: nat)
    requires 2 <= k < 5
    ensures Next(GoingKilled(k), Go(0)) == GoingKilled(k + 1)
  {
    assert GoingKilled(k + 1).threads == GoingKilled(k).threads[0 := GoingKilled(k + 1).threads[0]];
  }

  lemma {:induction false} RunKilled(k: nat)
    requires 2 <= k <= 5
    ensures Run(2, KilledThenSleep(k)) == GoingKilled(k)
  {
    if k == 2 {
      RunToSleep(2);
      RunSnoc(2, ToSleep(2), Kill(0));
    } else {
      RunKilled(k - 1);
      RunSnoc(2, KilledThenSleep(k - 1), Go(0));
      GoKilled(k - 1);
    }
  }

  /** A kill that comes too late leaves a reader asleep on an empty pipe: both locks are free, the
      process is marked as killed, and no step of its own gets it on. */
  lemma {:induction false} KilledReaderSleepsOn()
    ensures var s := Run(2, KilledThenSleep(5));
            && s.plock == None && s.tlock == None && Contents(s.pipe.ring) == [] && s.pipe.writeopen
            && s.threads == [Thread(true, Active(Read(1, []), Asleep), 0), Thread(false, Idle, 0)]
            && Next(s, Go(0)) == s
  {
    RunKilled(5);
    RunsKeep(2, KilledThenSleep(5));
    ContentsAre(Empty, [], 0);
  }
}
