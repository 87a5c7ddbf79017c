/** What pipewrite, piperead and pipeclose (pipe.c) return and leave behind: why a call of a run ends
    as it does, and what a call that nobody interrupts does to the bytes in the pipe. */
module PipeCalls {
  import opened Options
  import opened PipeRing
  import opened PipeProtocol
  import opened Sealing

  // ----- why a call ends -----

  /** What a thread that holds the pipe's lock on its way out knows of the pipe. */
  predicate ExitOk(p: Pipe, th: Thread) {
    th.call.Active? ==>
      match th.call.op
      case Write(src, i) =>
        th.call.stage == Leave(false) ==> i < |src| && IsFull(p.ring) && (!p.readopen || th.killed)
      case Read(n, got) =>
        && (th.call.stage.Copy? || Returns(th.call.stage) ==> got != [] || !EmptyOpen(p))
        && (Returns(th.call.stage) ==> |got| >= n || IsEmpty(p.ring))
        && (th.call.stage == Leave(false) ==> EmptyOpen(p) && th.killed)
      case Close(_) => true
  }

  ghost predicate Exits(s: State) {
    forall t | 0 <= t < |s.threads| :: ExitOk(s.pipe, s.threads[t])
  }

  lemma {:induction false} OwnExit(s: State, t: nat)
    requires Invariant(s) && t < |s.threads| && s.threads[t].call.Active? && ExitOk(s.pipe, s.threads[t])
    ensures ExitOk(Advance(s, t).pipe, Advance(s, t).threads[t])
  {
    assert CallOk(s.pipe, s.threads[t].call);
  }

  lemma {:induction false} OtherExit(s: State, t: nat, u: nat)
    requires Invariant(s) && t < |s.threads| && s.threads[t].call.Active?
    requires u < |s.threads| && u != t && ExitOk(s.pipe, s.threads[u])
    ensures |Advance(s, t).threads| == |s.threads| && ExitOk(Advance(s, t).pipe, Advance(s, t).threads[u])
  {
    AdvanceOthers(s, t);
    if s.threads[t].call.stage.Loop? || s.threads[t].call.stage.Copy? {
      assert InPipeLock(s.threads[t].call);
      assert !InPipeLock(s.threads[u].call);
    }
  }

  lemma {:induction false} ExitsKept(s: State, step: Step)
    requires Invariant(s) && Exits(s)
    ensures Exits(Next(s, step))
  {
    var s' := Next(s, step);
    forall u | 0 <= u < |s'.threads| ensures ExitOk(s'.pipe, s'.threads[u]) {
      if step.t < |s.threads| {
        assert |s'.threads| == |s.threads|;
        assert ExitOk(s.pipe, s.threads[u]);
        if step.Go? && s.threads[step.t].call.Active? {
          if u == step.t { OwnExit(s, u); } else { OtherExit(s, step.t, u); }
        }
      }
    }
  }

  lemma {:induction false} RunsExit(n: nat, steps: seq<Step>)
    ensures Exits(Run(n, steps))
  {
    if steps != [] {
      RunsExit(n, steps[..|steps| - 1]);
      RunsKeep(n, steps[..|steps| - 1]);
      ExitsKept(Run(n, steps[..|steps| - 1]), steps[|steps| - 1]);
    }
  }

  /** A piperead that leaves its copying loop has n bytes or has emptied the pipe, so one of n > 0 that
      returns nothing has found the pipe empty and its write end closed. */
  lemma {:induction false} ReadsAllThereIs(n: nat, steps: seq<Step>, t: nat)
    requires t < |Run(n, steps).threads|
    requires var c := Run(n, steps).threads[t].call; c.Active? && c.op.Read? && Returns(c.stage)
    ensures var s := Run(n, steps); var p, op := s.pipe, s.threads[t].call.op;
            && (|op.got| >= op.n || Contents(p.ring) == [])
            && (op.n > 0 && op.got == [] ==> Contents(p.ring) == [] && !p.writeopen)
  {
    RunsExit(n, steps);
    RunsKeep(n, steps);
    var s := Run(n, steps);
    assert ExitOk(s.pipe, s.threads[t]);
    EmptyFull(s.pipe);
  }

  lemma {:induction false} EmptyFull(p: Pipe)
    requires Bytes(p)
    ensures IsEmpty(p.ring) <==> Contents(p.ring) == []
    ensures IsFull(p.ring) <==> |Contents(p.ring)| == PIPESIZE
    ensures |Contents(p.ring)| <= PIPESIZE
  {
    ContentsAre(p.ring, p.stored, |p.taken|);
    FullAndEmpty(p.ring, p.stored, |p.taken|);
  }

  /** pipewrite fails only on a full pipe, with bytes left to write, when nobody can read them any more
      or the process was killed. */
  lemma {:induction false} WriteFailsOnly(n: nat, steps: seq<Step>, t: nat)
    requires t < |Run(n, steps).threads|
    requires var c := Run(n, steps).threads[t].call; c.Active? && c.op.Write? && c.stage == Leave(false)
    ensures var s := Run(n, steps); var op := s.threads[t].call.op;
            && op.i < |op.src| && |Contents(s.pipe.ring)| == PIPESIZE
            && (!s.pipe.readopen || s.threads[t].killed)
  {
    RunsExit(n, steps);
    RunsKeep(n, steps);
    var s := Run(n, steps);
    assert ExitOk(s.pipe, s.threads[t]);
    EmptyFull(s.pipe);
  }

  /** piperead fails only in a killed process, with the pipe empty and its write end open; it has taken
      nothing. */
  lemma {:induction false} ReadFailsOnly(n: nat, steps: seq<Step>, t: nat)
    requires t < |Run(n, steps).threads|
    requires var c := Run(n, steps).threads[t].call; c.Active? && c.op.Read? && c.stage == Leave(false)
    ensures var s := Run(n, steps);
            Contents(s.pipe.ring) == [] && s.pipe.writeopen && s.threads[t].killed
  {
    RunsExit(n, steps);
    RunsKeep(n, steps);
    var s := Run(n, steps);
    assert ExitOk(s.pipe, s.threads[t]);
    EmptyFull(s.pipe);
  }

  // ----- calls that run undisturbed -----

  /** The invariant of all runs, sealed. */
  ghost predicate Sound(s: State) {
    forall u: int | Key(u, s) :: Invariant(s)
  }

  lemma {:induction false} RunsSound(n: nat, steps: seq<Step>)
    ensures Sound(Run(n, steps))
  {
    RunsKeep(n, steps);
  }

  lemma {:induction false} SoundBytes(s: State)
    requires Sound(s)
    ensures var p := s.pipe;
            && (IsEmpty(p.ring) <==> Contents(p.ring) == [])
            && (IsFull(p.ring) <==> |Contents(p.ring)| == PIPESIZE) && |Contents(p.ring)| <= PIPESIZE
  {
    assert Key(0, s);
    EmptyFull(s.pipe);
  }

  /** Thread t takes k steps. */
  ghost function Goes(s: State, t: nat, k: nat): State {
    if k == 0 then s else Next(Goes(s, t, k - 1), Go(t))
  }

  /** s' is where some number of steps of thread t alone lead from s. */
  ghost predicate Reaches(s: State, t: nat, s': State) {
    forall u: int | Key(u, (s, s')) :: exists k: nat :: Goes(s, t, k) == s'
  }

  lemma {:induction false} ReachesStep(s: State, t: nat)
    ensures Reaches(s, t, Next(s, Go(t)))
  {
    assert Goes(s, t, 0) == s;
    assert Goes(s, t, 1) == Next(s, Go(t));
  }

  lemma {:induction false} GoesOn(s: State, t: nat, j: nat, k: nat)
    ensures Goes(Goes(s, t, j), t, k) == Goes(s, t, j + k)
  {
    if k > 0 { GoesOn(s, t, j, k - 1); }
  }

  lemma {:induction false} ReachesOn(s: State, t: nat, s1: State, s2: State)
    requires Reaches(s, t, s1) && Reaches(s1, t, s2)
    ensures Reaches(s, t, s2)
  {
    assert Key(0, (s, s1)) && Key(0, (s1, s2));
    var j: nat :| Goes(s, t, j) == s1;
    var k: nat :| Goes(s1, t, k) == s2;
    GoesOn(s, t, j, k);
  }

  lemma {:induction false} GoesKeep(s: State, t: nat, k: nat)
    requires Invariant(s)
    ensures Invariant(Goes(s, t, k))
  {
    if k > 0 {
      GoesKeep(s, t, k - 1);
      StepKeeps(Goes(s, t, k - 1), Go(t));
    }
  }

  lemma {:induction false} ReachesSound(s: State, t: nat, s': State)
    requires Sound(s) && Reaches(s, t, s')
    ensures Sound(s')
  {
    assert Key(0, s) && Key(0, (s, s'));
    var k: nat :| Goes(s, t, k) == s';
    GoesKeep(s, t, k);
  }

  ghost predicate At(s: State, t: nat, op: Op, stage: Stage) {
    t < |s.threads| && s.threads[t].call == Active(op, stage)
  }

  /** s with thread t at another point of its call, another pipe and another holder of its lock. */
  ghost function With(s: State, t: nat, op: Op, stage: Stage, p: Pipe, plock: Option<nat>): State
    requires t < |s.threads|
  {
    s.(pipe := p, plock := plock, threads := s.threads[t := s.threads[t].(call := Active(op, stage))])
  }

  lemma {:induction false} WithTwice(s: State, t: nat, op: Op, stage: Stage, p: Pipe, l: Option<nat>,
                                     op': Op, stage': Stage, p': Pipe, l': Option<nat>)
    requires t < |s.threads|
    ensures With(With(s, t, op, stage, p, l), t, op', stage', p', l') == With(s, t, op', stage', p', l')
  {
    var th, th' := s.threads[t].(call := Active(op, stage)), s.threads[t].(call := Active(op', stage'));
    assert s.threads[t := th][t := th'] == s.threads[t := th'];
  }

  /** Asleep on &p->nread (readers) or on &p->nwrite. */
  predicate SleepsOn(th: Thread, readers: bool) {
    th.call.Active? && th.call.stage == Asleep && (if readers then th.call.op.Read? else th.call.op.Write?)
  }

  /** Whoever slept on the channel is about to take the pipe's lock again. */
  ghost predicate Roused(th: Thread, th': Thread, readers: bool) {
    && (SleepsOn(th, readers) ==> th' == th.(call := Active(th.call.op, Enter)))
    && (!SleepsOn(th, readers) ==> th' == th)
  }

  /** s' is With(s, t, op, stage, p, plock) but that those who slept on the channel are awake. */
  ghost predicate Waking(s: State, s': State, t: nat, op: Op, stage: Stage, p: Pipe, plock: Option<nat>,
                         readers: bool)
  {
    && t < |s.threads| == |s'.threads|
    && s'.threads[t] == s.threads[t].(call := Active(op, stage))
    && s'.pipe == p && s'.plock == plock && s'.tlock == s.tlock
    && forall u {:trigger s'.threads[u]} | 0 <= u < |s.threads| && u != t ::
         Roused(s.threads[u], s'.threads[u], readers)
  }

  /** A step that leads from With(s, …) to With(s, …). */
  lemma {:induction false} Onward(s: State, s1: State, t: nat, op: Op, stage: Stage, p: Pipe, l: Option<nat>,
                                  op': Op, stage': Stage, p': Pipe, l': Option<nat>) returns (s': State)
    requires t < |s.threads| && Sound(s) && Reaches(s, t, s1) && s1 == With(s, t, op, stage, p, l)
    requires Next(s1, Go(t)) == With(s1, t, op', stage', p', l')
    ensures s' == With(s, t, op', stage', p', l') && Reaches(s, t, s') && Sound(s')
  {
    s' := Next(s1, Go(t));
    ReachesStep(s1, t);
    ReachesOn(s, t, s1, s');
    ReachesSound(s, t, s');
    WithTwice(s, t, op, stage, p, l, op', stage', p', l');
  }

  lemma {:induction false} Enters(s: State, t: nat, op: Op) returns (s': State)
    requires Sound(s) && At(s, t, op, Enter) && s.plock == None
    ensures s' == With(s, t, op, Loop, s.pipe, Some(t)) && Reaches(s, t, s') && Sound(s')
  {
    s' := Next(s, Go(t));
    ReachesStep(s, t);
    ReachesSound(s, t, s');
  }

  /** The step of wakeup that wakes. */
  lemma {:induction false} Notifies(s: State, s1: State, t: nat, op: Op, park: bool)
    requires Sound(s) && At(s, t, op, Notify(park)) && s.tlock == None && s1 == Next(s, Go(t))
    ensures var s2 := Next(s1, Go(t));
            && Waking(s, s2.(tlock := None), t, op, Notified(park), s.pipe, s.plock, op.Write? || op == Close(true))
            && s2.tlock == Some(t)
  {
    assert Key(0, s);
    var s2 := Next(s1, Go(t));
    assert s1.threads == s.threads[t := s.threads[t].(call := Active(op, Notifying(park)))];
    forall u | 0 <= u < |s.threads| && u != t
      ensures Roused(s.threads[u], s2.threads[u], op.Write? || op == Close(true))
    {
      assert CallOk(s.pipe, s.threads[u].call);
      assert s2.threads[u] == Woken(s1.threads[u], WakesReaders(op));
    }
  }

  /** The three steps of wakeup. */
  lemma {:induction false} Wakes(s: State, t: nat, op: Op, park: bool) returns (s': State)
    requires Sound(s) && At(s, t, op, Notify(park)) && s.tlock == None
    ensures Waking(s, s', t, op, if park then Doze else Leave(true), s.pipe, s.plock, op.Write? || op == Close(true))
    ensures Reaches(s, t, s')
  {
    var s1 := Next(s, Go(t));
    var s2 := Next(s1, Go(t));
    Notifies(s, s1, t, op, park);
    s' := Next(s2, Go(t));
    ReachesStep(s, t);
    ReachesStep(s1, t);
    ReachesStep(s2, t);
    ReachesOn(s, t, s1, s2);
    ReachesOn(s, t, s2, s');
  }

  /** The three steps of sleep, to the point where both locks are free. */
  lemma {:induction false} Sleeps(s: State, t: nat, op: Op) returns (s': State)
    requires At(s, t, op, Doze) && s.plock == Some(t) && s.tlock == None
    ensures s' == With(s, t, op, Asleep, s.pipe, None) && Reaches(s, t, s')
  {
    var th := s.threads[t];
    var s1 := s.(tlock := Some(t), threads := s.threads[t := th.(call := Active(op, Dozing))]);
    assert Next(s, Go(t)) == s1;
    var s2 := s1.(plock := None, threads := s1.threads[t := th.(call := Active(op, Dropping))]);
    assert Next(s1, Go(t)) == s2;
    assert s2.threads == s.threads[t := th.(call := Active(op, Dropping))];
    assert s2.threads[t := th.(call := Active(op, Asleep))] == s.threads[t := th.(call := Active(op, Asleep))];
    s' := Next(s2, Go(t));
    ReachesStep(s, t);
    ReachesStep(s1, t);
    ReachesStep(s2, t);
    ReachesOn(s, t, s1, s2);
    ReachesOn(s, t, s2, s');
  }

  /** wakeup at the end of a call that began in s. */
  lemma {:induction false} WakesAtLast(s: State, s1: State, t: nat, op: Op, p: Pipe) returns (s': State)
    requires t < |s.threads| && s.tlock == None && Reaches(s, t, s1)
    requires s1 == With(s, t, op, Notify(false), p, Some(t)) && Sound(s1)
    ensures Waking(s, s', t, op, Leave(true), p, Some(t), op.Write? || op == Close(true)) && Reaches(s, t, s')
  {
    s' := Wakes(s1, t, op, false);
    ReachesOn(s, t, s1, s');
    forall u | 0 <= u < |s.threads| && u != t ensures s1.threads[u] == s.threads[u] {
    }
  }

  /** wakeup and sleep of a pipewrite that began in s. */
  lemma {:induction false} WakesAndSleeps(s: State, s1: State, t: nat, op: Op, p: Pipe) returns (s': State)
    requires t < |s.threads| && s.tlock == None && op.Write? && Reaches(s, t, s1)
    requires s1 == With(s, t, op, Notify(true), p, Some(t)) && Sound(s1)
    ensures Waking(s, s', t, op, Asleep, p, None, true) && Reaches(s, t, s')
  {
    var s2 := Wakes(s1, t, op, true);
    s' := Sleeps(s2, t, op);
    ReachesOn(s, t, s1, s2);
    ReachesOn(s, t, s2, s');
    forall u | 0 <= u < |s.threads| && u != t ensures s1.threads[u] == s.threads[u] {
    }
  }

  /** The end of a call: the pipe's lock is free again. */
  lemma {:induction false} Leaves(s: State, t: nat, op: Op, ok: bool)
    requires At(s, t, op, Leave(ok))
    ensures Next(s, Go(t)) == s.(plock := None, threads := s.threads[t := s.threads[t].(call := Idle)])
  {
  }

  // ----- piperead -----

  /** p after the reader took `got` and left `rest`. */
  ghost predicate Took(p: Pipe, p': Pipe, got: seq<char>, rest: seq<char>) {
    p' == p.(ring := p'.ring, taken := p.taken + got) && Contents(p'.ring) == rest
  }

  lemma {:induction false} CopyOne(s: State, t: nat, n: int, got: seq<char>) returns (p': Pipe)
    requires Sound(s) && At(s, t, Read(n, got), Copy) && |got| < n && Contents(s.pipe.ring) != []
    ensures var bytes := Contents(s.pipe.ring);
            && Next(s, Go(t)) == With(s, t, Read(n, got + [bytes[0]]), Copy, p', s.plock)
            && Took(s.pipe, p', [bytes[0]], bytes[1..])
  {
    var p := s.pipe;
    SoundBytes(s);
    assert Key(0, s);
    ContentsAre(p.ring, p.stored, |p.taken|);
    DropTakes(p.ring, p.stored, |p.taken|);
    ContentsAre(Drop(p.ring), p.stored, |p.taken| + 1);
    p' := Next(s, Go(t)).pipe;
  }

  lemma {:induction false} TookOneMore(p: Pipe, p1: Pipe, p2: Pipe, bytes: seq<char>, k: nat)
    requires k < |bytes| && Took(p, p1, bytes[..k], bytes[k..]) && Took(p1, p2, [bytes[k]], bytes[k..][1..])
    ensures Took(p, p2, bytes[..k + 1], bytes[k + 1..])
  {
    assert bytes[..k] + [bytes[k]] == bytes[..k + 1] && bytes[k..][1..] == bytes[k + 1..];
    assert p.taken + bytes[..k] + [bytes[k]] == p.taken + bytes[..k + 1];
  }

  /** s' is where thread t, alone, has taken k bytes in the copying loop of the piperead it began in s. */
  ghost predicate Copied(s: State, s': State, t: nat, n: int, bytes: seq<char>, k: nat) {
    && t < |s.threads| && k <= |bytes| && Reaches(s, t, s') && Sound(s')
    && s' == With(s, t, Read(n, bytes[..k]), Copy, s'.pipe, Some(t))
    && Took(s.pipe, s'.pipe, bytes[..k], bytes[k..])
  }

  lemma {:induction false} CopiedOneMore(s: State, s1: State, t: nat, n: int, bytes: seq<char>, k: nat)
    returns (s': State)
    requires Sound(s) && Copied(s, s1, t, n, bytes, k) && k < |bytes| && k < n
    ensures Copied(s, s', t, n, bytes, k + 1)
  {
    var p' := CopyOne(s1, t, n, bytes[..k]);
    assert bytes[k..][0] == bytes[k] && bytes[..k] + [bytes[k]] == bytes[..k + 1];
    s' := Onward(s, s1, t, Read(n, bytes[..k]), Copy, s1.pipe, Some(t), Read(n, bytes[..k + 1]), Copy, p', Some(t));
    TookOneMore(s.pipe, s1.pipe, p', bytes, k);
  }

  /** How many of len bytes a piperead of n takes. */
  function Least(n: int, len: nat): (m: nat)
    ensures m <= len && (m == 0 || m <= n) && (m < len ==> m >= n)
  {
    if n <= 0 then 0 else if n < len then n else len
  }

  lemma {:induction false} Copies(s: State, s1: State, t: nat, n: int, bytes: seq<char>, k: nat) returns (s': State)
    requires Sound(s) && Copied(s, s1, t, n, bytes, 0) && k <= Least(n, |bytes|)
    ensures Copied(s, s', t, n, bytes, k)
  {
    s' := s1;
    if k > 0 {
      var s2 := Copies(s, s1, t, n, bytes, k - 1);
      s' := CopiedOneMore(s, s2, t, n, bytes, k - 1);
    }
  }

  lemma {:induction false} CopyEnds(s: State, t: nat, n: int, got: seq<char>)
    requires Sound(s) && At(s, t, Read(n, got), Copy) && (|got| >= n || Contents(s.pipe.ring) == [])
    ensures Next(s, Go(t)) == With(s, t, Read(n, got), Notify(false), s.pipe, s.plock)
  {
    SoundBytes(s);
  }

  lemma {:induction false} ReadStarts(s: State, t: nat, n: int) returns (s': State)
    requires Sound(s) && At(s, t, Read(n, []), Enter) && s.plock == None
    ensures s' == With(s, t, Read(n, []), if Contents(s.pipe.ring) != [] || !s.pipe.writeopen then Copy
                                          else if s.threads[t].killed then Leave(false)
                                          else Doze, s.pipe, Some(t))
    ensures Reaches(s, t, s') && Sound(s')
  {
    SoundBytes(s);
    var s1 := Enters(s, t, Read(n, []));
    var stage := if Contents(s.pipe.ring) != [] || !s.pipe.writeopen then Copy
                 else if s.threads[t].killed then Leave(false) else Doze;
    s' := Onward(s, s1, t, Read(n, []), Loop, s.pipe, Some(t), Read(n, []), stage, s.pipe, Some(t));
  }

  lemma {:induction false} ReadsOn(s: State, t: nat, n: int, bytes: seq<char>, m: nat) returns (s': State)
    requires Sound(s) && At(s, t, Read(n, []), Enter) && s.plock == None
    requires bytes == Contents(s.pipe.ring) && m == Least(n, |bytes|)
    requires bytes != [] || !s.pipe.writeopen
    ensures s' == With(s, t, Read(n, bytes[..m]), Notify(false), s'.pipe, Some(t))
    ensures Reaches(s, t, s') && Sound(s') && Took(s.pipe, s'.pipe, bytes[..m], bytes[m..])
  {
    var s1 := ReadStarts(s, t, n);
    assert Copied(s, s1, t, n, bytes, 0) by {
      assert bytes[..0] == [] && bytes[0..] == bytes;
      assert s.pipe.taken + bytes[..0] == s.pipe.taken;
    }
    var s2 := Copies(s, s1, t, n, bytes, m);
    CopyEnds(s2, t, n, bytes[..m]);
    s' := Onward(s, s2, t, Read(n, bytes[..m]), Copy, s2.pipe, Some(t),
                 Read(n, bytes[..m]), Notify(false), s2.pipe, Some(t));
  }

  /** piperead with something to read, or with the write end closed: it returns the oldest bytes, n of
      them or all there are, leaves the others in order, and has woken the writers. */
  lemma {:induction false} CallRead(s: State, t: nat, n: int) returns (s': State)
    requires Sound(s) && At(s, t, Read(n, []), Enter) && s.plock == None && s.tlock == None
    requires Contents(s.pipe.ring) != [] || !s.pipe.writeopen
    ensures Reaches(s, t, s')
    ensures var bytes := Contents(s.pipe.ring); var m := Least(n, |bytes|);
            && Waking(s, s', t, Read(n, bytes[..m]), Leave(true), s'.pipe, Some(t), false)
            && Took(s.pipe, s'.pipe, bytes[..m], bytes[m..])
  {
    var bytes := Contents(s.pipe.ring);
    var m := Least(n, |bytes|);
    var s1 := ReadsOn(s, t, n, bytes, m);
    s' := WakesAtLast(s, s1, t, Read(n, bytes[..m]), s1.pipe);
  }

  /** piperead of an empty pipe that can still be written: it sleeps with both locks free, or fails if
      the process was killed, and changes nothing else. */
  lemma {:induction false} CallReadEmpty(s: State, t: nat, n: int) returns (s': State)
    requires Sound(s) && At(s, t, Read(n, []), Enter) && s.plock == None && s.tlock == None
    requires Contents(s.pipe.ring) == [] && s.pipe.writeopen
    ensures Reaches(s, t, s')
    ensures s.threads[t].killed ==> s' == With(s, t, Read(n, []), Leave(false), s.pipe, Some(t))
    ensures !s.threads[t].killed ==> s' == With(s, t, Read(n, []), Asleep, s.pipe, None)
  {
    s' := ReadStarts(s, t, n);
    if !s.threads[t].killed {
      var s1 := s';
      s' := Sleeps(s1, t, Read(n, []));
      ReachesOn(s, t, s1, s');
      WithTwice(s, t, Read(n, []), Doze, s.pipe, Some(t), Read(n, []), Asleep, s.pipe, None);
    }
  }

  // ----- pipewrite -----

  /** p after thread t stored src behind the bytes that were there. */
  ghost predicate Added(p: Pipe, p': Pipe, src: seq<char>, t: nat) {
    && p' == p.(ring := p'.ring, stored := p.stored + src, donor := p.donor + seq(|src|, _ => t))
    && Contents(p'.ring) == Contents(p.ring) + src
  }

  lemma {:induction false} StoreOne(s: State, t: nat, src: seq<char>, i: nat) returns (p': Pipe)
    requires Sound(s) && At(s, t, Write(src, i), Loop) && i < |src| && |Contents(s.pipe.ring)| < PIPESIZE
    ensures Next(s, Go(t)) == With(s, t, Write(src, i + 1), Loop, p', s.plock) && Added(s.pipe, p', [src[i]], t)
  {
    var p := s.pipe;
    SoundBytes(s);
    assert Key(0, s);
    ContentsAre(p.ring, p.stored, |p.taken|);
    PutStores(p.ring, p.stored, |p.taken|, src[i]);
    ContentsAre(Put(p.ring, src[i]), p.stored + [src[i]], |p.taken|);
    assert (p.stored + [src[i]])[|p.taken|..] == p.stored[|p.taken|..] + [src[i]];
    assert seq(1, _ => t) == [t];
    p' := Next(s, Go(t)).pipe;
  }

  lemma {:induction false} AddedOneMore(p: Pipe, p1: Pipe, p2: Pipe, src: seq<char>, i: nat, j: nat, t: nat)
    requires i <= j < |src| && Added(p, p1, src[i..j], t) && Added(p1, p2, [src[j]], t)
    ensures Added(p, p2, src[i..j + 1], t)
  {
    var a, b, c := src[i..j], [src[j]], src[i..j + 1];
    assert a + b == c;
    assert p.stored + a + b == p.stored + c && Contents(p.ring) + a + b == Contents(p.ring) + c;
    var da, db, dc := seq(|a|, _ => t), seq(|b|, _ => t), seq(|c|, _ => t);
    assert da + db == dc;
    assert p.donor + da + db == p.donor + dc;
  }

  lemma {:induction false} AddedNone(p: Pipe, src: seq<char>, i: nat, t: nat)
    requires i <= |src|
    ensures Added(p, p, src[i..i], t)
  {
    var none, no := src[i..i], seq(0, _ => t);
    assert none == [] && no == [];
    assert p.stored + none == p.stored && p.donor + no == p.donor;
    assert Contents(p.ring) + none == Contents(p.ring);
  }

  /** s' is where thread t, alone, is at the loop test of the pipewrite it began in s, having stored
      src[i..j]. */
  ghost predicate Stored(s: State, s': State, t: nat, src: seq<char>, i: nat, j: nat) {
    && t < |s.threads| && i <= j <= |src| && Reaches(s, t, s') && Sound(s')
    && s' == With(s, t, Write(src, j), Loop, s'.pipe, Some(t))
    && Added(s.pipe, s'.pipe, src[i..j], t)
  }

  lemma {:induction false} StoredOneMore(s: State, s1: State, t: nat, src: seq<char>, i: nat, j: nat)
    returns (s': State)
    requires Sound(s) && Stored(s, s1, t, src, i, j) && j < |src| && |Contents(s.pipe.ring)| + j - i < PIPESIZE
    ensures Stored(s, s', t, src, i, j + 1)
  {
    var p' := StoreOne(s1, t, src, j);
    s' := Onward(s, s1, t, Write(src, j), Loop, s1.pipe, Some(t), Write(src, j + 1), Loop, p', Some(t));
    AddedOneMore(s.pipe, s1.pipe, p', src, i, j, t);
  }

  lemma {:induction false} Stores(s: State, t: nat, src: seq<char>, i: nat, j: nat) returns (s': State)
    requires Sound(s) && At(s, t, Write(src, i), Enter) && s.plock == None
    requires i <= j <= |src| && |Contents(s.pipe.ring)| + j - i <= PIPESIZE
    ensures Stored(s, s', t, src, i, j)
    decreases j
  {
    if j == i {
      s' := Enters(s, t, Write(src, i));
      AddedNone(s.pipe, src, i, t);
    } else {
      var s1 := Stores(s, t, src, i, j - 1);
      s' := StoredOneMore(s, s1, t, src, i, j - 1);
    }
  }

  lemma {:induction false} WriteEnds(s: State, t: nat, src: seq<char>)
    requires At(s, t, Write(src, |src|), Loop)
    ensures Next(s, Go(t)) == With(s, t, Write(src, |src|), Notify(false), s.pipe, s.plock)
  {
  }

  /** pipewrite with room for the bytes it still has: it stores them all behind what is there, has woken
      the readers, and succeeds. */
  lemma {:induction false} CallWrite(s: State, t: nat, src: seq<char>, i: nat) returns (s': State)
    requires Sound(s) && At(s, t, Write(src, i), Enter) && s.plock == None && s.tlock == None
    requires i <= |src| && |Contents(s.pipe.ring)| + |src| - i <= PIPESIZE
    ensures Reaches(s, t, s') && Added(s.pipe, s'.pipe, src[i..], t)
    ensures Waking(s, s', t, Write(src, |src|), Leave(true), s'.pipe, Some(t), true)
  {
    var op, j := Write(src, |src|), |src|;
    var s1 := Stores(s, t, src, i, j);
    assert src[i..j] == src[i..];
    WriteEnds(s1, t, src);
    var s2 := Onward(s, s1, t, op, Loop, s1.pipe, Some(t), op, Notify(false), s1.pipe, Some(t));
    s' := WakesAtLast(s, s2, t, op, s1.pipe);
  }

  lemma {:induction false} WriteFills(s: State, t: nat, src: seq<char>, i: nat, j: nat) returns (s': State)
    requires Sound(s) && At(s, t, Write(src, i), Enter) && s.plock == None
    requires i <= j < |src| && |Contents(s.pipe.ring)| + j - i == PIPESIZE
    ensures s' == With(s, t, Write(src, j),
                       if !s.pipe.readopen || s.threads[t].killed then Leave(false) else Notify(true), s'.pipe, Some(t))
    ensures Reaches(s, t, s') && Sound(s') && Added(s.pipe, s'.pipe, src[i..j], t)
  {
    var s1 := Stores(s, t, src, i, j);
    SoundBytes(s1);
    var stage := if !s.pipe.readopen || s.threads[t].killed then Leave(false) else Notify(true);
    s' := Onward(s, s1, t, Write(src, j), Loop, s1.pipe, Some(t), Write(src, j), stage, s1.pipe, Some(t));
  }

  /** pipewrite with more bytes than room when the read end is closed or the process was killed: it fills
      the pipe and fails, waking nobody. */
  lemma {:induction false} CallWriteFails(s: State, t: nat, src: seq<char>, i: nat, j: nat) returns (s': State)
    requires Sound(s) && At(s, t, Write(src, i), Enter) && s.plock == None && s.tlock == None
    requires i <= j < |src| && |Contents(s.pipe.ring)| + j - i == PIPESIZE
    requires !s.pipe.readopen || s.threads[t].killed
    ensures Reaches(s, t, s') && s' == With(s, t, Write(src, j), Leave(false), s'.pipe, Some(t))
    ensures Added(s.pipe, s'.pipe, src[i..j], t)
  {
    s' := WriteFills(s, t, src, i, j);
  }

  /** Otherwise it fills the pipe, wakes the readers and sleeps with both locks free. */
  lemma {:induction false} CallWriteWaits(s: State, t: nat, src: seq<char>, i: nat, j: nat) returns (s': State)
    requires Sound(s) && At(s, t, Write(src, i), Enter) && s.plock == None && s.tlock == None
    requires i <= j < |src| && |Contents(s.pipe.ring)| + j - i == PIPESIZE
    requires s.pipe.readopen && !s.threads[t].killed
    ensures Reaches(s, t, s') && Added(s.pipe, s'.pipe, src[i..j], t)
    ensures Waking(s, s', t, Write(src, j), Asleep, s'.pipe, None, true)
  {
    var s1 := WriteFills(s, t, src, i, j);
    s' := WakesAndSleeps(s, s1, t, Write(src, j), s1.pipe);
  }

  // ----- pipeclose -----

  /** pipeclose marks its end closed, touches nothing else of the pipe, and wakes who waits for it. */
  lemma {:induction false} CallClose(s: State, t: nat, w: bool) returns (s': State)
    requires Sound(s) && At(s, t, Close(w), Enter) && s.plock == None && s.tlock == None
    ensures Reaches(s, t, s')
    ensures Waking(s, s', t, Close(w), Leave(true),
                   if w then s.pipe.(writeopen := false) else s.pipe.(readopen := false), Some(t), w)
  {
    var s1 := Enters(s, t, Close(w));
    var p := if w then s.pipe.(writeopen := false) else s.pipe.(readopen := false);
    var s2 := Onward(s, s1, t, Close(w), Loop, s.pipe, Some(t), Close(w), Notify(false), p, Some(t));
    s' := WakesAtLast(s, s2, t, Close(w), p);
  }
}
