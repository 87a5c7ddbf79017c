/** pipewrite, piperead and pipeclose (pipe.c) run by any number of threads, interleaved one step at
    a time, with the pipe's lock, ptable.lock and the sleep and wakeup of proc.c spelled out. */
module PipeProtocol {
  import opened Options
  import opened PipeRing

  /** A call in progress: pipewrite of src with src[..i] stored, piperead of at most n bytes with got
      already copied out, or pipeclose of one end. */
  datatype Op =
    | Write(src: seq<char>, i: nat)
    | Read(n: int, got: seq<char>)
    | Close(writable: bool)

  /** Where the call stands. Notify to Notified are the three steps of wakeup, before sleeping (park)
      or before leaving; Doze to Asleep are the steps of sleep. A woken thread is back at Enter, where
      it takes the pipe's lock again. */
  datatype Stage =
    | Enter
    | Loop
    | Copy
    | Notify(park: bool)
    | Notifying(park: bool)
    | Notified(park: bool)
    | Doze
    | Dozing
    | Dropping
    | Asleep
    | Leave(ok: bool)

  datatype Call = Idle | Active(op: Op, stage: Stage)

  /** since is how many bytes had been stored when the call began. */
  datatype Thread = Thread(killed: bool, call: Call, since: nat)

  /** What the pipe's lock protects. stored and taken are the bytes that ever went into and came out of
      the buffer, and donor says which thread stored each byte. */
  datatype Pipe = Pipe(ring: Ring, readopen: bool, writeopen: bool,
                       stored: seq<char>, taken: seq<char>, donor: seq<nat>)

  /** plock and tlock name the threads inside the pipe's lock and ptable.lock. */
  datatype State = State(pipe: Pipe, plock: Option<nat>, tlock: Option<nat>, threads: seq<Thread>)

  datatype Step = Begin(t: nat, op: Op) | Go(t: nat) | Kill(t: nat)

  function Start(n: nat): State {
    State(Pipe(Empty, true, true, [], [], []), None, None, seq(n, _ => Thread(false, Idle, 0)))
  }

  // ----- steps -----

  predicate UsesEnd(c: Call, writable: bool) {
    c.Active? && match c.op
                 case Write(_, _) => writable
                 case Read(_, _) => !writable
                 case Close(w) => w == writable
  }

  ghost predicate NoneUses(threads: seq<Thread>, writable: bool) {
    forall u | 0 <= u < |threads| :: !UsesEnd(threads[u].call, writable)
  }

  ghost predicate NoneCloses(threads: seq<Thread>, writable: bool) {
    forall u | 0 <= u < |threads| :: !(threads[u].call.Active? && threads[u].call.op == Close(writable))
  }

  /** A thread calls pipewrite or piperead through a descriptor of an end that is open and not being
      closed; pipeclose runs when the last descriptor of its end goes away, so no call uses it. */
  ghost predicate MayBegin(s: State, op: Op) {
    match op
    case Write(_, i) => i == 0 && s.pipe.writeopen && NoneCloses(s.threads, true)
    case Read(_, got) => got == [] && s.pipe.readopen && NoneCloses(s.threads, false)
    case Close(w) => IsOpen(s.pipe, w) && NoneUses(s.threads, w)
  }

  predicate IsOpen(p: Pipe, writable: bool) {
    if writable then p.writeopen else p.readopen
  }

  /** Readers sleep on &p->nread, writers on &p->nwrite. */
  predicate WakesReaders(op: Op) {
    op.Write? || op == Close(true)
  }

  function Woken(th: Thread, readers: bool): Thread {
    if th.call.Active? && th.call.stage == Asleep && th.call.op.Read? == readers
    then th.(call := Active(th.call.op, Enter))
    else th
  }

  /** wakeup1 on one of the two channels. */
  function WakeAll(threads: seq<Thread>, readers: bool): (woken: seq<Thread>)
    ensures |woken| == |threads|
    ensures forall u | 0 <= u < |threads| :: woken[u] == Woken(threads[u], readers)
  {
    seq(|threads|, u requires 0 <= u < |threads| => Woken(threads[u], readers))
  }

  /** pipewrite at its loop test. */
  function WriteLoop(p: Pipe, killed: bool, src: seq<char>, i: nat, t: nat): (Pipe, Call) {
    if i >= |src| then (p, Active(Write(src, i), Notify(false)))
    else if !IsFull(p.ring) then
      (p.(ring := Put(p.ring, src[i]), stored := p.stored + [src[i]], donor := p.donor + [t]),
       Active(Write(src, i + 1), Loop))
    else if !p.readopen || killed then (p, Active(Write(src, i), Leave(false)))
    else (p, Active(Write(src, i), Notify(true)))
  }

  /** piperead at its waiting loop. */
  function ReadLoop(p: Pipe, killed: bool, op: Op): Call {
    if IsEmpty(p.ring) && p.writeopen then Active(op, if killed then Leave(false) else Doze)
    else Active(op, Copy)
  }

  /** piperead at its copying loop. */
  function ReadCopy(p: Pipe, n: int, got: seq<char>): (Pipe, Call) {
    if |got| >= n || IsEmpty(p.ring) then (p, Active(Read(n, got), Notify(false)))
    else
      var c := Front(p.ring);
      (p.(ring := Drop(p.ring), taken := p.taken + [c]), Active(Read(n, got + [c]), Copy))
  }

  function CloseEnd(p: Pipe, w: bool): Pipe {
    if w then p.(writeopen := false) else p.(readopen := false)
  }

  /** The pipe and the thread's call after a step taken inside the pipe's lock. */
  function Inside(p: Pipe, killed: bool, op: Op, stage: Stage, t: nat): (Pipe, Call) {
    match stage
    case Loop => (
      match op
      case Write(src, i) => WriteLoop(p, killed, src, i, t)
      case Read(_, _) => (p, ReadLoop(p, killed, op))
      case Close(w) => (CloseEnd(p, w), Active(op, Notify(false))))
    case Copy => if op.Read? then ReadCopy(p, op.n, op.got) else (p, Active(op, stage))
    case _ => (p, Active(op, stage))
  }

  /** The stage after a step of locking, waking or sleeping. */
  function NextStage(stage: Stage): Stage {
    match stage
    case Enter => Loop
    case Notify(park) => Notifying(park)
    case Notifying(park) => Notified(park)
    case Notified(park) => if park then Doze else Leave(true)
    case Doze => Dozing
    case Dozing => Dropping
    case Dropping => Asleep
    case _ => stage
  }

  /** A step that takes a lock waits until it is free; a sleeper does not move. */
  predicate Blocked(s: State, stage: Stage) {
    (stage.Enter? && s.plock != None) || ((stage.Notify? || stage.Doze?) && s.tlock != None) || stage.Asleep?
  }

  /** One step of thread t inside its call. */
  function Advance(s: State, t: nat): State
    requires t < |s.threads| && s.threads[t].call.Active?
  {
    var th := s.threads[t];
    var op, stage := th.call.op, th.call.stage;
    if Blocked(s, stage) then s
    else if stage.Loop? || stage.Copy? then
      var (p, c) := Inside(s.pipe, th.killed, op, stage, t);
      s.(pipe := p, threads := s.threads[t := th.(call := c)])
    else
      var plock := if stage.Enter? then Some(t) else if stage.Dozing? || stage.Leave? then None else s.plock;
      var tlock := if stage.Notify? || stage.Doze? then Some(t)
                   else if stage.Notified? || stage.Dropping? then None else s.tlock;
      var threads := if stage.Notifying? then WakeAll(s.threads, WakesReaders(op)) else s.threads;
      var c := if stage.Leave? then Idle else Active(op, NextStage(stage));
      State(s.pipe, plock, tlock, threads[t := th.(call := c)])
  }

  /** kill marks the process and, under ptable.lock, makes it runnable if it sleeps. */
  function Killed(th: Thread): Thread {
    Thread(true, if th.call.Active? && th.call.stage == Asleep then Active(th.call.op, Enter) else th.call, th.since)
  }

  ghost function Next(s: State, step: Step): State {
    if step.t >= |s.threads| then s else
    match step
    case Begin(t, op) =>
      if s.threads[t].call == Idle && MayBegin(s, op)
      then s.(threads := s.threads[t := Thread(s.threads[t].killed, Active(op, Enter), |s.pipe.stored|)]) else s
    case Go(t) => if s.threads[t].call.Active? then Advance(s, t) else s
    case Kill(t) =>
      if s.tlock == None then s.(threads := s.threads[t := Killed(s.threads[t])]) else s
  }

  ghost function Run(n: nat, steps: seq<Step>): State {
    if steps == [] then Start(n) else Next(Run(n, steps[..|steps| - 1]), steps[|steps| - 1])
  }

  // ----- what every step keeps -----

  predicate InPipeLock(c: Call) {
    c.Active? && !c.stage.Enter? && !c.stage.Dropping? && !c.stage.Asleep?
  }

  predicate InTableLock(c: Call) {
    c.Active? && (c.stage.Notifying? || c.stage.Notified? || c.stage.Dozing? || c.stage.Dropping?)
  }

  predicate Parks(st: Stage) {
    st.Doze? || st.Dozing? || st.Dropping? || st.Asleep?
  }

  /** A writer that has found the pipe full and will sleep, or does. */
  predicate WriterWaits(c: Call) {
    c.Active? && c.op.Write? &&
    (Parks(c.stage) || c.stage == Notify(true) || c.stage == Notifying(true) || c.stage == Notified(true))
  }

  /** A writer past its wakeup of the readers. */
  predicate WriterDown(c: Call) {
    c.Active? && c.op.Write? && (Parks(c.stage) || c.stage == Notified(true))
  }

  predicate ReaderDown(c: Call) {
    c.Active? && c.op.Read? && Parks(c.stage)
  }

  /** The call in c will wake the sleeping writers before it releases the pipe's lock. */
  predicate OwesWriters(c: Call) {
    c.Active? && ((c.op.Read? && (c.stage.Copy? || c.stage.Notify? || c.stage.Notifying?))
                  || (c.op == Close(false) && (c.stage.Notify? || c.stage.Notifying?)))
  }

  /** The call in c will wake the sleeping readers before it releases the pipe's lock, unless it is a
      writer that gives up. */
  predicate OwesReaders(c: Call) {
    c.Active? && ((c.op.Write? && (c.stage.Loop? || c.stage.Notify? || c.stage.Notifying?))
                  || (c.op == Close(true) && (c.stage.Notify? || c.stage.Notifying?)))
  }

  predicate FullOpen(p: Pipe) {
    IsFull(p.ring) && p.readopen
  }

  predicate EmptyOpen(p: Pipe) {
    IsEmpty(p.ring) && p.writeopen
  }

  predicate Owed(s: State, readers: bool) {
    && s.plock.Some? && s.plock.value < |s.threads|
    && var c := s.threads[s.plock.value].call; if readers then OwesReaders(c) else OwesWriters(c)
  }

  ghost predicate NoReaderDown(threads: seq<Thread>) {
    forall u | 0 <= u < |threads| :: !ReaderDown(threads[u].call)
  }

  /** On the way out with success. */
  predicate Returns(st: Stage) {
    st == Notify(false) || st == Notifying(false) || st == Notified(false) || st == Leave(true)
  }

  /** Which stages each call can be in, and what it knows there. */
  predicate CallOk(p: Pipe, c: Call) {
    c.Active? ==>
      match c.op
      case Write(src, i) =>
        && p.writeopen && i <= |src| && !c.stage.Copy? && (WriterWaits(c) ==> i < |src|)
        && (Returns(c.stage) ==> i == |src|)
      case Read(n, got) =>
        && p.readopen
        && c.stage != Notify(true) && c.stage != Notifying(true) && c.stage != Notified(true)
        && (|got| <= n || got == [])
        && (c.stage.Enter? || c.stage.Loop? || Parks(c.stage) ==> got == [])
        && |got| <= |p.taken|
        && (InPipeLock(c) ==> got == p.taken[|p.taken| - |got|..])
      case Close(w) =>
        && !Parks(c.stage) && !c.stage.Copy? && c.stage != Leave(false)
        && c.stage != Notify(true) && c.stage != Notifying(true) && c.stage != Notified(true)
        && (IsOpen(p, w) <==> c.stage.Enter? || c.stage.Loop?)
  }

  ghost predicate Alone(threads: seq<Thread>, t: nat, writable: bool) {
    forall u | 0 <= u < |threads| && u != t :: !UsesEnd(threads[u].call, writable)
  }

  ghost predicate Locks(s: State) {
    && (s.plock.Some? ==> s.plock.value < |s.threads|)
    && (s.tlock.Some? ==> s.tlock.value < |s.threads|)
    && (forall t | 0 <= t < |s.threads| :: InPipeLock(s.threads[t].call) <==> s.plock == Some(t))
    && (forall t | 0 <= t < |s.threads| :: InTableLock(s.threads[t].call) <==> s.tlock == Some(t))
  }

  ghost predicate Bytes(p: Pipe) {
    && |p.taken| <= |p.stored| && p.taken == p.stored[..|p.taken|]
    && Holds(p.ring, p.stored, |p.taken|)
  }

  ghost predicate Calls(s: State) {
    && (forall t | 0 <= t < |s.threads| :: CallOk(s.pipe, s.threads[t].call))
    && (forall t | 0 <= t < |s.threads| && s.threads[t].call.Active? && s.threads[t].call.op.Close? ::
          Alone(s.threads, t, s.threads[t].call.op.writable))
  }

  /** The bytes that thread t stored, from number k on. */
  function StoredBy(stored: seq<char>, donor: seq<nat>, k: nat, t: nat): seq<char>
    requires |donor| == |stored|
  {
    if |stored| <= k then []
    else
      var n := |stored| - 1;
      StoredBy(stored[..n], donor[..n], k, t) + (if donor[n] == t then [stored[n]] else [])
  }

  /** A writer has stored exactly the bytes it counts as written. */
  ghost predicate WriterOk(p: Pipe, th: Thread, t: nat)
    requires |p.donor| == |p.stored|
  {
    th.call.Active? && th.call.op.Write? ==>
      && th.since <= |p.stored| && th.call.op.i <= |th.call.op.src|
      && StoredBy(p.stored, p.donor, th.since, t) == th.call.op.src[..th.call.op.i]
  }

  ghost predicate Writers(s: State) {
    && |s.pipe.donor| == |s.pipe.stored|
    && forall t | 0 <= t < |s.threads| :: WriterOk(s.pipe, s.threads[t], t)
  }

  ghost predicate Waits(s: State) {
    && (forall t | 0 <= t < |s.threads| && WriterWaits(s.threads[t].call) ::
          FullOpen(s.pipe) || Owed(s, false))
    && (forall t | 0 <= t < |s.threads| && WriterDown(s.threads[t].call) :: NoReaderDown(s.threads))
  }

  ghost predicate Invariant(s: State) {
    Locks(s) && Bytes(s.pipe) && Calls(s) && Waits(s) && Writers(s)
  }

  /** A reader that sleeps, or is about to, faces an empty pipe with a writer's end open, unless the
      thread inside the lock is about to wake it. */
  ghost predicate Alert(s: State) {
    forall t | 0 <= t < |s.threads| && ReaderDown(s.threads[t].call) ::
      EmptyOpen(s.pipe) || Owed(s, true)
  }

  // ----- one step of one thread -----

  /** The other threads keep their calls, but for sleepers that the step wakes. */
  ghost predicate OthersWoken(s: State, s': State, t: nat) {
    && |s'.threads| == |s.threads|
    && forall u {:trigger s'.threads[u]} | 0 <= u < |s.threads| && u != t ::
         s'.threads[u] == s.threads[u] || s'.threads[u] == Woken(s.threads[u], true)
         || s'.threads[u] == Woken(s.threads[u], false)
  }

  lemma {:induction false} AdvanceOthers(s: State, t: nat)
    requires t < |s.threads| && s.threads[t].call.Active?
    ensures OthersWoken(s, Advance(s, t), t)
    ensures !s.threads[t].call.stage.Notifying? ==>
              forall u {:trigger Advance(s, t).threads[u]} | 0 <= u < |s.threads| && u != t ::
                Advance(s, t).threads[u] == s.threads[u]
  {
  }

  /** A lock that t's step changes was free or t's own, and is free or t's own afterwards. */
  predicate OwnLock(l: Option<nat>, l': Option<nat>, t: nat) {
    l' == l || ((l == None || l == Some(t)) && (l' == None || l' == Some(t)))
  }

  lemma {:induction false} AdvanceLocks(s: State, t: nat)
    requires t < |s.threads| && s.threads[t].call.Active?
    requires InPipeLock(s.threads[t].call) <==> s.plock == Some(t)
    requires InTableLock(s.threads[t].call) <==> s.tlock == Some(t)
    ensures InPipeLock(Advance(s, t).threads[t].call) <==> Advance(s, t).plock == Some(t)
    ensures InTableLock(Advance(s, t).threads[t].call) <==> Advance(s, t).tlock == Some(t)
    ensures OwnLock(s.plock, Advance(s, t).plock, t) && OwnLock(s.tlock, Advance(s, t).tlock, t)
  {
  }

  lemma {:induction false} LocksKept(s: State, t: nat)
    requires Locks(s) && t < |s.threads| && s.threads[t].call.Active?
    ensures Locks(Advance(s, t))
  {
    var s' := Advance(s, t);
    AdvanceLocks(s, t);
    AdvanceOthers(s, t);
    forall u | 0 <= u < |s'.threads|
      ensures InPipeLock(s'.threads[u].call) <==> s'.plock == Some(u)
      ensures InTableLock(s'.threads[u].call) <==> s'.tlock == Some(u)
    {
      if u != t {
        assert InPipeLock(s.threads[u].call) <==> s.plock == Some(u);
        assert InTableLock(s.threads[u].call) <==> s.tlock == Some(u);
      }
    }
  }

  lemma {:induction false} BytesKept(p: Pipe, killed: bool, op: Op, stage: Stage, t: nat)
    requires Bytes(p)
    ensures Bytes(Inside(p, killed, op, stage, t).0)
  {
    if op.Write? && stage.Loop? && op.i < |op.src| && !IsFull(p.ring) {
      PutStores(p.ring, p.stored, |p.taken|, op.src[op.i]);
    }
    if op.Read? && stage.Copy? && !IsEmpty(p.ring) {
      DropTakes(p.ring, p.stored, |p.taken|);
    }
  }

  lemma {:induction false} CallInside(p: Pipe, killed: bool, op: Op, stage: Stage, t: nat)
    requires CallOk(p, Active(op, stage))
    ensures CallOk(Inside(p, killed, op, stage, t).0, Inside(p, killed, op, stage, t).1)
  {
  }

  lemma {:induction false} CallOutside(p: Pipe, op: Op, stage: Stage)
    requires CallOk(p, Active(op, stage))
    ensures CallOk(p, Active(op, NextStage(stage)))
  {
  }

  lemma {:induction false} OtherCallKept(p: Pipe, killed: bool, op: Op, stage: Stage, t: nat, c: Call)
    requires CallOk(p, c) && !InPipeLock(c)
    requires op.Close? && stage.Loop? ==> !UsesEnd(c, op.writable)
    ensures CallOk(Inside(p, killed, op, stage, t).0, c)
  {
  }

  lemma {:induction false} CallsKept(s: State, t: nat)
    requires Locks(s) && Calls(s) && t < |s.threads| && s.threads[t].call.Active?
    ensures Calls(Advance(s, t))
  {
    var s', th := Advance(s, t), s.threads[t];
    AdvanceOthers(s, t);
    CallInside(s.pipe, th.killed, th.call.op, th.call.stage, t);
    CallOutside(s.pipe, th.call.op, th.call.stage);
    forall u | 0 <= u < |s'.threads| ensures CallOk(s'.pipe, s'.threads[u].call) {
      if u != t {
        var c := s.threads[u].call;
        if th.call.stage.Loop? || th.call.stage.Copy? {
          OtherCallKept(s.pipe, th.killed, th.call.op, th.call.stage, t, c);
        }
      }
    }
    forall u | 0 <= u < |s'.threads| && s'.threads[u].call.Active? && s'.threads[u].call.op.Close?
      ensures Alone(s'.threads, u, s'.threads[u].call.op.writable)
    {
      var w := s'.threads[u].call.op.writable;
      SameKind(s, t, u);
      assert Alone(s.threads, u, w);
      forall v | 0 <= v < |s'.threads| && v != u ensures !UsesEnd(s'.threads[v].call, w) {
        SameKind(s, t, v);
      }
    }
  }

  lemma {:induction false} SameKind(s: State, t: nat, u: nat)
    requires t < |s.threads| && s.threads[t].call.Active? && u < |s.threads|
    ensures |Advance(s, t).threads| == |s.threads|
    ensures var c, c' := s.threads[u].call, Advance(s, t).threads[u].call;
            && (c'.Active? ==> c.Active? && (c'.op.Close? ==> c.op == c'.op))
            && (UsesEnd(c', true) ==> UsesEnd(c, true)) && (UsesEnd(c', false) ==> UsesEnd(c, false))
  {
  }

  lemma {:induction false} NotBoth(p: Pipe)
    requires Bytes(p)
    ensures !(IsFull(p.ring) && IsEmpty(p.ring))
  {
    FullAndEmpty(p.ring, p.stored, |p.taken|);
  }

  /** After wakeup inside both locks nobody is left on, or on the way to, the channel. */
  lemma {:induction false} NoneLeft(s: State, t: nat, u: nat)
    requires Locks(s) && t < |s.threads| && u < |s.threads| && u != t
    requires s.threads[t].call.Active? && s.threads[t].call.stage.Notifying?
    ensures WakesReaders(s.threads[t].call.op) ==> !ReaderDown(Advance(s, t).threads[u].call)
    ensures !WakesReaders(s.threads[t].call.op) ==> !WriterWaits(Advance(s, t).threads[u].call)
  {
    assert InPipeLock(s.threads[t].call) && InTableLock(s.threads[t].call);
    assert !InPipeLock(s.threads[u].call) && !InTableLock(s.threads[u].call);
  }

  /** What a step inside the lock does to the promise made to waiting writers. */
  lemma {:induction false} InsideForWriters(p: Pipe, killed: bool, op: Op, stage: Stage, t: nat)
    requires Bytes(p)
    requires FullOpen(p) || OwesWriters(Active(op, stage))
    ensures var (p', c') := Inside(p, killed, op, stage, t); FullOpen(p') || OwesWriters(c')
    ensures var (p', c') := Inside(p, killed, op, stage, t); !ReaderDown(c') || ReaderDown(Active(op, stage))
  {
    NotBoth(p);
  }

  lemma {:induction false} WriterWaitsKept(s: State, t: nat, u: nat)
    requires Locks(s) && Bytes(s.pipe) && t < |s.threads| && u < |s.threads|
    requires s.threads[t].call.Active? && WriterWaits(Advance(s, t).threads[u].call)
    requires WriterWaits(s.threads[u].call) ==> FullOpen(s.pipe) || Owed(s, false)
    ensures FullOpen(Advance(s, t).pipe) || Owed(Advance(s, t), false)
  {
    var th := s.threads[t];
    AdvanceLocks(s, t);
    if th.call.stage.Loop? || th.call.stage.Copy? {
      if u != t { InsideForWriters(s.pipe, th.killed, th.call.op, th.call.stage, t); }
    } else if u != t && th.call.stage.Notifying? {
      NoneLeft(s, t, u);
    } else {
      assert InPipeLock(th.call) <==> s.plock == Some(t);
    }
  }

  lemma {:induction false} NoNewReaderDown(s: State, t: nat, u: nat)
    requires Locks(s) && Bytes(s.pipe) && t < |s.threads| && u < |s.threads| && s.threads[t].call.Active?
    requires CallOk(s.pipe, s.threads[t].call) && !ReaderDown(s.threads[u].call)
    requires FullOpen(s.pipe) || Owed(s, false)
    ensures !ReaderDown(Advance(s, t).threads[u].call)
  {
    var th := s.threads[t];
    if u == t && (th.call.stage.Loop? || th.call.stage.Copy?) {
      assert InPipeLock(th.call);
      InsideForWriters(s.pipe, th.killed, th.call.op, th.call.stage, t);
    }
  }

  lemma {:induction false} NoReaderDownKept(s: State, t: nat, w: nat)
    requires Invariant(s)
    requires t < |s.threads| && w < |s.threads|
    requires s.threads[t].call.Active? && WriterDown(Advance(s, t).threads[w].call)
    ensures NoReaderDown(Advance(s, t).threads)
  {
    var s' := Advance(s, t);
    if w == t && s.threads[t].call.stage.Notifying? {
      forall u | 0 <= u < |s'.threads| ensures !ReaderDown(s'.threads[u].call) {
        if u != t { NoneLeft(s, t, u); }
      }
    } else {
      assert WriterDown(s.threads[w].call) && WriterWaits(s.threads[w].call);
      forall u | 0 <= u < |s'.threads| ensures !ReaderDown(s'.threads[u].call) {
        assert !ReaderDown(s.threads[u].call);
        NoNewReaderDown(s, t, u);
      }
    }
  }

  lemma {:induction false} WaitsKept(s: State, t: nat)
    requires Invariant(s) && t < |s.threads| && s.threads[t].call.Active?
    ensures Waits(Advance(s, t))
  {
    var s' := Advance(s, t);
    forall u | 0 <= u < |s'.threads| && WriterWaits(s'.threads[u].call)
      ensures FullOpen(s'.pipe) || Owed(s', false)
    {
      WriterWaitsKept(s, t, u);
    }
    forall u | 0 <= u < |s'.threads| && WriterDown(s'.threads[u].call)
      ensures NoReaderDown(s'.threads)
    {
      NoReaderDownKept(s, t, u);
    }
  }

  lemma {:induction false} StoredOne(stored: seq<char>, donor: seq<nat>, c: char, u: nat, k: nat, t: nat)
    requires |donor| == |stored| && k <= |stored|
    ensures StoredBy(stored + [c], donor + [u], k, t) == StoredBy(stored, donor, k, t) + (if u == t then [c] else [])
  {
    assert (stored + [c])[..|stored|] == stored && (donor + [u])[..|donor|] == donor;
  }

  lemma {:induction false} OwnWriterInside(p: Pipe, th: Thread, t: nat)
    requires |p.donor| == |p.stored| && WriterOk(p, th, t) && th.call.Active?
    ensures var (p', c) := Inside(p, th.killed, th.call.op, th.call.stage, t);
            |p'.donor| == |p'.stored| && WriterOk(p', th.(call := c), t)
  {
    var op := th.call.op;
    if op.Write? && th.call.stage.Loop? && op.i < |op.src| && !IsFull(p.ring) {
      StoredOne(p.stored, p.donor, op.src[op.i], t, th.since, t);
      assert op.src[..op.i + 1] == op.src[..op.i] + [op.src[op.i]];
    }
  }

  lemma {:induction false} OtherWriterInside(p: Pipe, killed: bool, op: Op, stage: Stage, t: nat, th: Thread, u: nat)
    requires |p.donor| == |p.stored| && WriterOk(p, th, u) && u != t
    ensures var p' := Inside(p, killed, op, stage, t).0; |p'.donor| == |p'.stored| && WriterOk(p', th, u)
  {
    if op.Write? && stage.Loop? && op.i < |op.src| && !IsFull(p.ring) && th.call.Active? && th.call.op.Write? {
      StoredOne(p.stored, p.donor, op.src[op.i], t, th.since, u);
    }
  }

  lemma {:induction false} WriterKept(s: State, t: nat, u: nat)
    requires Writers(s) && t < |s.threads| && u < |s.threads| && s.threads[t].call.Active?
    ensures var s' := Advance(s, t);
            |s'.threads| == |s.threads| && |s'.pipe.donor| == |s'.pipe.stored| && WriterOk(s'.pipe, s'.threads[u], u)
  {
    assert WriterOk(s.pipe, s.threads[t], t) && WriterOk(s.pipe, s.threads[u], u);
    var th := s.threads[t];
    if th.call.stage.Loop? || th.call.stage.Copy? {
      OwnWriterInside(s.pipe, th, t);
      if u != t { OtherWriterInside(s.pipe, th.killed, th.call.op, th.call.stage, t, s.threads[u], u); }
    }
  }

  lemma {:induction false} WritersKept(s: State, t: nat)
    requires Writers(s) && t < |s.threads| && s.threads[t].call.Active?
    ensures Writers(Advance(s, t))
  {
    WriterKept(s, t, t);
    forall u | 0 <= u < |s.threads| ensures WriterOk(Advance(s, t).pipe, Advance(s, t).threads[u], u) {
      WriterKept(s, t, u);
    }
  }

  lemma {:induction false} BeginCalls(s: State, t: nat, op: Op)
    requires Calls(s) && t < |s.threads| && s.threads[t].call == Idle && MayBegin(s, op)
    ensures Calls(Next(s, Begin(t, op)))
  {
    var s' := Next(s, Begin(t, op));
    assert forall u | 0 <= u < |s.threads| && u != t :: s'.threads[u] == s.threads[u];
    assert s'.threads[t].call == Active(op, Enter);
    forall u | 0 <= u < |s'.threads| && s'.threads[u].call.Active? && s'.threads[u].call.op.Close?
      ensures Alone(s'.threads, u, s'.threads[u].call.op.writable)
    {
      if u != t {
        assert s.threads[u].call.op == Close(s'.threads[u].call.op.writable);
      }
    }
  }

  lemma {:induction false} BeginKeeps(s: State, t: nat, op: Op)
    requires Invariant(s) && t < |s.threads| && s.threads[t].call == Idle && MayBegin(s, op)
    ensures Invariant(Next(s, Begin(t, op)))
  {
    var s' := Next(s, Begin(t, op));
    BeginCalls(s, t, op);
    assert forall u | 0 <= u < |s.threads| && u != t :: s'.threads[u] == s.threads[u];
    assert s'.threads[t].call == Active(op, Enter) && !InPipeLock(s.threads[t].call);
    assert !InTableLock(s.threads[t].call);
  }

  lemma {:induction false} KillKeeps(s: State, t: nat)
    requires Invariant(s) && t < |s.threads| && s.tlock == None
    ensures Invariant(Next(s, Kill(t)))
  {
    var s' := Next(s, Kill(t));
    assert forall u | 0 <= u < |s.threads| && u != t :: s'.threads[u] == s.threads[u];
    assert InPipeLock(s'.threads[t].call) <==> InPipeLock(s.threads[t].call);
    assert InTableLock(s'.threads[t].call) <==> InTableLock(s.threads[t].call);
    assert CallOk(s.pipe, s.threads[t].call);
    forall u | 0 <= u < |s'.threads| && s'.threads[u].call.Active? && s'.threads[u].call.op.Close?
      ensures Alone(s'.threads, u, s'.threads[u].call.op.writable)
    {
      assert s.threads[u].call.Active? && s.threads[u].call.op == s'.threads[u].call.op;
      assert forall v | 0 <= v < |s.threads| :: UsesEnd(s'.threads[v].call, s'.threads[u].call.op.writable)
                                                 == UsesEnd(s.threads[v].call, s'.threads[u].call.op.writable);
    }
  }

  lemma {:induction false} StepKeeps(s: State, step: Step)
    requires Invariant(s)
    ensures Invariant(Next(s, step))
  {
    if step.t < |s.threads| {
      match step
      case Begin(t, op) =>
        if s.threads[t].call == Idle && MayBegin(s, op) { BeginKeeps(s, t, op); }
      case Go(t) =>
        var th := s.threads[t];
        if th.call.Active? {
          LocksKept(s, t);
          BytesKept(s.pipe, th.killed, th.call.op, th.call.stage, t);
          CallsKept(s, t);
          WaitsKept(s, t);
          WritersKept(s, t);
        }
      case Kill(t) =>
        if s.tlock == None { KillKeeps(s, t); }
    }
  }

  /** Every interleaving of every number of threads keeps the invariant. */
  lemma {:induction false} RunsKeep(n: nat, steps: seq<Step>)
    ensures Invariant(Run(n, steps))
  {
    if steps == [] {
      assert Holds(Empty, [], 0);
    } else {
      RunsKeep(n, steps[..|steps| - 1]);
      StepKeeps(Run(n, steps[..|steps| - 1]), steps[|steps| - 1]);
    }
  }

  /** At most PIPESIZE bytes are in the pipe, and what was read followed by what is still in the
      buffer is what was written, in order, however often the counters have wrapped. */
  lemma {:induction false} Fifo(n: nat, steps: seq<Step>)
    ensures var p := Run(n, steps).pipe; p.stored == p.taken + Contents(p.ring) && |Contents(p.ring)| <= PIPESIZE
  {
    RunsKeep(n, steps);
    var p := Run(n, steps).pipe;
    ContentsAre(p.ring, p.stored, |p.taken|);
  }

  /** The bytes one piperead returns are consecutive bytes of the stream, at most n of them. */
  lemma {:induction false} ReadIsSlice(n: nat, steps: seq<Step>, t: nat)
    requires t < |Run(n, steps).threads|
    requires var c := Run(n, steps).threads[t].call; c.Active? && c.op.Read? && c.stage == Leave(true)
    ensures var s := Run(n, steps); var got := s.threads[t].call.op.got;
            && |got| <= |s.pipe.taken| <= |s.pipe.stored|
            && got == s.pipe.stored[|s.pipe.taken| - |got|..|s.pipe.taken|]
            && (got == [] || |got| <= s.threads[t].call.op.n)
  {
    RunsKeep(n, steps);
    var s := Run(n, steps);
    assert CallOk(s.pipe, s.threads[t].call);
  }

  /** When pipewrite returns n, its n bytes are in the stream in order, whatever others stored between
      them. */
  lemma {:induction false} WriteStoresAll(n: nat, steps: seq<Step>, t: nat)
    requires t < |Run(n, steps).threads|
    requires var c := Run(n, steps).threads[t].call; c.Active? && c.op.Write? && c.stage == Leave(true)
    ensures var s := Run(n, steps); var p, th := s.pipe, s.threads[t];
            |p.donor| == |p.stored| && StoredBy(p.stored, p.donor, th.since, t) == th.call.op.src
  {
    RunsKeep(n, steps);
    var s := Run(n, steps);
    assert CallOk(s.pipe, s.threads[t].call) && WriterOk(s.pipe, s.threads[t], t);
    var src := s.threads[t].call.op.src;
    assert src[..|src|] == src;
  }

  /** A reader and a writer never sleep at the same time, and a writer that sleeps while the pipe's
      lock is free faces a full pipe with its read end open. */
  lemma {:induction false} NeverBothAsleep(n: nat, steps: seq<Step>, w: nat, r: nat)
    requires w < |Run(n, steps).threads| && r < |Run(n, steps).threads|
    requires var c := Run(n, steps).threads[w].call; c.Active? && c.op.Write? && c.stage == Asleep
    ensures var c := Run(n, steps).threads[r].call; !(c.Active? && c.op.Read? && c.stage == Asleep)
    ensures Run(n, steps).plock == None ==> FullOpen(Run(n, steps).pipe)
  {
    RunsKeep(n, steps);
    var s := Run(n, steps);
    assert WriterWaits(s.threads[w].call) && WriterDown(s.threads[w].call);
    assert !ReaderDown(s.threads[r].call);
  }

  /** When pipeclose frees the pipe nobody else is in a call on it. */
  lemma {:induction false} FreedAlone(n: nat, steps: seq<Step>, t: nat, u: nat)
    requires t < |Run(n, steps).threads| && u < |Run(n, steps).threads| && u != t
    requires var c := Run(n, steps).threads[t].call; c.Active? && c.op.Close? && c.stage.Leave?
    requires !Run(n, steps).pipe.readopen && !Run(n, steps).pipe.writeopen
    ensures Run(n, steps).threads[u].call == Idle
  {
    RunsKeep(n, steps);
    var s := Run(n, steps);
    assert InPipeLock(s.threads[t].call) && !InPipeLock(s.threads[u].call);
    assert CallOk(s.pipe, s.threads[u].call);
  }

  // ----- sleeping readers -----

  /** The early return of pipewrite from a full pipe. */
  predicate GivesUp(s: State, step: Step) {
    && step.Go? && step.t < |s.threads|
    && var th := s.threads[step.t];
       th.call.Active? && th.call.op.Write? && th.call.stage == Loop && th.call.op.i < |th.call.op.src|
       && IsFull(s.pipe.ring) && (!s.pipe.readopen || th.killed)
  }

  lemma {:induction false} InsideForReaders(p: Pipe, killed: bool, op: Op, stage: Stage, t: nat)
    requires Bytes(p)
    requires EmptyOpen(p) || OwesReaders(Active(op, stage))
    requires !(op.Write? && stage.Loop? && op.i < |op.src| && IsFull(p.ring) && (!p.readopen || killed))
    ensures var (p', c') := Inside(p, killed, op, stage, t); EmptyOpen(p') || OwesReaders(c')
  {
    NotBoth(p);
  }

  lemma {:induction false} ReaderDownKept(s: State, t: nat, u: nat)
    requires Locks(s) && Bytes(s.pipe) && t < |s.threads| && u < |s.threads|
    requires s.threads[t].call.Active? && ReaderDown(Advance(s, t).threads[u].call)
    requires CallOk(s.pipe, s.threads[t].call)
    requires ReaderDown(s.threads[u].call) ==> EmptyOpen(s.pipe) || Owed(s, true)
    requires !GivesUp(s, Go(t))
    ensures EmptyOpen(Advance(s, t).pipe) || Owed(Advance(s, t), true)
  {
    var th := s.threads[t];
    AdvanceLocks(s, t);
    if th.call.stage.Loop? || th.call.stage.Copy? {
      if u != t { InsideForReaders(s.pipe, th.killed, th.call.op, th.call.stage, t); }
    } else if u != t && th.call.stage.Notifying? {
      NoneLeft(s, t, u);
    } else {
      assert InPipeLock(th.call) <==> s.plock == Some(t);
    }
  }

  /** A step leaves a reader asleep beside unread bytes exactly when a writer gives up while a reader
      is down. */
  lemma {:induction false} AlertStep(s: State, step: Step)
    requires Invariant(s) && Alert(s)
    ensures Alert(Next(s, step)) <==> !(GivesUp(s, step) && !NoReaderDown(s.threads))
  {
    var s' := Next(s, step);
    if GivesUp(s, step) {
      NotBoth(s.pipe);
      AdvanceOthers(s, step.t);
      assert InPipeLock(s.threads[step.t].call);
      assert s'.threads[step.t].call.stage == Leave(false);
      assert forall u | 0 <= u < |s.threads| :: ReaderDown(s'.threads[u].call) == ReaderDown(s.threads[u].call);
    } else if step.t < |s.threads| {
      forall u | 0 <= u < |s'.threads| && ReaderDown(s'.threads[u].call)
        ensures EmptyOpen(s'.pipe) || Owed(s', true)
      {
        if step.Go? && s.threads[step.t].call.Active? {
          ReaderDownKept(s, step.t, u);
        } else if !step.Go? {
          OwedElsewhere(s, step);
        }
      }
    }
  }

  lemma {:induction false} OwedElsewhere(s: State, step: Step)
    requires Locks(s) && step.t < |s.threads| && !step.Go?
    ensures Owed(s, true) ==> Owed(Next(s, step), true)
  {
    if s.plock.Some? { assert InPipeLock(s.threads[s.plock.value].call); }
  }

  /** After k steps of the run no reader sleeps beside unread bytes. */
  ghost predicate AlertAt(n: nat, steps: seq<Step>, k: nat)
    requires k <= |steps|
  {
    Alert(Run(n, steps[..k]))
  }

  /** At step k of the run a writer gives up while a reader is down. */
  ghost predicate StrandsAt(n: nat, steps: seq<Step>, k: nat)
    requires k < |steps|
  {
    var s := Run(n, steps[..k]);
    GivesUp(s, steps[k]) && !NoReaderDown(s.threads)
  }

  lemma {:induction false} AlertNext(n: nat, steps: seq<Step>, k: nat)
    requires k < |steps| && AlertAt(n, steps, k)
    ensures AlertAt(n, steps, k + 1) <==> !StrandsAt(n, steps, k)
  {
    RunsKeep(n, steps[..k]);
    AlertStep(Run(n, steps[..k]), steps[k]);
    assert steps[..k + 1] == steps[..k] + [steps[k]];
    RunSnoc(n, steps[..k], steps[k]);
  }

  lemma {:induction false} AlertUpTo(n: nat, steps: seq<Step>, k: nat)
    requires k <= |steps| && forall j | 0 <= j < |steps| :: !StrandsAt(n, steps, j)
    ensures AlertAt(n, steps, k)
  {
    if k > 0 {
      AlertUpTo(n, steps, k - 1);
      AlertNext(n, steps, k - 1);
    }
  }

  /** Throughout a run no reader is left asleep beside unread bytes exactly when no writer of the run
      gives up while a reader is down. */
  lemma {:induction false} AlwaysAlertIff(n: nat, steps: seq<Step>)
    ensures (forall k | 0 <= k <= |steps| :: AlertAt(n, steps, k)) <==>
            (forall k | 0 <= k < |steps| :: !StrandsAt(n, steps, k))
  {
    if forall k | 0 <= k <= |steps| :: AlertAt(n, steps, k) {
      forall k | 0 <= k < |steps| ensures !StrandsAt(n, steps, k) {
        assert AlertAt(n, steps, k + 1);
        AlertNext(n, steps, k);
      }
    }
    if forall k | 0 <= k < |steps| :: !StrandsAt(n, steps, k) {
      forall k | 0 <= k <= |steps| ensures AlertAt(n, steps, k) {
        AlertUpTo(n, steps, k);
      }
    }
  }

  ghost predicate NoKills(steps: seq<Step>) {
    forall i | 0 <= i < |steps| :: !steps[i].Kill?
  }

  lemma {:induction false} NoneKilled(n: nat, steps: seq<Step>)
    requires NoKills(steps)
    ensures forall t | 0 <= t < |Run(n, steps).threads| :: !Run(n, steps).threads[t].killed
  {
    if steps != [] {
      var before, step := steps[..|steps| - 1], steps[|steps| - 1];
      NoneKilled(n, before);
      var s := Run(n, before);
      assert Run(n, steps) == Next(s, step) && !step.Kill?;
      if step.Go? && step.t < |s.threads| && s.threads[step.t].call.Active? {
        AdvanceOthers(s, step.t);
        assert Next(s, step).threads[step.t].killed == s.threads[step.t].killed;
      }
    }
  }

  lemma {:induction false} KillFreeAlert(n: nat, steps: seq<Step>)
    requires NoKills(steps)
    ensures Alert(Run(n, steps))
  {
    if steps != [] {
      var before, step := steps[..|steps| - 1], steps[|steps| - 1];
      KillFreeAlert(n, before);
      RunsKeep(n, before);
      NoneKilled(n, before);
      var s := Run(n, before);
      AlertStep(s, step);
      if GivesUp(s, step) {
        forall u | 0 <= u < |s.threads| ensures !ReaderDown(s.threads[u].call) {
          assert CallOk(s.pipe, s.threads[u].call);
        }
      }
    }
  }

  /** Without kills, a reader that sleeps while the pipe's lock is free faces an empty pipe whose
      write end is open. */
  lemma {:induction false} SleepingReaderIsEmpty(n: nat, steps: seq<Step>, r: nat)
    requires NoKills(steps) && r < |Run(n, steps).threads| && Run(n, steps).plock == None
    requires var c := Run(n, steps).threads[r].call; c.Active? && c.op.Read? && c.stage == Asleep
    ensures EmptyOpen(Run(n, steps).pipe) && Contents(Run(n, steps).pipe.ring) == []
  {
    KillFreeAlert(n, steps);
    RunsKeep(n, steps);
    var s := Run(n, steps);
    assert ReaderDown(s.threads[r].call);
    ContentsAre(s.pipe.ring, s.pipe.stored, |s.pipe.taken|);
    FullAndEmpty(s.pipe.ring, s.pipe.stored, |s.pipe.taken|);
  }

  // ----- a killed writer leaves a reader asleep beside a full pipe -----

  /** Thread 0 calls piperead and takes k steps. */
  function ToSleep(k: nat): seq<Step> {
    if k == 0 then [Begin(0, Read(1, []))] else ToSleep(k - 1) + [Go(0)]
  }

  function GoingToSleep(k: nat): State {
    var stage := if k == 0 then Enter else if k == 1 then Loop else if k == 2 then Doze
                 else if k == 3 then Dozing else if k == 4 then Dropping else Asleep;
    State(Start(2).pipe, if 1 <= k <= 3 then Some(0) else None, if 3 <= k <= 4 then Some(0) else None,
          [Thread(false, Active(Read(1, []), stage), 0), Thread(false, Idle, 0)])
  }

  /** Then thread 1 stores k of the bytes of its pipewrite. */
  function SleepThenFill(src: seq<char>, k: nat): seq<Step> {
    if k == 0 then ToSleep(5) + [Begin(1, Write(src, 0))] + [Go(1)] else SleepThenFill(src, k - 1) + [Go(1)]
  }

  function Filling(src: seq<char>, p: Pipe, k: nat, killed: bool): State {
    State(p, Some(1), None,
          [Thread(false, Active(Read(1, []), Asleep), 0), Thread(killed, Active(Write(src, k), Loop), 0)])
  }

  lemma {:induction false} RunSnoc(n: nat, steps: seq<Step>, step: Step)
    ensures Run(n, steps + [step]) == Next(Run(n, steps), step)
  {
    assert (steps + [step])[..|steps|] == steps;
  }

  lemma {:induction false} GoToSleep(k: nat)
    requires k < 5
    ensures Next(GoingToSleep(k), Go(0)) == GoingToSleep(k + 1)
  {
    assert IsEmpty(Empty);
  }

  lemma {:induction false} RunToSleep(k: nat)
    requires k <= 5
    ensures Run(2, ToSleep(k)) == GoingToSleep(k)
  {
    if k == 0 {
      RunSnoc(2, [], Begin(0, Read(1, [])));
      assert [] + [Begin(0, Read(1, []))] == ToSleep(0);
      assert Start(2).threads == [Thread(false, Idle, 0), Thread(false, Idle, 0)];
      assert MayBegin(Start(2), Read(1, []));
    } else {
      RunToSleep(k - 1);
      RunSnoc(2, ToSleep(k - 1), Go(0));
      GoToSleep(k - 1);
    }
  }

  lemma {:induction false} RunBegin(src: seq<char>)
    ensures Run(2, SleepThenFill(src, 0)) == Filling(src, Start(2).pipe, 0, false)
  {
    RunToSleep(5);
    var begin := Begin(1, Write(src, 0));
    RunSnoc(2, ToSleep(5), begin);
    RunSnoc(2, ToSleep(5) + [begin], Go(1));
    assert MayBegin(GoingToSleep(5), Write(src, 0));
  }

  lemma {:induction false} FillOne(src: seq<char>, q: Pipe, k: nat)
    requires k < |src| && !IsFull(q.ring)
    ensures Next(Filling(src, q, k, false), Go(1))
            == Filling(src, q.(ring := Put(q.ring, src[k]), stored := q.stored + [src[k]], donor := q.donor + [1]),
                       k + 1, false)
  {
    var s := Filling(src, q, k, false);
    assert s.threads[1] == Thread(false, Active(Write(src, k), Loop), 0);
  }

  lemma {:induction false} RunFill(src: seq<char>, k: nat) returns (p: Pipe)
    requires k <= |src| && k <= PIPESIZE
    ensures Run(2, SleepThenFill(src, k)) == Filling(src, p, k, false)
    ensures |p.stored| == k && p.taken == [] && p.readopen
  {
    if k == 0 {
      RunBegin(src);
      p := Start(2).pipe;
    } else {
      var q := RunFill(src, k - 1);
      assert Invariant(Filling(src, q, k - 1, false)) by { RunsKeep(2, SleepThenFill(src, k - 1)); }
      FullAndEmpty(q.ring, q.stored, 0);
      RunSnoc(2, SleepThenFill(src, k - 1), Go(1));
      FillOne(src, q, k - 1);
      p := q.(ring := Put(q.ring, src[k - 1]), stored := q.stored + [src[k - 1]], donor := q.donor + [1]);
    }
  }

  /** Once kills are allowed the property fails: the writer fills the pipe, finds itself killed and
      leaves without waking the reader. Both locks are free and the pipe holds 512 bytes. */
  lemma {:induction false} KilledWriterStrandsReader(src: seq<char>) returns (steps: seq<Step>)
    requires |src| > PIPESIZE
    ensures var s := Run(2, steps);
            && s.plock == None && s.tlock == None && |Contents(s.pipe.ring)| == PIPESIZE
            && s.threads == [Thread(false, Active(Read(1, []), Asleep), 0), Thread(true, Idle, 0)]
  {
    var fill := SleepThenFill(src, PIPESIZE);
    var p := RunFill(src, PIPESIZE);
    RunsKeep(2, fill);
    FullAndEmpty(p.ring, p.stored, 0);
    ContentsAre(p.ring, p.stored, 0);
    RunSnoc(2, fill, Kill(1));
    assert Run(2, fill + [Kill(1)]) == Filling(src, p, PIPESIZE, true);
    RunSnoc(2, fill + [Kill(1)], Go(1));
    RunSnoc(2, fill + [Kill(1)] + [Go(1)], Go(1));
    steps := fill + [Kill(1)] + [Go(1)] + [Go(1)];
  }
}
