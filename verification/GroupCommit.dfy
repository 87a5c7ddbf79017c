/** The admission protocol of log.c: begin_op, log_write, end_op and commit, interleaved in any way
    by any number of processes. Each running operation carries the number of log_write calls it may
    still make; that it makes at most MAXOPBLOCKS is the promise system calls give the log. log_write
    tests its guards before it takes log.lock, so the test and the update are steps of their own. */
module GroupCommit {
  import opened Params

  /** Committing is the time between the last end_op and the end of commit; Erased is the part of
      it after commit has reset lh.n. In C both are log.committing != 0. */
  datatype Phase = Idle | Committing | Erased

  datatype Panic = NoPanic | TooBig | OutsideTransaction | StillCommitting

  /** A running operation: the calls it has left, and whether it is past the guards of one of them and
      on its way to log.lock. */
  datatype Op = Op(left: nat, passed: bool)

  datatype State = State(blocks: seq<nat>, outstanding: int, phase: Phase, ops: seq<Op>, panic: Panic)

  /** Operations are numbered by their place in ops. */
  datatype Step =
    | Begin
    | Check(op: nat)
    | Record(op: nat, blockno: nat)
    | End(op: nat)
    | CommitErases
    | CommitReturns

  const Start := State([], 0, Idle, [], NoPanic)

  /** The test under which begin_op lets an operation start instead of sleeping. */
  predicate Admits(n: nat, outstanding: int, committing: bool) {
    !committing && n + (outstanding + 1) * MAXOPBLOCKS <= LOGSIZE
  }

  /** The guard log_write tests before it looks for the block in the header. */
  predicate Full(size: nat, n: nat) {
    n >= LOGSIZE || n >= size - 1
  }

  /** The header after log_write: a block already listed is absorbed. */
  function Absorb(blocks: seq<nat>, blockno: nat): seq<nat> {
    if blockno in blocks then blocks else blocks + [blockno]
  }

  function Next(size: nat, s: State, step: Step): State {
    if s.panic != NoPanic then s else
    match step
    case Begin =>
      if Admits(|s.blocks|, s.outstanding, s.phase != Idle) then
        s.(outstanding := s.outstanding + 1, ops := s.ops + [Op(MAXOPBLOCKS, false)])
      else s
    case Check(op) =>
      if op >= |s.ops| || s.ops[op].left == 0 || s.ops[op].passed then s
      else if Full(size, |s.blocks|) then s.(panic := TooBig)
      else if s.outstanding < 1 then s.(panic := OutsideTransaction)
      else s.(ops := s.ops[op := Op(s.ops[op].left, true)])
    case Record(op, blockno) =>
      if op >= |s.ops| || s.ops[op].left == 0 || !s.ops[op].passed then s
      else s.(blocks := Absorb(s.blocks, blockno), ops := s.ops[op := Op(s.ops[op].left - 1, false)])
    case End(op) =>
      if op >= |s.ops| || s.ops[op].passed then s
      else if s.phase != Idle then s.(panic := StillCommitting)
      else
        s.(outstanding := s.outstanding - 1,
           ops := s.ops[..op] + s.ops[op + 1..],
           phase := if s.outstanding - 1 == 0 then Committing else Idle)
    case CommitErases =>
      if s.phase == Committing then s.(blocks := [], phase := Erased) else s
    case CommitReturns =>
      if s.phase == Erased then s.(phase := Idle) else s
  }

  function RunFrom(size: nat, s: State, steps: seq<Step>): State {
    if steps == [] then s
    else Next(size, RunFrom(size, s, steps[..|steps| - 1]), steps[|steps| - 1])
  }

  function Run(size: nat, steps: seq<Step>): State {
    RunFrom(size, Start, steps)
  }

  /** All the calls still to come. */
  function Calls(ops: seq<Op>): nat {
    if ops == [] then 0 else ops[0].left + Calls(ops[1..])
  }

  /** The operations between guard and update. */
  function Passed(ops: seq<Op>): nat {
    if ops == [] then 0 else (if ops[0].passed then 1 else 0) + Passed(ops[1..])
  }

  lemma {:induction false} CountConcat(s: seq<Op>, t: seq<Op>)
    ensures Calls(s + t) == Calls(s) + Calls(t) && Passed(s + t) == Passed(s) + Passed(t)
  {
    if s == [] {
      assert s + t == t;
    } else {
      assert (s + t)[1..] == s[1..] + t;
      CountConcat(s[1..], t);
    }
  }

  lemma {:induction false} CountSplit(s: seq<Op>, i: nat)
    requires i < |s|
    ensures Calls(s) == Calls(s[..i]) + s[i].left + Calls(s[i + 1..])
    ensures Passed(s) == Passed(s[..i]) + (if s[i].passed then 1 else 0) + Passed(s[i + 1..])
  {
    assert s == s[..i] + ([s[i]] + s[i + 1..]);
    CountConcat(s[..i], [s[i]] + s[i + 1..]);
  }

  lemma {:induction false} CountSet(s: seq<Op>, i: nat, o: Op)
    requires i < |s|
    ensures Calls(s[i := o]) == Calls(s) - s[i].left + o.left
    ensures Passed(s[i := o]) == Passed(s) - (if s[i].passed then 1 else 0) + if o.passed then 1 else 0
  {
    var t := s[i := o];
    CountSplit(s, i);
    CountSplit(t, i);
    assert t[..i] == s[..i] && t[i + 1..] == s[i + 1..];
  }

  lemma {:induction false} CountBound(s: seq<Op>)
    requires forall i | 0 <= i < |s| :: s[i].left <= MAXOPBLOCKS
    ensures Calls(s) <= |s| * MAXOPBLOCKS && Passed(s) <= |s|
  {
    if s != [] {
      CountBound(s[1..]);
    }
  }

  /** What every interleaving keeps. */
  ghost predicate Invariant(size: nat, s: State) {
    && s.outstanding == |s.ops| && |s.ops| * MAXOPBLOCKS <= LOGSIZE
    && |s.blocks| + Calls(s.ops) <= LOGSIZE
    && |s.blocks| + Passed(s.ops) <= size + 1
    && (forall i | 0 <= i < |s.ops| :: s.ops[i].left <= MAXOPBLOCKS)
    && (forall i, j | 0 <= i < j < |s.blocks| :: s.blocks[i] != s.blocks[j])
    && (s.phase != Idle ==> s.ops == [])
    && (s.phase == Erased ==> s.blocks == [])
    && (s.phase == Idle && s.ops == [] ==> s.blocks == [])
    && (s.panic == NoPanic || s.panic == TooBig)
  }

  lemma {:induction false} BeginKeeps(size: nat, s: State)
    requires Invariant(size, s)
    ensures Invariant(size, Next(size, s, Begin))
  {
    var o := Op(MAXOPBLOCKS, false);
    CountConcat(s.ops, [o]);
    assert Calls([o]) == MAXOPBLOCKS && Passed([o]) == 0;
    CountBound(s.ops);
  }

  lemma {:induction false} CheckKeeps(size: nat, s: State, op: nat)
    requires Invariant(size, s)
    ensures Invariant(size, Next(size, s, Check(op)))
    ensures Next(size, s, Check(op)).panic == TooBig && s.panic == NoPanic ==>
              Full(size, |s.blocks|) && |s.blocks| < LOGSIZE
  {
    if op < |s.ops| && s.ops[op].left > 0 {
      CountSplit(s.ops, op);
      CountSet(s.ops, op, Op(s.ops[op].left, true));
      CountBound(s.ops[op := Op(s.ops[op].left, true)]);
    }
  }

  lemma {:induction false} RecordKeeps(size: nat, s: State, op: nat, blockno: nat)
    requires Invariant(size, s)
    ensures Invariant(size, Next(size, s, Record(op, blockno)))
  {
    if op < |s.ops| && s.ops[op].left > 0 && s.ops[op].passed {
      CountSet(s.ops, op, Op(s.ops[op].left - 1, false));
    }
  }

  lemma {:induction false} EndKeeps(size: nat, s: State, op: nat)
    requires Invariant(size, s)
    ensures Invariant(size, Next(size, s, End(op)))
  {
    if op < |s.ops| {
      CountSplit(s.ops, op);
      CountConcat(s.ops[..op], s.ops[op + 1..]);
    }
  }

  lemma {:induction false} StepKeeps(size: nat, s: State, step: Step)
    requires Invariant(size, s)
    ensures Invariant(size, Next(size, s, step))
    ensures Next(size, s, step).panic == TooBig && s.panic == NoPanic ==>
              Full(size, |s.blocks|) && |s.blocks| < LOGSIZE
  {
    match step
    case Begin => BeginKeeps(size, s);
    case Check(op) => CheckKeeps(size, s, op);
    case Record(op, blockno) => RecordKeeps(size, s, op, blockno);
    case End(op) => EndKeeps(size, s, op);
    case CommitErases => assert Passed([]) == 0;
    case CommitReturns =>
  }

  /** Over every run: commit runs only with no operation outstanding and none starts meanwhile, so
      neither the panic of end_op nor the one for log_write outside a transaction can happen; lh.n plus
      all the calls still to come never exceeds LOGSIZE, so the header has room for every update; and
      lh.n never passes the size of the log by more than one. */
  lemma {:induction false} RunsKeep(size: nat, steps: seq<Step>)
    ensures var s := Run(size, steps);
            && Invariant(size, s)
            && s.panic != StillCommitting && s.panic != OutsideTransaction
            && (s.phase != Idle ==> s.outstanding == 0)
            && |s.blocks| + Calls(s.ops) <= LOGSIZE && |s.blocks| <= size + 1
    decreases |steps|
  {
    if steps != [] {
      var m := |steps| - 1;
      RunsKeep(size, steps[..m]);
      StepKeeps(size, Run(size, steps[..m]), steps[m]);
    }
  }

  /** With one block more in the log than LOGSIZE, no run is ever told its transaction is too big. */
  lemma {:induction false} NeverTooBig(size: nat, steps: seq<Step>)
    requires size > LOGSIZE
    ensures Run(size, steps).panic == NoPanic
    decreases |steps|
  {
    if steps != [] {
      var m := |steps| - 1;
      NeverTooBig(size, steps[..m]);
      RunsKeep(size, steps[..m]);
      StepKeeps(size, Run(size, steps[..m]), steps[m]);
    }
  }

  // ----- who gets in, what is listed, and how it ends -----

  /** Over every run: begin_op lets an operation in, with MAXOPBLOCKS calls of log_write to make,
      exactly when no commit runs and the listed blocks leave room for all that the running operations
      and this one may write, whatever is listed already; otherwise it waits and changes nothing. */
  lemma {:induction false} LetInIff(size: nat, steps: seq<Step>)
    requires Run(size, steps).panic == NoPanic
    ensures var s := Run(size, steps); var s' := Next(size, s, Begin);
            if s.phase == Idle && |s.blocks| + |s.ops| * MAXOPBLOCKS + MAXOPBLOCKS <= LOGSIZE
            then s' == State(s.blocks, |s.ops| + 1, Idle, s.ops + [Op(MAXOPBLOCKS, false)], NoPanic)
            else s' == s
  {
    RunsKeep(size, steps);
  }

  /** So an operation does start beside another that has listed k blocks, for every k that fits. */
  lemma {:induction false} StartsBesideListed(size: nat, k: nat) returns (steps: seq<Step>)
    requires k <= MAXOPBLOCKS && k <= size - 1
    ensures var s := Run(size, steps);
            && |s.blocks| == k && s.outstanding == 1 && s.panic == NoPanic
            && Next(size, s, Begin).outstanding == 2
  {
    steps := OneLists(size, k);
    LetInIff(size, steps);
  }

  function Alone(k: nat): State
    requires k <= MAXOPBLOCKS
  {
    State(seq(k, i => i), 1, Idle, [Op(MAXOPBLOCKS - k, false)], NoPanic)
  }

  lemma {:induction false} AloneNext(size: nat, k: nat)
    requires k < MAXOPBLOCKS && k < size - 1
    ensures RunFrom(size, Alone(k), [Check(0), Record(0, k)]) == Alone(k + 1)
  {
    RunTwo(size, Alone(k), Check(0), Record(0, k));
    assert seq(k, i => i) + [k] == seq(k + 1, i => i);
    assert k !in seq(k, i => i);
  }

  lemma {:induction false} OneLists(size: nat, k: nat) returns (steps: seq<Step>)
    requires k <= MAXOPBLOCKS && k <= size - 1
    ensures Run(size, steps) == Alone(k)
  {
    if k == 0 {
      steps := [] + [Begin];
      RunSnoc(size, Start, [], Begin);
      assert seq(0, i => i) == [];
    } else {
      var before := OneLists(size, k - 1);
      steps := before + [Check(0), Record(0, k - 1)];
      RunConcat(size, Start, before, [Check(0), Record(0, k - 1)]);
      AloneNext(size, k - 1);
    }
  }

  /** Over every run: log_write lists its block, once, keeps what is listed in its place, and lists
      nothing else; an operation that has passed the guards always gets to do so. */
  lemma {:induction false} RecordLists(size: nat, steps: seq<Step>, op: nat, blockno: nat)
    requires Run(size, steps).panic == NoPanic
    requires op < |Run(size, steps).ops| && Run(size, steps).ops[op].passed
    ensures var s := Run(size, steps); var s' := Next(size, s, Record(op, blockno));
            && s.blocks <= s'.blocks && blockno in s'.blocks
            && (blockno in s.blocks ==> s'.blocks == s.blocks)
            && (blockno !in s.blocks ==> s'.blocks == s.blocks + [blockno])
            && s.ops[op].left > 0 && s'.ops == s.ops[op := Op(s.ops[op].left - 1, false)]
            && s'.phase == Idle && s'.panic == NoPanic && s'.outstanding == s.outstanding
  {
    RunsKeep(size, steps);
    PassedHasCalls(size, steps, op);
  }

  lemma {:induction false} PassedHasCalls(size: nat, steps: seq<Step>, op: nat)
    requires op < |Run(size, steps).ops| && Run(size, steps).ops[op].passed
    ensures Run(size, steps).ops[op].left > 0
    decreases |steps|
  {
    var m := |steps| - 1;
    var s, step := Run(size, steps[..m]), steps[m];
    if s.panic == NoPanic && step.End? && step.op < |s.ops| && !s.ops[step.op].passed && s.phase == Idle {
      PassedHasCalls(size, steps[..m], if op < step.op then op else op + 1);
    } else if op < |s.ops| && s.ops[op].passed {
      PassedHasCalls(size, steps[..m], op);
    }
  }

  /** end_op starts a commit exactly when it was the last operation; the listed blocks stay. */
  lemma {:induction false} LastEndCommits(size: nat, steps: seq<Step>, op: nat)
    requires Run(size, steps).panic == NoPanic
    requires op < |Run(size, steps).ops| && !Run(size, steps).ops[op].passed
    ensures var s := Run(size, steps); var s' := Next(size, s, End(op));
            && s'.blocks == s.blocks && s'.panic == NoPanic && s'.ops == s.ops[..op] + s.ops[op + 1..]
            && s'.outstanding == |s.ops| - 1
            && (if |s.ops| == 1 then s'.phase == Committing else s'.phase == Idle)
  {
    RunsKeep(size, steps);
  }

  /** Whatever has happened short of a panic, the running operations can finish and the commit can end,
      and then nothing is listed and nobody is inside, so no operation is kept out for ever. */
  lemma {:induction false} DrainsToStart(size: nat, steps: seq<Step>) returns (more: seq<Step>)
    requires Run(size, steps).panic == NoPanic
    ensures Run(size, steps + more) == Start
    decreases |Run(size, steps).ops|, 1
  {
    var s := Run(size, steps);
    RunsKeep(size, steps);
    if s.phase != Idle {
      more := [CommitErases, CommitReturns];
      RunTwo(size, s, CommitErases, CommitReturns);
      RunConcat(size, Start, steps, more);
    } else if s.ops == [] {
      more := [];
      assert steps + more == steps;
    } else {
      more := DrainsOne(size, steps);
    }
  }

  lemma {:induction false} DrainsOne(size: nat, steps: seq<Step>) returns (more: seq<Step>)
    requires var s := Run(size, steps); s.panic == NoPanic && s.phase == Idle && s.ops != []
    ensures Run(size, steps + more) == Start
    decreases |Run(size, steps).ops|, 0
  {
    var first := OneEnds(size, steps);
    var rest := DrainsToStart(size, steps + first);
    more := first + rest;
    assert steps + more == steps + first + rest;
  }

  /** The first operation makes the call it is in and ends. */
  lemma {:induction false} OneEnds(size: nat, steps: seq<Step>) returns (more: seq<Step>)
    requires var s := Run(size, steps); s.panic == NoPanic && s.ops != []
    ensures Run(size, steps + more).panic == NoPanic
    ensures |Run(size, steps + more).ops| < |Run(size, steps).ops|
  {
    if Run(size, steps).ops[0].passed {
      var now := steps + [Record(0, 0)];
      RecordLists(size, steps, 0, 0);
      RunSnoc(size, Start, steps, Record(0, 0));
      LastEndCommits(size, now, 0);
      RunSnoc(size, Start, now, End(0));
      more := [Record(0, 0)] + [End(0)];
      assert steps + more == now + [End(0)];
    } else {
      LastEndCommits(size, steps, 0);
      RunSnoc(size, Start, steps, End(0));
      more := [End(0)];
    }
  }

  // ----- the runs that meet the guard, and the runs that slip past it -----

  /** The operation that makes the k-th call when three of them write one new block after another, the
      second and the third keeping one call back until last. */
  function Writer(k: nat): nat {
    if k < MAXOPBLOCKS then 0 else if k < 2 * MAXOPBLOCKS - 1 then 1 else if k < 3 * MAXOPBLOCKS - 2 then 2 else 1
  }

  function LeftAfter(k: nat): seq<Op>
    requires k <= LOGSIZE - 1
  {
    if k <= MAXOPBLOCKS then [Op(MAXOPBLOCKS - k, false), Op(MAXOPBLOCKS, false), Op(MAXOPBLOCKS, false)]
    else if k <= 2 * MAXOPBLOCKS - 1 then [Op(0, false), Op(2 * MAXOPBLOCKS - k, false), Op(MAXOPBLOCKS, false)]
    else if k <= 3 * MAXOPBLOCKS - 2 then [Op(0, false), Op(1, false), Op(3 * MAXOPBLOCKS - 1 - k, false)]
    else [Op(0, false), Op(0, false), Op(1, false)]
  }

  function GreedyState(k: nat): State
    requires k <= LOGSIZE - 1
  {
    State(seq(k, i => i), 3, Idle, LeftAfter(k), NoPanic)
  }

  lemma {:induction false} RunSnoc(size: nat, s: State, steps: seq<Step>, step: Step)
    ensures RunFrom(size, s, steps + [step]) == Next(size, RunFrom(size, s, steps), step)
  {
    assert (steps + [step])[..|steps|] == steps;
  }

  lemma {:induction false} RunConcat(size: nat, s: State, before: seq<Step>, after: seq<Step>)
    ensures RunFrom(size, s, before + after) == RunFrom(size, RunFrom(size, s, before), after)
    decreases |after|
  {
    if after == [] {
      assert before + after == before;
    } else {
      var m := |after| - 1;
      assert before + after == before + after[..m] + [after[m]];
      RunSnoc(size, s, before + after[..m], after[m]);
      RunConcat(size, s, before, after[..m]);
    }
  }

  /** The run of two steps, one after the other. */
  lemma {:induction false} RunTwo(size: nat, s: State, a: Step, b: Step)
    ensures RunFrom(size, s, [a, b]) == Next(size, Next(size, s, a), b)
  {
    assert [a, b] == [] + [a] + [b];
    RunSnoc(size, s, [] + [a], b);
    RunSnoc(size, s, [], a);
  }

  lemma {:induction false} GreedyNext(size: nat, k: nat)
    requires k < size - 1 && k < LOGSIZE - 1
    ensures RunFrom(size, GreedyState(k), [Check(Writer(k)), Record(Writer(k), k)]) == GreedyState(k + 1)
  {
    RunTwo(size, GreedyState(k), Check(Writer(k)), Record(Writer(k), k));
    assert seq(k, i => i) + [k] == seq(k + 1, i => i);
    assert k !in seq(k, i => i);
  }

  /** Three operations that record k new blocks, each call guard and update at once. */
  lemma {:induction false} GreedyRun(size: nat, k: nat) returns (steps: seq<Step>)
    requires k <= size - 1 && k <= LOGSIZE - 1
    ensures Run(size, steps) == GreedyState(k)
  {
    if k == 0 {
      steps := ThreeBegin(size);
    } else {
      var before := GreedyRun(size, k - 1);
      GreedyNext(size, k - 1);
      steps := before + [Check(Writer(k - 1)), Record(Writer(k - 1), k - 1)];
      RunConcat(size, Start, before, [Check(Writer(k - 1)), Record(Writer(k - 1), k - 1)]);
    }
  }

  lemma {:induction false} ThreeBegin(size: nat) returns (steps: seq<Step>)
    ensures Run(size, steps) == GreedyState(0)
  {
    steps := [Begin, Begin] + [Begin];
    RunTwo(size, Start, Begin, Begin);
    RunSnoc(size, Start, [Begin, Begin], Begin);
    assert seq(0, i => i) == [];
  }

  /** The guard of log_write is out of reach of every well-behaved run exactly when the log has room
      for a header and LOGSIZE blocks. mkfs makes it one block smaller than that. */
  lemma {:induction false} TooBigUnreachableIff(size: nat)
    requires size >= 1
    ensures (forall steps :: Run(size, steps).panic == NoPanic) <==> size > LOGSIZE
  {
    if size > LOGSIZE {
      forall steps ensures Run(size, steps).panic == NoPanic {
        NeverTooBig(size, steps);
      }
    } else {
      var steps := GuardFires(size);
      assert Run(size, steps).panic == TooBig;
    }
  }

  lemma {:induction false} GuardFires(size: nat) returns (steps: seq<Step>)
    requires 1 <= size <= LOGSIZE
    ensures Run(size, steps).panic == TooBig
  {
    var k := size - 1;
    var last := if k == LOGSIZE - 1 then 2 else Writer(k);
    var before := GreedyRun(size, k);
    steps := before + [Check(last)];
    RunSnoc(size, Start, before, Check(last));
    assert LeftAfter(k)[last].left > 0;
  }

  /** A log of LOGSIZE blocks or fewer can be overrun: two operations pass the guard one after the other
      when there is room for one block more, and only then record a block each. lh.n reaches the size
      of the log without a panic, where the guard promises at least one block less. */
  lemma {:induction false} RaceOverruns(size: nat) returns (steps: seq<Step>)
    requires 2 <= size <= LOGSIZE
    ensures var s := Run(size, steps);
            s.panic == NoPanic && s.phase == Idle && |s.blocks| == size && s.outstanding == 3
    ensures size == LOGSIZE ==> Run(size, steps).ops == [Op(0, false), Op(0, false), Op(0, false)]
  {
    var k := size - 2;
    var before := GreedyRun(size, k);
    ChecksRun(size, k);
    RecordsRun(size, k);
    steps := Joined(size, before, [Check(1), Check(2)], [Record(1, k), Record(2, k + 1)]);
  }

  lemma {:induction false} Joined(size: nat, a: seq<Step>, b: seq<Step>, c: seq<Step>) returns (steps: seq<Step>)
    ensures Run(size, steps) == RunFrom(size, RunFrom(size, Run(size, a), b), c)
  {
    RunConcat(size, Start, a, b);
    RunConcat(size, Start, a + b, c);
    steps := a + b + c;
  }

  function BothPassed(k: nat): seq<Op>
    requires k <= LOGSIZE - 2
  {
    var o := LeftAfter(k);
    [o[0], Op(o[1].left, true), Op(o[2].left, true)]
  }

  lemma {:induction false} ChecksRun(size: nat, k: nat)
    requires k == size - 2 && size <= LOGSIZE
    ensures RunFrom(size, GreedyState(k), [Check(1), Check(2)]) == GreedyState(k).(ops := BothPassed(k))
  {
    RunTwo(size, GreedyState(k), Check(1), Check(2));
    assert LeftAfter(k)[1].left > 0 && LeftAfter(k)[2].left > 0;
  }

  lemma {:induction false} RecordsRun(size: nat, k: nat)
    requires k == size - 2 && size <= LOGSIZE
    ensures var s := RunFrom(size, GreedyState(k).(ops := BothPassed(k)), [Record(1, k), Record(2, k + 1)]);
            && s.panic == NoPanic && s.phase == Idle && |s.blocks| == size && s.outstanding == 3
            && (size == LOGSIZE ==> s.ops == [Op(0, false), Op(0, false), Op(0, false)])
  {
    var g := GreedyState(k).(ops := BothPassed(k));
    RunTwo(size, g, Record(1, k), Record(2, k + 1));
    var a := Next(size, g, Record(1, k));
    assert k !in g.blocks && a.blocks == g.blocks + [k];
    var b := Next(size, a, Record(2, k + 1));
    assert k + 1 !in a.blocks && b.blocks == a.blocks + [k + 1];
    assert b.ops == [g.ops[0], Op(g.ops[1].left - 1, false), Op(g.ops[2].left - 1, false)];
  }

  /** lh.n stays below the size of the log in every run exactly when the log has more than LOGSIZE
      blocks, or none for data, where every call panics. */
  lemma {:induction false} NeverOverrunIff(size: nat)
    requires size >= 1
    ensures (forall steps :: |Run(size, steps).blocks| < size) <==> size > LOGSIZE || size == 1
  {
    if size > LOGSIZE {
      forall steps ensures |Run(size, steps).blocks| < size {
        RunsKeep(size, steps);
      }
    } else if size == 1 {
      forall steps ensures |Run(size, steps).blocks| < size {
        NoDataBlocks(steps);
      }
    } else {
      var steps := RaceOverruns(size);
      assert !(|Run(size, steps).blocks| < size);
    }
  }

  /** In a log of a header alone nobody gets past the guard. */
  lemma {:induction false} NoDataBlocks(steps: seq<Step>)
    ensures var s := Run(1, steps); s.blocks == [] && forall i | 0 <= i < |s.ops| :: !s.ops[i].passed
    decreases |steps|
  {
    if steps != [] {
      NoDataBlocks(steps[..|steps| - 1]);
    }
  }

  /** With the log that mkfs makes, a commit can find as many blocks listed as the cache has buffers,
      every one of them pinned: there is no buffer left for the first log block. */
  lemma {:induction false} CommitWithoutBuffers() returns (steps: seq<Step>)
    ensures var s := Run(LOGSIZE, steps);
            s.panic == NoPanic && s.phase == Committing && |s.blocks| == LOGSIZE == NBUF
  {
    var race := RaceOverruns(LOGSIZE);
    steps := race + [End(0)] + [End(0)] + [End(0)];
    RunSnoc(LOGSIZE, Start, race, End(0));
    RunSnoc(LOGSIZE, Start, race + [End(0)], End(0));
    RunSnoc(LOGSIZE, Start, race + [End(0)] + [End(0)], End(0));
  }
}
