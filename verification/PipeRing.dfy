/** The ring buffer of a pipe (pipe.c): 512 bytes addressed by two 32-bit counters that are never
    reset, only taken modulo the buffer size. */
module PipeRing {
  const PIPESIZE: nat := 512
  const WRAP: nat := 0x1_0000_0000

  type Data = d: seq<char> | |d| == PIPESIZE witness seq(PIPESIZE, _ => '\0')

  datatype Ring = Ring(data: Data, nread: nat, nwrite: nat)

  const Empty: Ring := Ring(seq(PIPESIZE, _ => '\0'), 0, 0)

  /** The test of pipewrite, in 32-bit arithmetic. */
  predicate IsFull(r: Ring) {
    r.nwrite == (r.nread + PIPESIZE) % WRAP
  }

  /** The test of piperead. */
  predicate IsEmpty(r: Ring) {
    r.nread == r.nwrite
  }

  function Put(r: Ring, c: char): Ring {
    Ring(r.data[r.nwrite % PIPESIZE := c], r.nread, (r.nwrite + 1) % WRAP)
  }

  function Front(r: Ring): char {
    r.data[r.nread % PIPESIZE]
  }

  function Drop(r: Ring): Ring {
    r.(nread := (r.nread + 1) % WRAP)
  }

  /** The buffer after the bytes `stored` went in and the first `taken` of them came out, whatever
      the counters have wrapped to. */
  ghost predicate Holds(r: Ring, stored: seq<char>, taken: nat) {
    && taken <= |stored| <= taken + PIPESIZE
    && r.nread == taken % WRAP
    && r.nwrite == |stored| % WRAP
    && forall k {:trigger stored[k]} :: taken <= k < |stored| ==> r.data[k % PIPESIZE] == stored[k]
  }

  lemma {:induction false} SlotOf(k: nat)
    ensures k % WRAP % PIPESIZE == k % PIPESIZE
  {
    var q := k / WRAP;
    assert k == (q * 0x80_0000) * PIPESIZE + k % WRAP;
  }

  lemma {:induction false} WrappedSum(x: nat, y: nat)
    ensures (x % WRAP + y) % WRAP == (x + y) % WRAP
  {
    assert x + y == x / WRAP * WRAP + (x % WRAP + y);
  }

  /** Two positions at most PIPESIZE apart use different slots and have different counters. */
  lemma {:induction false} Apart(x: nat, y: nat)
    requires x < y <= x + PIPESIZE
    ensures x % WRAP != y % WRAP
    ensures y < x + PIPESIZE ==> x % PIPESIZE != y % PIPESIZE
  {
  }

  /** Full and empty are decided correctly at any number of wraps. */
  lemma {:induction false} FullAndEmpty(r: Ring, stored: seq<char>, taken: nat)
    requires Holds(r, stored, taken)
    ensures IsFull(r) <==> |stored| == taken + PIPESIZE
    ensures IsEmpty(r) <==> |stored| == taken
  {
    WrappedSum(taken, PIPESIZE);
    if |stored| < taken + PIPESIZE { Apart(|stored|, taken + PIPESIZE); }
    if taken < |stored| { Apart(taken, |stored|); }
  }

  lemma {:induction false} PutStores(r: Ring, stored: seq<char>, taken: nat, c: char)
    requires Holds(r, stored, taken) && !IsFull(r)
    ensures Holds(Put(r, c), stored + [c], taken)
  {
    FullAndEmpty(r, stored, taken);
    SlotOf(|stored|);
    WrappedSum(|stored|, 1);
    var all, put := stored + [c], Put(r, c);
    forall k {:trigger all[k]} | taken <= k < |all| ensures put.data[k % PIPESIZE] == all[k] {
      if k < |stored| {
        Apart(k, |stored|);
        assert all[k] == stored[k];
      }
    }
  }

  lemma {:induction false} DropTakes(r: Ring, stored: seq<char>, taken: nat)
    requires Holds(r, stored, taken) && !IsEmpty(r)
    ensures taken < |stored| && Front(r) == stored[taken]
    ensures Holds(Drop(r), stored, taken + 1)
  {
    FullAndEmpty(r, stored, taken);
    SlotOf(taken);
    WrappedSum(taken, 1);
  }

  /** What the buffer says it holds, oldest byte first. */
  function Contents(r: Ring): seq<char> {
    seq((r.nwrite - r.nread) % WRAP, k requires k >= 0 => r.data[(r.nread + k) % WRAP % PIPESIZE])
  }

  lemma {:induction false} Difference(x: nat, y: nat)
    requires x <= y <= x + PIPESIZE
    ensures (y % WRAP - x % WRAP) % WRAP == y - x
  {
  }

  lemma {:induction false} ContentsAre(r: Ring, stored: seq<char>, taken: nat)
    requires Holds(r, stored, taken)
    ensures Contents(r) == stored[taken..] && |Contents(r)| <= PIPESIZE
  {
    Difference(taken, |stored|);
    var rest, c := stored[taken..], Contents(r);
    forall k | 0 <= k < |rest| ensures c[k] == rest[k] {
      WrappedSum(taken, k);
      SlotOf(taken + k);
      assert rest[k] == stored[taken + k];
    }
  }
}
