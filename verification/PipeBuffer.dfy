/** The pipe of pipe.c as one object, with the two loops that move bytes while the lock is held. */
module PipeBuffer {
  import opened PipeRing

  class PipeBuffer {
    const data: array<char>
    var nread: nat
    var nwrite: nat

    /** Every byte ever written to the pipe, and how many of them have been read. */
    ghost var stored: seq<char>
    ghost var taken: nat

    ghost predicate Valid()
      reads this, data
    {
      data.Length == PIPESIZE && Holds(Ring(data[..], nread, nwrite), stored, taken)
    }

    /** What is in the pipe, oldest byte first. */
    ghost function Contents(): (s: seq<char>)
      requires Valid()
      reads this, data
      ensures |s| <= PIPESIZE
    {
      stored[taken..]
    }

    constructor ()
      ensures Valid() && Contents() == [] && fresh(data)
    {
      data := new char[PIPESIZE](_ => '\0');
      nread, nwrite := 0, 0;
      stored, taken := [], 0;
    }

    /** The copy loop of pipewrite, from byte i until everything is written or the pipe is full. */
    method Fill(src: seq<char>, i: nat) returns (j: nat)
      requires Valid() && i <= |src|
      modifies this, data
      ensures Valid() && i <= j <= |src|
      ensures Contents() == old(Contents()) + src[i..j]
      ensures stored == old(stored) + src[i..j]
      ensures j < |src| ==> |Contents()| == PIPESIZE
    {
      j := i;
      while j < |src| && nwrite != (nread + PIPESIZE) % WRAP
        invariant Valid() && i <= j <= |src|
        invariant stored == old(stored) + src[i..j] && taken == old(taken)
      {
        ghost var ring := Ring(data[..], nread, nwrite);
        PutStores(ring, stored, taken, src[j]);
        data[nwrite % PIPESIZE] := src[j];
        nwrite := (nwrite + 1) % WRAP;
        assert data[..] == Put(ring, src[j]).data;
        stored := stored + [src[j]];
        j := j + 1;
      }
      FullAndEmpty(Ring(data[..], nread, nwrite), stored, taken);
    }

    /** The copy loop of piperead: at most n bytes, as many as there are. */
    method Drain(n: int) returns (got: seq<char>)
      requires Valid()
      modifies this
      ensures Valid() && stored == old(stored)
      ensures old(Contents()) == got + Contents()
      ensures |got| < n ==> Contents() == []
      ensures |got| <= n || got == []
    {
      got := [];
      while |got| < n && nread != nwrite
        invariant Valid() && stored == old(stored)
        invariant old(taken) <= taken <= |stored| && got == stored[old(taken)..taken]
        invariant |got| <= n || got == []
      {
        ghost var ring := Ring(data[..], nread, nwrite);
        DropTakes(ring, stored, taken);
        got := got + [data[nread % PIPESIZE]];
        nread := (nread + 1) % WRAP;
        taken := taken + 1;
      }
      FullAndEmpty(Ring(data[..], nread, nwrite), stored, taken);
    }
  }
}
