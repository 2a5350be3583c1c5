/**
 The ring buffer of pipe.c. Its counters are 32-bit words that wrap; ghost fields keep
 everything ever stored and how much of it has been taken out.
 */
module PipeRing {
  const PIPESIZE: nat := 512
  const WORDS: nat := 0x1_0000_0000

  type Byte = x: int | 0 <= x < 256
  type Word = x: int | 0 <= x < 0x1_0000_0000

  /** Two counts no further apart than the buffer are equal modulo 2^32 only if they are equal. */
  lemma WrappedEqual(a: nat, b: nat, d: nat)
    requires b <= a <= b + PIPESIZE && d <= PIPESIZE
    ensures a % WORDS == (b % WORDS + d) % WORDS <==> a == b + d
  {
  }

  /** Because the buffer's size divides 2^32, the wrapped counter finds the same place. */
  lemma SamePlace(n: nat)
    ensures n % WORDS % PIPESIZE == n % PIPESIZE
  {
  }

  lemma NextCount(n: nat)
    ensures (n % WORDS + 1) % WORDS == (n + 1) % WORDS
  {
  }

  lemma PlacesDiffer(a: nat, b: nat)
    requires a < b < a + PIPESIZE
    ensures a % PIPESIZE != b % PIPESIZE
  {
  }

  class Ring {
    const data: array<Byte>
    var nread: Word
    var nwrite: Word
    ghost var stored: seq<Byte>   // every byte ever stored
    ghost var taken: nat          // how many of them have been read

    ghost predicate Valid()
      reads this, data
    {
      && data.Length == PIPESIZE
      && taken <= |stored| <= taken + PIPESIZE
      && nwrite == |stored| % WORDS && nread == taken % WORDS
      && (forall k | taken <= k < |stored| :: data[k % PIPESIZE] == stored[k])
    }

    constructor ()
      ensures Valid() && stored == [] && taken == 0 && fresh(data)
    {
      data := new Byte[PIPESIZE](_ => 0);
      nread, nwrite := 0, 0;
      stored, taken := [], 0;
    }

    method Full() returns (full: bool)
      requires Valid()
      ensures full <==> |stored| == taken + PIPESIZE
    {
      WrappedEqual(|stored|, taken, PIPESIZE);
      full := nwrite == (nread + PIPESIZE) % WORDS;
    }

    method Empty() returns (empty: bool)
      requires Valid()
      ensures empty <==> |stored| == taken
    {
      WrappedEqual(|stored|, taken, 0);
      empty := nread == nwrite;
    }

    /** The loop of pipewrite up to the end of the data or a full buffer. */
    method Write(addr: seq<Byte>, from: nat) returns (i: nat)
      requires Valid() && from <= |addr|
      modifies this`nwrite, this`stored, data
      ensures Valid() && from <= i <= |addr| && stored == old(stored) + addr[from..i]
      ensures i == |addr| || |stored| == taken + PIPESIZE
    {
      i := from;
      while i < |addr|
        invariant Valid() && from <= i <= |addr| && stored == old(stored) + addr[from..i]
      {
        var full := Full();
        if full {
          return;
        }
        Store(addr[i]);
        i := i + 1;
      }
    }

    method Store(b: Byte)
      requires Valid() && |stored| < taken + PIPESIZE
      modifies this`nwrite, this`stored, data
      ensures Valid() && stored == old(stored) + [b]
    {
      SamePlace(|stored|);
      NextCount(|stored|);
      forall k | taken <= k < |stored|
        ensures k % PIPESIZE != |stored| % PIPESIZE
      {
        PlacesDiffer(k, |stored|);
      }
      data[nwrite % PIPESIZE] := b;
      nwrite := (nwrite + 1) % WORDS;
      stored := stored + [b];
    }

    /** The copying loop of piperead: up to n of the oldest bytes not yet read, in order. */
    method Read(n: nat) returns (got: seq<Byte>)
      requires Valid()
      modifies this`nread, this`taken
      ensures Valid() && taken == old(taken) + |got| && got == stored[old(taken)..taken]
      ensures |got| == if n < |stored| - old(taken) then n else |stored| - old(taken)
    {
      got := [];
      while |got| < n
        invariant Valid() && |got| <= n && taken == old(taken) + |got| && got == stored[old(taken)..taken]
        decreases n - |got|
      {
        var empty := Empty();
        if empty {
          return;
        }
        SamePlace(taken);
        NextCount(taken);
        got := got + [data[nread % PIPESIZE]];
        nread := (nread + 1) % WORDS;
        taken := taken + 1;
      }
    }
  }
}
