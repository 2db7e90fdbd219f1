/** The ring buffer of a pipe, with 32-bit counters that wrap, refines a first-in first-out queue of bytes. */
module Pipe {
  import opened ProcTypes
  import opened Numbers
  import opened Params

  /** How a pass over the pipe ends: finished, about to sleep, or returning -1. */
  datatype Outcome = Finished | Blocked | Failed

  class Pipe {
    const data: array<Byte>
    var nread: nat
    var nwrite: nat
    var readopen: bool
    var writeopen: bool
    /** Every byte ever stored, and every byte ever read. */
    ghost var stored: seq<Byte>
    ghost var taken: seq<Byte>

    ghost predicate Valid()
      reads this, data
    {
      && data.Length == PIPESIZE
      && nread == |taken| % WORD && nwrite == |stored| % WORD
      && taken <= stored && |stored| - |taken| <= PIPESIZE
      && forall k :: |taken| <= k < |stored| ==> data[k % PIPESIZE] == stored[k]
    }

    constructor ()
      ensures Valid() && fresh(data)
      ensures stored == taken == [] && readopen && writeopen
    {
      data := new Byte[PIPESIZE](_ => 0);
      nread, nwrite := 0, 0;
      readopen, writeopen := true, true;
      stored, taken := [], [];
    }

    /** `pipewrite` from its i-th byte on, until it returns or sleeps on &p->nwrite; the process calls it again
        after it wakes. */
    method WriteFrom(addr: seq<Byte>, i: nat, killed: bool) returns (i': nat, outcome: Outcome)
      requires Valid() && i <= |addr|
      modifies this`nwrite, this`stored, data
      ensures Valid() && taken == old(taken)
      ensures i <= i' <= |addr| && stored == old(stored) + addr[i..i']
      ensures outcome == Finished <==> i' == |addr|
      ensures outcome != Finished ==> |stored| - |taken| == PIPESIZE
      ensures outcome == Failed ==> !readopen || killed
      ensures outcome == Blocked ==> readopen && !killed
    {
      i' := i;
      while i' < |addr|
        invariant Valid() && i <= i' <= |addr| && taken == old(taken)
        invariant stored == old(stored) + addr[i..i']
      {
        FullTest(|stored|, |taken|);
        if nwrite == (nread + PIPESIZE) % WORD {
          if !readopen || killed {
            return i', Failed;
          }
          return i', Blocked;
        }
        SlotIndex(|stored|);
        RingSlots(|taken|, |stored|);
        data[nwrite % PIPESIZE] := addr[i'];
        NextCounter(|stored|);
        nwrite := (nwrite + 1) % WORD;
        stored := stored + [addr[i']];
        i' := i' + 1;
      }
      outcome := Finished;
    }

    /** `piperead`, one pass: it sleeps on &p->nread, returns -1, or returns what it copied. */
    method Read(n: nat, killed: bool) returns (bytes: seq<Byte>, outcome: Outcome)
      requires Valid()
      modifies this`nread, this`taken
      ensures Valid() && stored == old(stored)
      ensures taken == old(taken) + bytes
      ensures outcome != Finished ==> bytes == [] && |stored| == |taken| && writeopen
      ensures outcome == Failed ==> killed
      ensures outcome == Blocked ==> !killed
      ensures outcome == Finished ==>
                && |bytes| == (if n <= |stored| - |old(taken)| then n else |stored| - |old(taken)|)
                && (|stored| == |old(taken)| ==> !writeopen)
    {
      bytes := [];
      EmptyTest(|stored|, |taken|);
      if nread == nwrite && writeopen {
        if killed {
          return bytes, Failed;
        }
        return bytes, Blocked;
      }
      outcome := Finished;
      while |bytes| < n
        invariant Valid() && stored == old(stored) && taken == old(taken) + bytes && |bytes| <= n
      {
        EmptyTest(|stored|, |taken|);
        if nread == nwrite {
          break;
        }
        SlotIndex(|taken|);
        bytes := bytes + [data[nread % PIPESIZE]];
        NextCounter(|taken|);
        nread := (nread + 1) % WORD;
        taken := taken + [stored[|taken|]];
      }
    }

    /** `pipeclose`; `freed` says that both ends are closed. */
    method Close(writable: bool) returns (freed: bool)
      requires Valid()
      modifies this`readopen, this`writeopen
      ensures Valid() && stored == old(stored) && taken == old(taken)
      ensures writeopen == (old(writeopen) && !writable) && readopen == (old(readopen) && writable)
      ensures freed == (!readopen && !writeopen)
    {
      if writable {
        writeopen := false;
      } else {
        readopen := false;
      }
      freed := !readopen && !writeopen;
    }
  }

  /** The wrapped counters tell a full ring from every other one. */
  lemma FullTest(w: nat, r: nat)
    requires r <= w <= r + PIPESIZE
    ensures w % WORD == (r % WORD + PIPESIZE) % WORD <==> w == r + PIPESIZE
  {
    var q := r / WORD;
    assert r + PIPESIZE == (r % WORD + PIPESIZE) + q * WORD;
    AddMultiple(r % WORD + PIPESIZE, q, WORD);
    if w % WORD == (r + PIPESIZE) % WORD {
      SameRemainder(w, r + PIPESIZE);
    }
  }

  lemma EmptyTest(w: nat, r: nat)
    requires r <= w <= r + PIPESIZE
    ensures r % WORD == w % WORD <==> w == r
  {
    if w % WORD == r % WORD {
      SameRemainder(r, w);
    }
  }

  lemma SameRemainder(a: nat, b: nat)
    requires a <= b <= a + PIPESIZE && a % WORD == b % WORD
    ensures a == b
  {
    SmallMultiple(b / WORD - a / WORD, WORD);
  }

  /** 2^32 is a multiple of the ring size, so wrapping does not move the next slot. */
  lemma SlotIndex(k: nat)
    ensures (k % WORD) % PIPESIZE == k % PIPESIZE
  {
    var q := k / WORD;
    assert k == k % WORD + (q * 8388608) * PIPESIZE;
    AddMultiple(k % WORD, q * 8388608, PIPESIZE);
  }

  lemma NextCounter(k: nat)
    ensures (k % WORD + 1) % WORD == (k + 1) % WORD
  {
    assert k + 1 == (k % WORD + 1) + (k / WORD) * WORD;
    AddMultiple(k % WORD + 1, k / WORD, WORD);
  }

  /** Fewer than PIPESIZE consecutive positions occupy slots other than the next one. */
  lemma RingSlots(r: nat, w: nat)
    requires r <= w < r + PIPESIZE
    ensures forall k :: r <= k < w ==> k % PIPESIZE != w % PIPESIZE
  {
    forall k | r <= k < w
      ensures k % PIPESIZE != w % PIPESIZE
    {
      if k % PIPESIZE == w % PIPESIZE {
        SmallMultiple(w / PIPESIZE - k / PIPESIZE, PIPESIZE);
      }
    }
  }
}
