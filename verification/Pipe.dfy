/** kernel/pipe.c: a ring of PIPESIZE bytes with two 32-bit counters. */
module Pipe {
  import opened Basics

  const PIPESIZE: nat := 512

  // How one stretch with the pipe's lock held ends: the caller sleeps (and starts over with
  // what is left), returns -1, or returns the number of bytes moved.
  datatype Outcome = Sleep(n: nat) | Killed | Moved(n: nat)

  // The slot of byte k.
  function Slot(k: nat): nat { k % PIPESIZE }

  lemma CounterSlot(k: nat)
    ensures k % UINT32 % PIPESIZE == Slot(k)
  {
    assert k == k / UINT32 * UINT32 + k % UINT32;
    assert k / UINT32 * UINT32 == (k / UINT32 * (UINT32 / PIPESIZE)) * PIPESIZE;
  }

  lemma CounterDiff(a: nat, b: nat)
    requires a <= b <= a + PIPESIZE
    ensures a % UINT32 == b % UINT32 <==> a == b
    ensures b % UINT32 == (a % UINT32 + PIPESIZE) % UINT32 <==> b == a + PIPESIZE
  {
    assert a == a / UINT32 * UINT32 + a % UINT32;
    assert b == b / UINT32 * UINT32 + b % UINT32;
    assert b / UINT32 == a / UINT32 || b / UINT32 == a / UINT32 + 1;
  }

  lemma SlotsDiffer(a: nat, b: nat)
    requires a < b < a + PIPESIZE
    ensures Slot(a) != Slot(b)
  {
  }

  lemma CounterNext(k: nat)
    ensures (k % UINT32 + 1) % UINT32 == (k + 1) % UINT32
  {
  }

  class PipeBuffer {
    const data: array<int>
    var nread: nat
    var nwrite: nat
    var readopen: bool
    var writeopen: bool
    ghost var written: seq<int>    // every byte that was ever put in
    ghost var taken: nat           // how many of them were taken out
    ghost var delivered: seq<int>  // every byte that reached a reader, in the order of the reads

    // In any interleaving of reads and writes what was delivered is a prefix of what was
    // written, and the rest is in the buffer.

    ghost predicate Valid()
      reads this, data
    {
      && data.Length == PIPESIZE && taken <= |written| <= taken + PIPESIZE
      && delivered == written[..taken]
      && nread == taken % UINT32 && nwrite == |written| % UINT32
      && forall k :: taken <= k < |written| ==> data[Slot(k)] == written[k]
    }

    // pipealloc
    constructor ()
      ensures Valid() && fresh(data) && written == [] && taken == 0 && readopen && writeopen
    {
      data := new int[PIPESIZE];
      nread, nwrite, readopen, writeopen, written, taken, delivered := 0, 0, true, true, [], 0, [];
    }

    // The result tells whether the page of the pipe is freed.
    method Close(writable: bool) returns (gone: bool)
      requires Valid()
      modifies this`readopen, this`writeopen
      ensures Valid() && gone == (!readopen && !writeopen)
      ensures if writable then !writeopen && readopen == old(readopen) else !readopen && writeopen == old(writeopen)
    {
      if writable {
        writeopen := false;
      } else {
        readopen := false;
      }
      gone := !readopen && !writeopen;
    }

    // pipewrite from one acquisition of the lock to its release; copyin works for the first
    // `good` bytes of src.  The bytes that go in are the next ones of src, as many as there is
    // room for.
    method Write(src: seq<int>, good: nat, killed: bool) returns (r: Outcome)
      requires Valid() && good <= |src|
      modifies this`nwrite, this`written, data
      ensures Valid()
      ensures r.Killed? <==> |src| > 0 && (!old(readopen) || killed)
      ensures r.Killed? ==> written == old(written)
      ensures !r.Killed? ==> r.n <= good && written == old(written) + src[..r.n]
      ensures r.Sleep? ==> r.n < |src| && |written| == taken + PIPESIZE
      ensures r.Moved? ==> r.n == good
    {
      var i := 0;
      while i < |src|
        invariant Valid() && i <= good && written == old(written) + src[..i]
        invariant i > 0 ==> readopen && !killed
      {
        if !readopen || killed {
          return Killed;
        }
        CounterDiff(taken, |written|);
        if nwrite == (nread + PIPESIZE) % UINT32 {
          return Sleep(i);
        }
        if i >= good {
          break;
        }
        Put(src[i]);
        i := i + 1;
      }
      r := Moved(i);
    }

    // data[nwrite++ % PIPESIZE] = ch
    method Put(ch: int)
      requires Valid() && |written| < taken + PIPESIZE
      modifies this`nwrite, this`written, data
      ensures Valid() && written == old(written) + [ch]
    {
      CounterSlot(|written|);
      CounterNext(|written|);
      forall k | taken <= k < |written| ensures Slot(k) != Slot(|written|) { SlotsDiffer(k, |written|); }
      data[nwrite % PIPESIZE] := ch;
      nwrite := (nwrite + 1) % UINT32;
      written := written + [ch];
    }

    // piperead from one acquisition of the lock to its release, with working copies to user
    // memory.  The bytes come out in the order in which they went in; 0 of them only when the
    // pipe is empty and nobody can write any more.
    method Read(n: nat, killed: bool) returns (r: Outcome, out: seq<int>)
      requires Valid()
      modifies this`nread, this`taken, this`delivered
      ensures delivered == old(delivered) + out
      ensures Valid() && taken == old(taken) + |out| && out == written[old(taken)..taken] && |out| <= n
      ensures r.Moved? <==> old(taken) < |written| || !writeopen
      ensures !r.Moved? ==> out == [] && r == if killed then Killed else Sleep(0)
      ensures r.Moved? ==> r.n == |out| && (|out| < n ==> taken == |written|)
      ensures r.Moved? && n > 0 && out == [] ==> |written| == taken && !writeopen
    {
      out := [];
      CounterDiff(taken, |written|);
      if nread == nwrite && writeopen {
        if killed {
          return Killed, [];
        }
        return Sleep(0), [];
      }
      var i := 0;
      while i < n
        invariant Valid() && i == |out| && i <= n && taken == old(taken) + i
        invariant out == written[old(taken)..taken] && delivered == old(delivered) + out
        invariant i == 0 ==> taken == |written| ==> !writeopen
      {
        CounterDiff(taken, |written|);
        if nread == nwrite {
          break;
        }
        CounterSlot(taken);
        CounterNext(taken);
        delivered := delivered + [data[nread % PIPESIZE]];
        out := out + [data[nread % PIPESIZE]];
        nread := (nread + 1) % UINT32;
        taken := taken + 1;
        i := i + 1;
      }
      r := Moved(i);
    }
  }
}
