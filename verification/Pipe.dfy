/** The pipe of pipe.c: a ring of 512 bytes between any number of readers and writers.

    Each method is one critical section of the pipe's lock: a call runs until it returns
    or sleeps, and a caller that slept comes back with the rest of its work. The ghost
    histories `stored` and `delivered` are all bytes ever written and read, over all
    processes, in the order in which it happened.
 */
module Pipe {
  import opened Blocks

  const PIPESIZE: nat := 512
  const UINT: nat := 0x1_0000_0000

  /** How a critical section ends: with a result, or asleep until woken. */
  datatype Outcome = Done(n: nat) | Fail | Asleep

  /** Byte k of the history lies in slot k % 512, and the counters are the histories' lengths
      modulo 2^32. */
  ghost predicate Holds(data: seq<Byte>, nread: nat, nwrite: nat, stored: seq<Byte>, delivered: seq<Byte>) {
    && |data| == PIPESIZE
    && |delivered| <= |stored| <= |delivered| + PIPESIZE
    && delivered == stored[..|delivered|]
    && nread == |delivered| % 0x1_0000_0000 && nwrite == |stored| % 0x1_0000_0000
    && forall k :: |delivered| <= k < |stored| ==> data[k % 512] == stored[k]
  }

  lemma Wrapped(q: nat, x: nat)
    requires x < 0x1_0000_0000 + 513
    ensures (q * 0x1_0000_0000 + x) % 0x1_0000_0000 == if x < 0x1_0000_0000 then x else x - 0x1_0000_0000
  {
  }

  lemma Rounds(a: nat, x: nat)
    ensures (512 * a + x) % 512 == x % 512
  {
    assert 512 * a + x == 512 * (a + x / 512) + x % 512;
  }

  lemma Slots(n: nat)
    ensures (n % 0x1_0000_0000) % 512 == n % 512
  {
    Rounds(0x80_0000 * (n / 0x1_0000_0000), n % 0x1_0000_0000);
  }

  /** The tests on the wrapping counters are exact. */
  lemma Tests(data: seq<Byte>, nread: nat, nwrite: nat, stored: seq<Byte>, delivered: seq<Byte>)
    requires Holds(data, nread, nwrite, stored, delivered)
    ensures nread == nwrite <==> |stored| == |delivered|
    ensures nwrite == (nread + PIPESIZE) % UINT <==> |stored| == |delivered| + PIPESIZE
    ensures nread % 512 == |delivered| % 512 && nwrite % 512 == |stored| % 512
  {
    var d := |stored| - |delivered|;
    var q, r := |delivered| / 0x1_0000_0000, |delivered| % 0x1_0000_0000;
    assert |delivered| == q * 0x1_0000_0000 + r;
    assert |stored| == q * 0x1_0000_0000 + (r + d);
    Wrapped(q, r + d);
    Slots(|delivered|);
    Slots(|stored|);
  }

  lemma Apart(k: nat, n: nat)
    requires k < n < k + 512
    ensures k % 512 != n % 512
  {
  }

  lemma Successor(n: nat)
    ensures (n % 0x1_0000_0000 + 1) % 0x1_0000_0000 == (n + 1) % 0x1_0000_0000
  {
  }

  /** Storing a byte in a ring that is not full. */
  lemma Stored(data: seq<Byte>, nread: nat, nwrite: nat, stored: seq<Byte>, delivered: seq<Byte>, b: Byte)
    requires Holds(data, nread, nwrite, stored, delivered) && |stored| < |delivered| + PIPESIZE
    ensures Holds(data[nwrite % 512 := b], nread, (nwrite + 1) % UINT, stored + [b], delivered)
  {
    Tests(data, nread, nwrite, stored, delivered);
    var s := stored + [b];
    forall k | |delivered| <= k < |s|
      ensures data[nwrite % 512 := b][k % 512] == s[k]
    {
      if k < |stored| {
        Apart(k, |stored|);
      }
    }
    Successor(|stored|);
  }

  /** Taking the oldest byte. */
  lemma Taken(data: seq<Byte>, nread: nat, nwrite: nat, stored: seq<Byte>, delivered: seq<Byte>)
    requires Holds(data, nread, nwrite, stored, delivered) && |delivered| < |stored|
    ensures data[nread % 512] == stored[|delivered|]
    ensures Holds(data, (nread + 1) % UINT, nwrite, stored, delivered + [data[nread % 512]])
  {
    Tests(data, nread, nwrite, stored, delivered);
    Successor(|delivered|);
    assert stored[..|delivered| + 1] == stored[..|delivered|] + [stored[|delivered|]];
  }

  class Pipe {
    var data: seq<Byte>
    var nread: nat
    var nwrite: nat
    var readopen: bool
    var writeopen: bool
    var readers: set<nat>            // processes asleep on &nread
    var writers: set<nat>            // processes asleep on &nwrite
    ghost var stored: seq<Byte>
    ghost var delivered: seq<Byte>

    /** First in, first out: what has been read is a prefix of what has been written, the rest is in
        the ring; and writers sleep only on a full pipe that may still be read. */
    ghost predicate Valid()
      reads this
    {
      && Holds(data, nread, nwrite, stored, delivered)
      && (writers != {} ==> |stored| == |delivered| + PIPESIZE && readopen)
    }

    /** Readers sleep only on an empty pipe that may still be written. */
    ghost predicate ReadersOk()
      reads this
    {
      readers != {} ==> |stored| == |delivered| && writeopen
    }

    /** How many bytes can be stored. */
    ghost function Room(): int
      reads this
    {
      PIPESIZE - (|stored| - |delivered|)
    }

    constructor ()
      ensures Valid() && ReadersOk() && stored == [] && delivered == [] && readopen && writeopen
    {
      data := seq(PIPESIZE, _ => 0);
      nread, nwrite := 0, 0;
      readopen, writeopen := true, true;
      readers, writers := {}, {};
      stored, delivered := [], [];
    }

    /** pipewrite from byte i on, until it returns or sleeps; `from` is how far it has come. Nothing
        but bytes of addr is stored, in order, as many as there is room for. It sleeps or fails only when
        the pipe is full. Sleeping readers are left beside data exactly when there is more to write than a
        whole pipe, and the writer is killed or nobody can read. */
    method Write(addr: seq<Byte>, i: nat, pid: nat, killed: bool) returns (r: Outcome, from: nat)
      requires Valid() && i <= |addr|
      modifies this`data, this`nwrite, this`readers, this`writers, this`stored
      ensures Valid() && i <= from <= |addr| && stored == old(stored) + addr[i..from]
      ensures from == if |addr| - i <= old(Room()) then |addr| else i + old(Room())
      ensures r.Done? ==> r.n == |addr| && from == |addr|
      ensures !r.Done? ==> from < |addr| && |stored| == |delivered| + PIPESIZE
      ensures r == Fail <==> from < |addr| && (!readopen || killed)
      ensures r == Asleep ==> writers == old(writers) + {pid} && readers == {}
      ensures r.Done? ==> readers == {} && writers == old(writers)
      ensures r == Fail ==> readers == old(readers) && writers == old(writers)
      ensures old(ReadersOk()) ==>
                (ReadersOk() <==> !(old(readers) != {} && |addr| - i > PIPESIZE && (!readopen || killed)))
    {
      from := i;
      while from < |addr|
        invariant i <= from <= |addr| && Valid() && stored == old(stored) + addr[i..from]
        invariant readers == old(readers) && writers == old(writers)
        invariant |stored| <= |delivered| + PIPESIZE && (from > i ==> writers == {})
      {
        Tests(data, nread, nwrite, stored, delivered);
        if nwrite == (nread + PIPESIZE) % UINT {
          if !readopen || killed {
            return Fail, from;
          }
          readers := {};
          writers := writers + {pid};
          return Asleep, from;
        }
        Stored(data, nread, nwrite, stored, delivered, addr[from]);
        data := data[nwrite % 512 := addr[from]];
        nwrite := (nwrite + 1) % UINT;
        stored := stored + [addr[from]];
        from := from + 1;
      }
      readers := {};
      return Done(|addr|), from;
    }

    /** piperead until it returns or sleeps. It returns the next bytes in order, as many as there are up
        to n; so a read of a positive length returns nothing only when the write end is closed and
        the pipe is drained. */
    method Read(n: nat, pid: nat, killed: bool) returns (r: Outcome, out: seq<Byte>)
      requires Valid()
      modifies this`nread, this`readers, this`writers, this`delivered
      ensures Valid() && delivered == old(delivered) + out
      ensures r.Done? <==> !(old(|stored| == |delivered|) && writeopen)
      ensures !r.Done? ==> out == [] && writers == old(writers)
      ensures r == Fail <==> old(|stored| == |delivered|) && writeopen && killed
      ensures readers == if r == Asleep then old(readers) + {pid} else old(readers)
      ensures r.Done? ==> r.n == |out| && writers == {}
      ensures r.Done? ==> |out| == if n < |stored| - |old(delivered)| then n else |stored| - |old(delivered)|
      ensures r == Done(0) && n > 0 ==> !writeopen && |stored| == |delivered|
      ensures old(ReadersOk()) ==> ReadersOk()
    {
      out := [];
      Tests(data, nread, nwrite, stored, delivered);
      if nread == nwrite && writeopen {
        if killed {
          return Fail, [];
        }
        readers := readers + {pid};
        return Asleep, [];
      }
      var i := 0;
      while i < n
        invariant i <= n && i == |out| && delivered == old(delivered) + out
        invariant Holds(data, nread, nwrite, stored, delivered)
        invariant readers == old(readers)
      {
        Tests(data, nread, nwrite, stored, delivered);
        if nread == nwrite {
          break;
        }
        Taken(data, nread, nwrite, stored, delivered);
        out := out + [data[nread % 512]];
        delivered := delivered + [data[nread % 512]];
        nread := (nread + 1) % UINT;
        i := i + 1;
      }
      writers := {};
      return Done(i), out;
    }

    /** pipeclose; true when this was the last end, and the page is freed. */
    method Close(writable: bool) returns (last: bool)
      requires Valid() && (if writable then writeopen else readopen)
      modifies this`readopen, this`writeopen, this`readers, this`writers
      ensures Valid() && (old(ReadersOk()) ==> ReadersOk())
      ensures if writable then !writeopen && readopen == old(readopen) && readers == {} && writers == old(writers)
              else !readopen && writeopen == old(writeopen) && writers == {} && readers == old(readers)
      ensures last <==> !readopen && !writeopen
    {
      if writable {
        writeopen := false;
        readers := {};
      } else {
        readopen := false;
        writers := {};
      }
      last := !readopen && !writeopen;
    }
  }

  /** The wakeup that a failing writer skips: a reader is left asleep on a full pipe. */
  method LostReaderWakeup() returns (p: Pipe)
    ensures p.Valid() && !p.ReadersOk() && |p.stored| == |p.delivered| + PIPESIZE && p.writeopen
  {
    p := new Pipe();
    var r, out := p.Read(1, 1, false);
    var from;
    r, from := p.Write(seq(PIPESIZE + 1, _ => 0), 0, 2, true);
  }
}
