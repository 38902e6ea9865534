/** A pipe: a ring of 512 bytes between two counters that wrap at 2^32. */
module Pipe {

  const PIPESIZE := 512
  const WRAP := 0x1_0000_0000

  type Byte = b: int | 0 <= b < 256
  type Uint = n: int | 0 <= n < 0x1_0000_0000

  // ---------- the ring ----------

  /** nwrite - nread, as the 32-bit subtraction gives it. */
  function Occupancy(nread: Uint, nwrite: Uint): (n: nat) {
    (nwrite - nread) % WRAP
  }

  function Next(n: Uint): Uint {
    (n + 1) % WRAP
  }

  predicate RingOk(data: seq<Byte>, nread: Uint, nwrite: Uint) {
    |data| == PIPESIZE && Occupancy(nread, nwrite) <= PIPESIZE
  }

  /** The bytes in the pipe, oldest first. */
  function Queued(data: seq<Byte>, nread: Uint, nwrite: Uint): (q: seq<Byte>)
    requires RingOk(data, nread, nwrite)
    ensures |q| == Occupancy(nread, nwrite)
  {
    seq(Occupancy(nread, nwrite), k requires 0 <= k => data[(nread + k) % PIPESIZE])
  }

  lemma MoreBy(nread: Uint, nwrite: Uint)
    requires Occupancy(nread, nwrite) < PIPESIZE
    ensures Occupancy(nread, Next(nwrite)) == Occupancy(nread, nwrite) + 1
  {
  }

  lemma FewerBy(nread: Uint, nwrite: Uint)
    requires nread != nwrite
    ensures Occupancy(Next(nread), nwrite) == Occupancy(nread, nwrite) - 1
  {
  }

  /** The code's tests for an empty and a full pipe. */
  lemma Guards(nread: Uint, nwrite: Uint)
    requires Occupancy(nread, nwrite) <= PIPESIZE
    ensures nread == nwrite <==> Occupancy(nread, nwrite) == 0
    ensures nwrite == (nread + PIPESIZE) % WRAP <==> Occupancy(nread, nwrite) == PIPESIZE
  {
  }

  /** The wrap of the counters does not disturb the slots, because 512 divides 2^32. */
  lemma SlotOf(nread: Uint, nwrite: Uint, k: nat)
    requires k <= Occupancy(nread, nwrite) <= PIPESIZE
    ensures k == Occupancy(nread, nwrite) ==> (nread + k) % PIPESIZE == nwrite % PIPESIZE
    ensures k < Occupancy(nread, nwrite) < PIPESIZE ==> (nread + k) % PIPESIZE != nwrite % PIPESIZE
  {
  }

  lemma NextSlot(nread: Uint, k: nat)
    ensures (Next(nread) + k) % PIPESIZE == (nread + (k + 1)) % PIPESIZE
  {
  }

  lemma PutQueues(data: seq<Byte>, nread: Uint, nwrite: Uint, b: Byte)
    requires RingOk(data, nread, nwrite) && Occupancy(nread, nwrite) < PIPESIZE
    ensures RingOk(data[nwrite % PIPESIZE := b], nread, Next(nwrite))
    ensures Queued(data[nwrite % PIPESIZE := b], nread, Next(nwrite)) == Queued(data, nread, nwrite) + [b]
  {
    MoreBy(nread, nwrite);
    var n := Occupancy(nread, nwrite);
    var after := Queued(data[nwrite % PIPESIZE := b], nread, Next(nwrite));
    forall k: nat | k <= n
      ensures after[k] == (Queued(data, nread, nwrite) + [b])[k]
    {
      SlotOf(nread, nwrite, k);
    }
  }

  lemma TakeQueues(data: seq<Byte>, nread: Uint, nwrite: Uint)
    requires RingOk(data, nread, nwrite) && nread != nwrite
    ensures RingOk(data, Next(nread), nwrite)
    ensures Queued(data, nread, nwrite) == [data[nread % PIPESIZE]] + Queued(data, Next(nread), nwrite)
  {
    FewerBy(nread, nwrite);
    var q := Queued(data, Next(nread), nwrite);
    forall k: nat | k < |q|
      ensures q[k] == Queued(data, nread, nwrite)[k + 1]
    {
      NextSlot(nread, k);
    }
  }

  // ---------- the pipe ----------

  type Pid = nat

  /** How a stretch of pipewrite or piperead between taking and giving up the lock ends. */
  datatype Outcome = Done(n: nat) | Failed | Asleep

  class Ring {
    const data: array<Byte>
    var nread: Uint
    var nwrite: Uint
    var readopen: bool
    var writeopen: bool
    /** Who sleeps on the address of nread, and who on that of nwrite. */
    var readers: set<Pid>
    var writers: set<Pid>
    /** Every byte put in since the pipe was made, and every byte taken out, delivered or not. */
    ghost var put: seq<Byte>
    ghost var got: seq<Byte>

    /** What has come out, and then what is inside, is what went in. */
    ghost predicate Valid()
      reads this, data
    {
      RingOk(data[..], nread, nwrite) && got + Queued(data[..], nread, nwrite) == put
    }

    ghost function Contents(): (q: seq<Byte>)
      requires Valid()
      reads this, data
    {
      Queued(data[..], nread, nwrite)
    }

    /** Readers sleep only on an empty pipe that may still be written, writers only on a full one that may be read. */
    ghost predicate NoLostWakeup()
      requires Valid()
      reads this, data
    {
      && (readers != {} ==> |Contents()| == 0 && writeopen)
      && (writers != {} ==> |Contents()| == PIPESIZE && readopen)
    }

    constructor ()
      ensures Valid() && fresh(data) && Contents() == [] && readopen && writeopen
      ensures readers == writers == {} && put == got == [] && NoLostWakeup()
    {
      data := new Byte[PIPESIZE];
      nread, nwrite := 0, 0;
      readopen, writeopen := true, true;
      readers, writers := {}, {};
      put, got := [], [];
    }

    method Put(b: Byte)
      requires Valid() && |Contents()| < PIPESIZE
      modifies this`nwrite, this`put, data
      ensures Valid() && Contents() == old(Contents()) + [b] && put == old(put) + [b]
    {
      PutQueues(data[..], nread, nwrite, b);
      Regroup(got, Contents(), [b]);
      put := put + [b];
      ghost var after := data[..][nwrite % PIPESIZE := b];
      data[nwrite % PIPESIZE] := b;
      nwrite := Next(nwrite);
      assert data[..] == after;
    }

    method Take() returns (b: Byte)
      requires Valid() && Contents() != []
      modifies this`nread, this`got
      ensures Valid() && old(Contents()) == [b] + Contents() && got == old(got) + [b]
    {
      Guards(nread, nwrite);
      TakeQueues(data[..], nread, nwrite);
      b := data[nread % PIPESIZE];
      Regroup(got, [b], Queued(data[..], Next(nread), nwrite));
      got := got + [b];
      nread := Next(nread);
    }

    /** pipewrite from byte i on, up to its return or to a sleep: j is how far it got.
        The process is found killed at the bytes of killed, and cannot read its memory at those of faults. */
    method WriteSome(pid: Pid, src: seq<Byte>, i: nat, killed: set<nat>, faults: set<nat>)
      returns (j: nat, o: Outcome)
      requires Valid() && i <= |src|
      modifies this`nwrite, this`put, this`readers, this`writers, data
      ensures Valid() && i <= j <= |src| && Contents() == old(Contents()) + src[i..j] && put == old(put) + src[i..j]
      ensures i < j ==> readopen
      ensures forall k: nat :: i <= k < j ==> k !in killed && k !in faults
      ensures match o
              case Failed => j < |src| && (!readopen || j in killed)
              case Asleep => j < |src| && readopen && j !in killed && |Contents()| == PIPESIZE
              case Done(n) =>
                n == j && (j < |src| ==> readopen && j !in killed && |Contents()| < PIPESIZE && j in faults)
      ensures readers == if o == Failed then old(readers) else {}
      ensures writers == if o == Asleep then old(writers) + {pid} else old(writers)
      ensures old(NoLostWakeup()) ==>
                (NoLostWakeup() <==> !(old(readers) != {} && readopen && KilledMidway(|src|, i, killed, faults)))
    {
      j := i;
      while j < |src|
        invariant i <= j <= |src| && Valid()
        invariant Contents() == old(Contents()) + src[i..j] && put == old(put) + src[i..j]
        invariant |Contents()| == |old(Contents())| + (j - i)
        invariant i < j ==> readopen
        invariant forall k: nat :: i <= k < j ==> k !in killed && k !in faults
        invariant readers == old(readers) && writers == old(writers)
      {
        if !readopen || j in killed {
          o := Failed;
          assert i < j ==> KilledAt(|src|, i, killed, faults, j);
          return;
        }
        Guards(nread, nwrite);
        if nwrite == (nread + PIPESIZE) % WRAP {
          readers := {};
          writers := writers + {pid};
          o := Asleep;
          return;
        }
        if j in faults {
          break;
        }
        Put(src[j]);
        Longer(old(Contents()), src, i, j);
        Longer(old(put), src, i, j);
        j := j + 1;
      }
      if j < |src| {
        Guards(nread, nwrite);
      }
      readers := {};
      o := Done(j);
    }

    static lemma Longer(q: seq<Byte>, src: seq<Byte>, i: nat, j: nat)
      requires i <= j < |src|
      ensures q + src[i..j] + [src[j]] == q + src[i..j + 1]
    {
    }

    /** piperead from taking the lock up to its return or to a sleep.
        lost is the byte taken out of the ring when the copy to the reader's memory fails. */
    method ReadSome(pid: Pid, n: nat, killed: bool, faults: set<nat>)
      returns (out: seq<Byte>, lost: seq<Byte>, o: Outcome)
      requires Valid()
      modifies this`nread, this`got, this`readers, this`writers
      ensures Valid() && old(Contents()) == out + lost + Contents() && got == old(got) + (out + lost)
      ensures |out| <= n && |lost| <= 1 && forall k: nat :: k < |out| ==> k !in faults
      ensures lost != [] <==> exists k: nat :: k < n && k < |old(Contents())| && k in faults
      ensures lost != [] ==> |out| in faults
      ensures o.Done? && lost == [] ==> |out| == n || Contents() == []
      ensures o.Done? <==> old(Contents()) != [] || !writeopen
      ensures o.Done? ==> o.n == |out|
      ensures !o.Done? ==> out == [] && o == if killed then Failed else Asleep
      ensures readers == if o == Asleep then old(readers) + {pid} else old(readers)
      ensures writers == if o.Done? then {} else old(writers)
      ensures old(NoLostWakeup()) ==> NoLostWakeup()
    {
      out, lost := [], [];
      Guards(nread, nwrite);
      if nread == nwrite && writeopen {
        o := if killed then Failed else Asleep;
        readers := if killed then readers else readers + {pid};
        return;
      }
      assert old(NoLostWakeup()) ==> readers == {};
      var i := 0;
      while i < n
        invariant i <= n && |out| == i && lost == [] && Valid()
        invariant old(Contents()) == out + lost + Contents() && got == old(got) + (out + lost)
        invariant forall k: nat :: k < i ==> k !in faults
        invariant readers == old(readers) && writers == old(writers)
      {
        Guards(nread, nwrite);
        if nread == nwrite {
          break;
        }
        var ch := Take();
        Shift(out, lost, ch, Contents());
        ShiftGot(old(got), out, lost, ch);
        if i in faults {
          lost := [ch];
          break;
        }
        out := out + [ch];
        i := i + 1;
      }
      writers := {};
      o := Done(i);
    }

    static lemma Shift(out: seq<Byte>, lost: seq<Byte>, ch: Byte, q: seq<Byte>)
      requires lost == []
      ensures out + lost + ([ch] + q) == out + [ch] + q == out + [ch] + lost + q
    {
    }

    static lemma ShiftGot(got: seq<Byte>, out: seq<Byte>, lost: seq<Byte>, ch: Byte)
      requires lost == []
      ensures got + (out + lost) + [ch] == got + (out + [ch]) == got + (out + [ch] + lost)
    {
    }

    /** True if the pipe's page is given back. */
    method Close(writable: bool) returns (freed: bool)
      requires Valid()
      modifies this`readopen, this`writeopen, this`readers, this`writers
      ensures Valid() && Contents() == old(Contents())
      ensures writeopen == (old(writeopen) && !writable) && readopen == (old(readopen) && writable)
      ensures freed <==> !readopen && !writeopen
      ensures old(NoLostWakeup()) ==> NoLostWakeup()
    {
      if writable {
        writeopen := false;
        readers := {};
      } else {
        readopen := false;
        writers := {};
      }
      freed := !readopen && !writeopen;
    }
  }

  /** A writer that starts at byte i of n is found killed at byte k, and at none before, after putting at least
      one byte into an empty pipe; the bytes before k fit and can be read. */
  predicate KilledAt(n: nat, i: nat, killed: set<nat>, faults: set<nat>, k: nat) {
    && i < k < n && k in killed && k - i <= PIPESIZE
    && forall m: nat :: i <= m < k ==> m !in killed && m !in faults
  }

  ghost predicate KilledMidway(n: nat, i: nat, killed: set<nat>, faults: set<nat>) {
    exists k: nat :: KilledAt(n, i, killed, faults, k)
  }

  lemma Regroup(a: seq<Byte>, b: seq<Byte>, c: seq<Byte>)
    ensures a + b + c == a + (b + c)
  {
  }

  /** First in, first out: after any calls on a pipe, what has come out is a prefix of what went in, and the
      rest is inside. */
  lemma Fifo(r: Ring)
    requires r.Valid()
    ensures r.got <= r.put && r.put[|r.got|..] == r.Contents()
    ensures |r.put| == |r.got| + Occupancy(r.nread, r.nwrite) <= |r.got| + PIPESIZE
  {
  }

  // ---------- what goes wrong ----------

  /** A reader sleeps on the empty pipe; a writer puts one byte and is then found killed: the reader sleeps on
      beside the byte. */
  method LosesWakeup(b: Byte) returns (r: Ring)
    ensures fresh(r) && r.Valid() && r.Contents() == [b] && 1 in r.readers && !r.NoLostWakeup()
  {
    r := new Ring();
    var out, lost, o := r.ReadSome(1, 1, false, {});
    var j;
    j, o := r.WriteSome(2, [b, b], 0, {1}, {});
    assert KilledAt(2, 0, {1}, {}, 1);
  }

  /** One byte is written and read to memory that cannot be written: it is gone, and the count is 0. */
  method LosesByte(b: Byte) returns (r: Ring, o: Outcome)
    ensures fresh(r) && r.Valid() && o == Done(0) && r.put == r.got == [b] && r.Contents() == []
  {
    r := new Ring();
    var j;
    j, o := r.WriteSome(1, [b], 0, {}, {});
    assert j == 1;
    assert r.Contents() == [b];
    var out, lost;
    out, lost, o := r.ReadSome(2, 1, false, {0});
  }
}
