/** pipe.c: a ring buffer with wrapping counters.  p->lock is held from one sleep()
    to the next, so every interleaving of readers and writers is a sequence of the
    calls below, in any order. */
module Pipes {
  import opened Arith

  const UINT := 0x1_0000_0000

  // ---------------------------------------------------------------- where bytes go

  /** The place of the k-th byte: the counter wraps at 2^32 and is then taken modulo PIPESIZE. */
  function Place(k: nat, size: nat): (i: nat)
    requires size > 0
    ensures i < size
  {
    k % UINT % size
  }

  lemma {:induction false} PlaceIs(k: nat, size: nat)
    requires size > 0 && UINT % size == 0
    ensures Place(k, size) == k % size
  {
    var c := UINT / size;
    DivBounds(UINT, size);
    DivBounds(k, UINT);
    DivBounds(k % UINT, size);
    var q, r := k / UINT, k % UINT;
    var e, f := r / size, r % size;
    assert q * UINT == (q * c) * size by { MulAssoc(q, c, size); }
    assert k == (q * c + e) * size + f by { assert (q * c + e) * size == (q * c) * size + e * size; }
    DivStep(q * c + e, size, f);
  }

  lemma {:induction false} MulAssoc(a: nat, b: nat, c: nat)
    ensures a * (b * c) == (a * b) * c
  {
  }

  /** Bytes less than `size` apart are in different places. */
  ghost predicate PlacesDiffer(size: nat)
    requires size > 0
  {
    forall a, b :: 0 <= a < b < a + size ==> Place(a, size) != Place(b, size)
  }

  lemma {:induction false} DifferMod(a: nat, b: nat, size: nat)
    requires size > 0 && a < b < a + size
    ensures a % size != b % size
  {
    DivBounds(a, size);
    DivBounds(b, size);
    MulStrict(a / size, b / size, size);
    MulMono(b / size, if b / size <= a / size then a / size else b / size, size);
  }

  /** The unread bytes never share a place if and only if PIPESIZE divides 2^32. */
  lemma {:induction false} PlacesDifferIff(size: nat)
    requires 0 < size < UINT
    ensures PlacesDiffer(size) <==> UINT % size == 0
  {
    if UINT % size == 0 {
      forall a, b | 0 <= a < b < a + size ensures Place(a, size) != Place(b, size) {
        PlaceIs(a, size);
        PlaceIs(b, size);
        DifferMod(a, b, size);
      }
    } else {
      DivBounds(UINT, size);
      var a := UINT / size * size;
      DivStep(UINT / size, size, 0);
      DivStep(0, size, 0);
      assert Place(a, size) == 0 && Place(UINT, size) == 0;
    }
  }

  // ---------------------------------------------------------------- the ring

  /** The ring holds the bytes that are accepted and not yet delivered, and the counters are right modulo 2^32. */
  ghost predicate RingOk(data: seq<int>, nread: int, nwrite: int, accepted: seq<int>, delivered: seq<int>) {
    && 0 < |data| < UINT && UINT % |data| == 0
    && |delivered| <= |accepted| <= |delivered| + |data| && delivered == accepted[..|delivered|]
    && nread == |delivered| % UINT && nwrite == |accepted| % UINT
    && (forall k :: |delivered| <= k < |accepted| ==> data[Place(k, |data|)] == accepted[k])
  }

  lemma {:induction false} CounterTests(r: nat, w: nat, size: nat)
    requires r <= w <= r + size && 0 < size < UINT
    ensures w % UINT == (r % UINT + size) % UINT <==> w == r + size
    ensures r % UINT == w % UINT <==> w == r
    ensures (w % UINT - r % UINT) % UINT == w - r
  {
  }

  /** The tests for a full and for an empty pipe are right although the counters wrap. */
  lemma {:induction false} Tests(data: seq<int>, nread: int, nwrite: int, accepted: seq<int>, delivered: seq<int>)
    requires RingOk(data, nread, nwrite, accepted, delivered)
    ensures nwrite == (nread + |data|) % UINT <==> |accepted| == |delivered| + |data|
    ensures nread == nwrite <==> |accepted| == |delivered|
    ensures (nwrite - nread) % UINT == |accepted| - |delivered| && |accepted| - |delivered| <= |data|
    ensures 0 <= nread && 0 <= nwrite && 0 < |data| < UINT
  {
    hide Place;
    CounterTests(|delivered|, |accepted|, |data|);
  }

  lemma {:induction false} PutOk(data: seq<int>, nread: int, nwrite: int, accepted: seq<int>, delivered: seq<int>, x: int)
    requires RingOk(data, nread, nwrite, accepted, delivered) && |accepted| < |delivered| + |data| && nwrite >= 0
    ensures 0 <= nwrite % |data| < |data| && RingOk(data[nwrite % |data| := x], nread, (nwrite + 1) % UINT, accepted + [x], delivered)
  {
    var size, w := |data|, |accepted|;
    PlacesDifferIff(size);
    assert nwrite % size == Place(w, size);
    assert (nwrite + 1) % UINT == (w + 1) % UINT by { Wrap(w); }
    hide Place;
    forall k | |delivered| <= k < w ensures Place(k, size) != Place(w, size) {
    }
  }

  lemma {:induction false} Wrap(w: nat)
    ensures (w % UINT + 1) % UINT == (w + 1) % UINT
  {
  }

  lemma {:induction false} GetOk(data: seq<int>, nread: int, nwrite: int, accepted: seq<int>, delivered: seq<int>)
    requires RingOk(data, nread, nwrite, accepted, delivered) && |accepted| > |delivered| && nread >= 0
    ensures 0 <= nread % |data| < |data| && data[nread % |data|] == accepted[|delivered|]
    ensures RingOk(data, (nread + 1) % UINT, nwrite, accepted, delivered + [accepted[|delivered|]])
  {
    assert nread % |data| == Place(|delivered|, |data|);
    assert (nread + 1) % UINT == (|delivered| + 1) % UINT by { Wrap(|delivered|); }
    hide Place;
  }

  // ---------------------------------------------------------------- the pipe

  /** WriteSleeps(i): asleep with i bytes written | Wrote(v): returns v. */
  datatype WriteResult = WriteSleeps(i: nat) | Wrote(value: int)

  /** Asleep | returns -1 | returns the number of bytes. */
  datatype ReadResult = ReadSleeps | Killed | Got(bytes: seq<int>)

  class KernelPipe {
    const data: array<int>
    var nread: int
    var nwrite: int
    var readopen: bool
    var writeopen: bool
    var readers: set<int>          // processes that sleep on &p->nread
    var writers: set<int>          // processes that sleep on &p->nwrite
    ghost var accepted: seq<int>   // all bytes written so far
    ghost var delivered: seq<int>  // all bytes read so far

    ghost predicate Valid()
      reads this, data
    {
      RingOk(data[..], nread, nwrite, accepted, delivered)
    }

    ghost predicate Full()
      reads this
    {
      |accepted| == |delivered| + data.Length
    }

    ghost predicate Empty()
      reads this
    {
      |accepted| == |delivered|
    }

    /** Readers sleep only on an empty pipe that can still be written, writers only on a full one that can still be read. */
    ghost predicate SleepersWait()
      reads this
    {
      (readers != {} ==> Empty() && writeopen) && (writers != {} ==> Full() && readopen)
    }

    /** pipealloc(), whose counters start at 0. */
    constructor (n: nat)
      requires 0 < n < UINT && UINT % n == 0
      ensures Valid() && SleepersWait() && data.Length == n && fresh(data) && accepted == delivered == [] && readopen && writeopen
      ensures readers == {} && writers == {}
    {
      data := new int[n];
      nread, nwrite, readopen, writeopen, readers, writers := 0, 0, true, true, {}, {};
      accepted, delivered := [], [];
    }

    /** p->data[p->nwrite++ % PIPESIZE] = x */
    method Put(x: int)
      requires Valid() && !Full()
      modifies this`nwrite, this`accepted, data
      ensures Valid() && accepted == old(accepted) + [x]
    {
      hide RingOk;
      Tests(data[..], nread, nwrite, accepted, delivered);
      PutOk(data[..], nread, nwrite, accepted, delivered, x);
      data[nwrite % data.Length] := x;
      nwrite := (nwrite + 1) % UINT;
      accepted := accepted + [x];
    }

    /** p->data[p->nread++ % PIPESIZE] */
    method Get() returns (x: int)
      requires Valid() && !Empty() && |accepted| > |delivered|
      modifies this`nread, this`delivered
      ensures Valid() && x == accepted[old(|delivered|)] && delivered == old(delivered) + [x]
    {
      hide RingOk;
      Tests(data[..], nread, nwrite, accepted, delivered);
      GetOk(data[..], nread, nwrite, accepted, delivered);
      x := data[nread % data.Length];
      nread := (nread + 1) % UINT;
      delivered := delivered + [x];
    }

    /** pipewrite() from byte i on: from acquiring p->lock, or waking up with it, until it sleeps or returns; `done` bytes
        have been accepted by then.  A writer that is killed after it filled an empty pipe leaves without waking its readers. */
    method Write(me: int, addr: seq<int>, i: nat, killed: bool) returns (r: WriteResult, done: nat)
      requires Valid() && i <= |addr|
      modifies this, data
      ensures Valid() && i <= done <= |addr| && accepted == old(accepted) + addr[i..done] && delivered == old(delivered)
      ensures readopen == old(readopen) && writeopen == old(writeopen)
      ensures r.WriteSleeps? ==> r.i == done < |addr| && Full() && readopen && !killed && readers == {} && writers == old(writers) + {me}
      ensures r == Wrote(-1) ==> done < |addr| && Full() && (!readopen || killed) && readers == old(readers)
      ensures r.Wrote? && r.value != -1 ==> r.value == |addr| == done && readers == {}
      ensures r.Wrote? ==> writers == old(writers)
      ensures old(SleepersWait()) ==> (SleepersWait() <==> old(readers) == {} || |addr| - i <= data.Length || (readopen && !killed))
    {
      hide RingOk;
      Tests(data[..], nread, nwrite, accepted, delivered);
      done := i;
      while done < |addr|
        invariant i <= done <= |addr| && Valid() && accepted == old(accepted) + addr[i..done] && delivered == old(delivered)
        invariant readopen == old(readopen) && writeopen == old(writeopen) && writers == old(writers) && readers == old(readers)
        invariant |accepted| <= |delivered| + data.Length && |accepted| == old(|accepted|) + (done - i)
      {
        Tests(data[..], nread, nwrite, accepted, delivered);
        if nwrite == (nread + data.Length) % UINT {
          if !readopen || killed { return Wrote(-1), done; }
          readers := {};
          writers := writers + {me};
          return WriteSleeps(done), done;
        }
        Put(addr[done]);
        done := done + 1;
      }
      readers := {};
      r := Wrote(|addr|);
    }

    /** piperead(), from acquiring p->lock, or waking up with it, until it sleeps or returns.  The bytes are the next ones that
        were written: n of them, or all there are; there are none only if the pipe is empty and its write end closed. */
    method Read(me: int, n: int, killed: bool) returns (r: ReadResult)
      requires Valid()
      modifies this
      ensures Valid() && accepted == old(accepted) && readopen == old(readopen) && writeopen == old(writeopen)
      ensures r.Got? <==> !old(Empty()) || !writeopen
      ensures !r.Got? ==> (r == Killed <==> killed) && delivered == old(delivered) && writers == old(writers)
      ensures readers == if r == ReadSleeps then old(readers) + {me} else old(readers)
      ensures r.Got? ==> delivered == old(delivered) + r.bytes && writers == {}
      ensures r.Got? ==> |r.bytes| <= (if n < 0 then 0 else n) && (|r.bytes| < n ==> Empty())
      ensures r.Got? && n > 0 && r.bytes == [] ==> Empty() && !writeopen
      ensures old(SleepersWait()) ==> SleepersWait()
    {
      hide RingOk;
      Tests(data[..], nread, nwrite, accepted, delivered);
      if nread == nwrite && writeopen {
        if killed { return Killed; }
        readers := readers + {me};
        return ReadSleeps;
      }
      var bytes := [];
      while |bytes| < n
        invariant Valid() && accepted == old(accepted) && delivered == old(delivered) + bytes && |delivered| <= |accepted|
        invariant |bytes| <= if n < 0 then 0 else n
        invariant readers == old(readers) && writers == old(writers) && readopen == old(readopen) && writeopen == old(writeopen)
      {
        Tests(data[..], nread, nwrite, accepted, delivered);
        if nread == nwrite { break; }
        Ordered(data[..], nread, nwrite, accepted, delivered);
        var x := Get();
        bytes := bytes + [x];
        Ordered(data[..], nread, nwrite, accepted, delivered);
      }
      writers := {};
      r := Got(bytes);
    }

    /** pipeclose(). */
    method Close(writable: bool)
      requires Valid()
      modifies this`readopen, this`writeopen, this`readers, this`writers
      ensures Valid() && (old(SleepersWait()) ==> SleepersWait())
      ensures readopen == (old(readopen) && writable) && writeopen == (old(writeopen) && !writable)
      ensures if writable then readers == {} && writers == old(writers) else writers == {} && readers == old(readers)
    {
      if writable {
        writeopen := false;
        readers := {};
      } else {
        readopen := false;
        writers := {};
      }
    }
  }

  lemma {:induction false} Ordered(data: seq<int>, nread: int, nwrite: int, accepted: seq<int>, delivered: seq<int>)
    requires RingOk(data, nread, nwrite, accepted, delivered)
    ensures |delivered| <= |accepted| <= |delivered| + |data|
  {
  }

  /** A reader sleeps although there are bytes to read: it went to sleep on the empty pipe, and the writer that filled the
      pipe was killed before it could wake the reader. */
  method KilledWriter() returns (p: KernelPipe)
    ensures fresh(p) && p.Valid() && p.readers == {1} && !p.Empty() && !p.SleepersWait()
  {
    p := new KernelPipe(2);
    var r := p.Read(1, 1, false);
    var w, done := p.Write(2, [10, 11, 12], 0, true);
  }
}
