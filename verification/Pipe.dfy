/**
 pipe.c with the sleep and wakeup of proc.c: a ring of PIPESIZE bytes between any number of readers and writers.

 Every method is a stretch of code of one thread between two points where it may have to wait for p->lock or for
 ptable.lock, so a run of the kernel is a sequence of these calls in any order.
 */
module Pipe {

  const PIPESIZE: nat := 512
  const UINT: nat := 0x1_0000_0000

  /** &p->nread, where readers sleep, and &p->nwrite, where writers do. */
  datatype Chan = ReadChan | WriteChan

  /** A system call in progress: pipewrite with i bytes of src accepted, or piperead of at most n bytes. */
  datatype Call = WriteCall(src: seq<int>, i: nat) | ReadCall(n: nat)

  datatype Thread =
    | Idle
    | Running(call: Call)               // holds p->lock
    | Parking(chan: Chan, call: Call)   // holds p->lock, about to call sleep
    | Dozing(chan: Chan, call: Call)    // in sleep: holds ptable.lock, has released p->lock
    | Asleep(chan: Chan, call: Call)    // SLEEPING
    | Ready(call: Call)                 // woken, about to take p->lock again
    | Copied(bytes: seq<int>)           // piperead with its bytes, before its wakeup; holds p->lock
    | Closing(writable: bool)           // pipeclose before its wakeup; holds p->lock

  predicate HoldsPipe(x: Thread) {
    x.Running? || x.Parking? || x.Copied? || x.Closing?
  }

  /** Asleep on chan, or past the point where it would notice a change. */
  predicate Waits(x: Thread, chan: Chan) {
    (x.Dozing? || x.Asleep?) && x.chan == chan
  }

  predicate InCall(x: Thread, write: bool) {
    match x
    case Running(c) => c.WriteCall? == write
    case Parking(_, c) => c.WriteCall? == write
    case Dozing(_, c) => c.WriteCall? == write
    case Asleep(_, c) => c.WriteCall? == write
    case Ready(c) => c.WriteCall? == write
    case Copied(_) => !write
    case _ => false
  }

  // ---------------------------------------------------------------- the ring

  /** The counters are the totals modulo 2^32, and the ring holds the bytes between them. */
  ghost predicate Fifo(data: seq<int>, nread: nat, nwrite: nat, written: seq<int>, returned: seq<int>) {
    && |data| == PIPESIZE
    && |returned| <= |written| <= |returned| + PIPESIZE
    && nread == |returned| % UINT && nwrite == |written| % UINT
    && returned == written[..|returned|]
    && forall k {:trigger written[k]} :: |returned| <= k < |written| ==> data[k % PIPESIZE] == written[k]
  }

  /** The wrapping tests of the code mean empty and full. */
  lemma CountersMean(r: nat, w: nat)
    requires r <= w <= r + PIPESIZE
    ensures r % UINT == w % UINT <==> r == w
    ensures w % UINT == (r % UINT + PIPESIZE) % UINT <==> w == r + PIPESIZE
    ensures w % UINT % PIPESIZE == w % PIPESIZE && r % UINT % PIPESIZE == r % PIPESIZE
    ensures (w % UINT + 1) % UINT == (w + 1) % UINT && (r % UINT + 1) % UINT == (r + 1) % UINT
  {
    Wrapped(r, w - r);
    Wrapped(r, PIPESIZE);
    Wrapped(w, 1);
    Wrapped(r, 1);
    InRing(w);
    InRing(r);
  }

  /** Adding a little to a counter that wraps. */
  lemma Wrapped(r: nat, x: nat)
    requires x <= PIPESIZE
    ensures (r % UINT + x) % UINT == (r + x) % UINT
    ensures (r + x) % UINT == if r % UINT + x < UINT then r % UINT + x else r % UINT + x - UINT
  {
    var q := r / UINT;
    assert r == q * UINT + r % UINT;
    Remainder(q, r % UINT + x);
  }

  lemma Remainder(q: nat, z: nat)
    requires z < 2 * UINT
    ensures (q * UINT + z) % UINT == if z < UINT then z else z - UINT
    ensures z % UINT == if z < UINT then z else z - UINT
  {
  }

  lemma InRing(k: nat)
    ensures k % UINT % PIPESIZE == k % PIPESIZE
  {
    assert k == k / UINT * UINT + k % UINT;
    assert UINT == 0x80_0000 * PIPESIZE;
  }

  /** Two positions less than a ring apart do not share a cell. */
  lemma Cells(a: nat, b: nat)
    requires a < b < a + PIPESIZE
    ensures a % PIPESIZE != b % PIPESIZE
  {
  }

  lemma Accepted(data: seq<int>, nread: nat, nwrite: nat, written: seq<int>, returned: seq<int>, c: int)
    requires Fifo(data, nread, nwrite, written, returned) && |written| < |returned| + PIPESIZE
    ensures Fifo(data[nwrite % PIPESIZE := c], nread, (nwrite + 1) % UINT, written + [c], returned)
  {
    CountersMean(|returned|, |written|);
    forall k | |returned| <= k < |written| ensures k % PIPESIZE != |written| % PIPESIZE {
      Cells(k, |written|);
    }
  }

  lemma TakenOut(data: seq<int>, nread: nat, nwrite: nat, written: seq<int>, returned: seq<int>)
    requires Fifo(data, nread, nwrite, written, returned) && |written| > |returned|
    ensures data[nread % PIPESIZE] == written[|returned|]
    ensures Fifo(data, (nread + 1) % UINT, nwrite, written, returned + [data[nread % PIPESIZE]])
  {
    CountersMean(|returned|, |written|);
    assert written[..|returned| + 1] == written[..|returned|] + [written[|returned|]];
  }

  /** The bytes in the ring, oldest first: those accepted and not yet returned. */
  ghost function InPipe(written: seq<int>, returned: seq<int>): seq<int>
    requires |returned| <= |written|
  {
    written[|returned|..]
  }

  /** What reads have returned, then what the ring holds cell by cell, is what writes have put in, in order. */
  lemma NothingLost(data: seq<int>, nread: nat, nwrite: nat, written: seq<int>, returned: seq<int>)
    requires Fifo(data, nread, nwrite, written, returned)
    ensures returned + InPipe(written, returned) == written
    ensures forall j: nat {:trigger InPipe(written, returned)[j]} :: j < |InPipe(written, returned)| ==>
      InPipe(written, returned)[j] == data[(nread + j) % UINT % PIPESIZE]
  {
    forall j: nat | j < |InPipe(written, returned)|
      ensures InPipe(written, returned)[j] == data[(nread + j) % UINT % PIPESIZE]
    {
      Wrapped(|returned|, j);
      InRing(|returned| + j);
      assert InPipe(written, returned)[j] == written[|returned| + j];
    }
  }

  // ---------------------------------------------------------------- who may be waiting

  predicate Owns(x: Thread, chan: Chan, quiet: nat) {
    match chan
    case ReadChan => (x.Running? && quiet > 0) || x == Closing(true)
    case WriteChan => x.Copied? || x == Closing(false)
  }

  /** The holder of p->lock has yet to call wakeup(chan). */
  predicate Owes(th: seq<Thread>, quiet: seq<nat>, holder: int, chan: Chan) {
    0 <= holder < |th| && holder < |quiet| && Owns(th[holder], chan, quiet[holder])
  }

  ghost predicate SomeWait(th: seq<Thread>, chan: Chan) {
    exists t :: 0 <= t < |th| && Waits(th[t], chan)
  }

  /** Whoever waits has reason to, or is about to be woken. */
  ghost predicate Reasons(th: seq<Thread>, quiet: seq<nat>, holder: int, chan: Chan, reason: bool) {
    SomeWait(th, chan) ==> reason || Owes(th, quiet, holder, chan)
  }

  /** One thread holds each lock, and is where the locks say. */
  ghost predicate Locks(th: seq<Thread>, quiet: seq<nat>, holder: int, ptable: int) {
    && |quiet| == |th| && -1 <= holder < |th| && -1 <= ptable < |th|
    && (forall t: nat :: t < |th| ==> (HoldsPipe(th[t]) <==> t == holder))
    && (forall t: nat :: t < |th| ==> (th[t].Dozing? <==> t == ptable))
    && (forall t: nat :: t < |th| && quiet[t] > 0 ==> th[t].Running? && th[t].call.WriteCall?)
  }

  /**
   While a call is in progress its end of the pipe is open: the caller's own descriptor keeps it so. Readers wait on
   ReadChan.
   */
  ghost predicate EndsOpen(th: seq<Thread>, readopen: bool, writeopen: bool) {
    && (forall t: nat :: t < |th| ==> (InCall(th[t], true) ==> writeopen) && (InCall(th[t], false) ==> readopen))
    && (forall t: nat :: t < |th| && Waits(th[t], ReadChan) ==> InCall(th[t], false))
    && (forall t: nat :: t < |th| && th[t].Parking? ==> (th[t].chan == ReadChan <==> InCall(th[t], false)))
  }

  /** A thread about to sleep on a channel still has its reason. */
  ghost predicate Parked(th: seq<Thread>, readReason: bool, writeReason: bool) {
    forall t: nat :: t < |th| ==> (th[t].Parking? ==> if th[t].chan == ReadChan then readReason else writeReason)
  }

  function Woken(th: seq<Thread>, chan: Chan): (r: seq<Thread>)
    ensures |r| == |th|
  {
    seq(|th|, t requires 0 <= t < |th| => if th[t].Asleep? && th[t].chan == chan then Ready(th[t].call) else th[t])
  }

  class SharedPipe {
    const data: array<int>
    var nread: nat
    var nwrite: nat
    var readopen: bool
    var writeopen: bool
    var holder: int               // the thread in p->lock, or -1
    var ptable: int               // the thread in ptable.lock, or -1
    var th: seq<Thread>
    var killed: seq<bool>
    ghost var written: seq<int>   // every byte accepted
    ghost var returned: seq<int>  // every byte taken out by piperead
    ghost var quiet: seq<nat>     // bytes that a writer has put in since its last wakeup

    ghost predicate Empty()
      reads this
    {
      |written| == |returned|
    }

    ghost predicate AtCapacity()
      reads this
    {
      |written| == |returned| + PIPESIZE
    }

    ghost predicate Valid()
      reads this, data
    {
      && Fifo(data[..], nread, nwrite, written, returned)
      && |killed| == |th|
      && Locks(th, quiet, holder, ptable)
      && EndsOpen(th, readopen, writeopen)
      && Parked(th, Empty() && writeopen, AtCapacity() && readopen)
      && (Stranded() ==> true in killed)
      && Reasons(th, quiet, holder, WriteChan, AtCapacity() && readopen)
    }

    /** A reader waits although there is something to read or no one left to write, and nobody is about to wake it. */
    ghost predicate Stranded()
      reads this
    {
      !Reasons(th, quiet, holder, ReadChan, Empty() && writeopen)
    }

    /**
     No wakeup is lost unless somebody has been killed: a thread that waits while p->lock is free waits for what is
     not there, with someone left to bring it. So readers and writers are never asleep together. A kill can strand
     readers only; WriteGiveUp says when.
     */
    lemma WaitersHaveReason(t: nat)
      requires Valid() && holder == -1 && t < |th|
      ensures true !in killed && Waits(th[t], ReadChan) ==> Empty() && writeopen
      ensures Waits(th[t], WriteChan) ==> AtCapacity() && readopen
      ensures true !in killed ==> !(SomeWait(th, ReadChan) && SomeWait(th, WriteChan))
    {
    }

    /** pipealloc, for count threads */
    constructor (count: nat)
      ensures Valid() && holder == ptable == -1 && readopen && writeopen && written == returned == [] && !Stranded()
      ensures |th| == count && fresh(data) && forall t: nat :: t < count ==> th[t] == Idle && !killed[t]
    {
      data := new int[PIPESIZE];
      nread, nwrite, readopen, writeopen, holder, ptable := 0, 0, true, true, -1, -1;
      th, killed := seq(count, _ => Idle), seq(count, _ => false);
      written, returned, quiet := [], [], seq(count, _ => 0);
    }

    // ------------------------------------------------------------ wakeup and sleep

    /** wakeup(chan): all sleepers on chan become ready. */
    method Wakeup(chan: Chan)
      requires ptable == -1
      modifies `th
      ensures th == Woken(old(th), chan)
    {
      var t := 0;
      while t < |th|
        invariant t <= |th| == |old(th)|
        invariant forall u: nat :: u < t ==> th[u] == Woken(old(th), chan)[u]
        invariant forall u: nat :: t <= u < |th| ==> th[u] == old(th)[u]
      {
        if th[t].Asleep? && th[t].chan == chan {
          th := th[t := Ready(th[t].call)];
        }
        t := t + 1;
      }
    }

    /** sleep, first part: ptable.lock is taken before p->lock is released. */
    method SleepBegin(t: nat)
      requires Valid() && t < |th| && th[t].Parking? && ptable == -1
      modifies `th, `holder, `ptable
      ensures Valid() && holder == -1 && ptable == t && th == old(th)[t := Dozing(old(th)[t].chan, old(th)[t].call)]
      ensures Stranded() ==> old(Stranded())
    {
      th, ptable, holder := th[t := Dozing(th[t].chan, th[t].call)], t, -1;
    }

    /** sleep, second part, up to the scheduler's release of ptable.lock */
    method SleepEnd(t: nat)
      requires Valid() && t < |th| && ptable == t
      modifies `th, `ptable
      ensures Valid() && ptable == -1 && th == old(th)[t := Asleep(old(th)[t].chan, old(th)[t].call)]
      ensures Stranded() ==> old(Stranded())
    {
      th, ptable := th[t := Asleep(th[t].chan, th[t].call)], -1;
    }

    /** sleep, last part: a woken thread has p->lock again. */
    method SleepReturn(t: nat)
      requires Valid() && t < |th| && th[t].Ready? && holder == -1
      modifies `th, `holder
      ensures Valid() && holder == t && th == old(th)[t := Running(old(th)[t].call)]
      ensures Stranded() ==> old(Stranded())
    {
      th, holder := th[t := Running(th[t].call)], t;
    }

    /** kill of thread t */
    method Kill(t: nat)
      requires Valid() && t < |th| && ptable == -1
      modifies `th, `killed
      ensures Valid() && killed == old(killed)[t := true]
      ensures Stranded() ==> old(Stranded())
      ensures th == if old(th)[t].Asleep? then old(th)[t := Ready(old(th)[t].call)] else old(th)
    {
      hide Fifo;
      killed := killed[t := true];
      assert killed[t];
      if th[t].Asleep? {
        th := th[t := Ready(th[t].call)];
      }
    }

    // ------------------------------------------------------------ pipewrite

    /** A writer has an open descriptor. */
    method WriteBegin(t: nat, src: seq<int>)
      requires Valid() && t < |th| && th[t] == Idle && holder == -1 && writeopen
      modifies `th, `holder
      ensures Valid() && holder == t && th == old(th)[t := Running(WriteCall(src, 0))]
      ensures Stranded() ==> old(Stranded())
    {
      hide Fifo;
      th, holder := th[t := Running(WriteCall(src, 0))], t;
    }

    /** The loops of pipewrite until all of src is in the ring or the ring is full. */
    method WriteFill(t: nat)
      requires Valid() && t < |th| && th[t].Running? && th[t].call.WriteCall? && th[t].call.i <= |th[t].call.src|
      modifies this`nwrite, this`th, this`written, this`quiet, data
      ensures Valid() && holder == old(holder)
      ensures Stranded() ==> old(Stranded())
      ensures th[t].Running? && th[t].call.WriteCall? && th[t].call.src == old(th)[t].call.src
      ensures old(th)[t].call.i <= th[t].call.i <= |th[t].call.src| && th == old(th)[t := th[t]]
      ensures written == old(written) + th[t].call.src[old(th)[t].call.i..th[t].call.i]
      ensures th[t].call.i == |th[t].call.src| || AtCapacity()
      ensures quiet == old(quiet)[t := old(quiet)[t] + (th[t].call.i - old(th)[t].call.i)]
    {
      hide Fifo;
      var src, i := th[t].call.src, th[t].call.i;
      var j := Fill(src, i);
      th, quiet := th[t := Running(WriteCall(src, j))], quiet[t := quiet[t] + (j - i)];
    }

    method Fill(src: seq<int>, start: nat) returns (i: nat)
      requires Fifo(data[..], nread, nwrite, written, returned) && start <= |src|
      modifies this`nwrite, this`written, data
      ensures Fifo(data[..], nread, nwrite, written, returned)
      ensures start <= i <= |src| && written == old(written) + src[start..i] && |written| <= |returned| + PIPESIZE
      ensures i == |src| || AtCapacity()
    {
      hide Fifo;
      i := start;
      FifoCounts(data[..], nread, nwrite, written, returned);
      while i < |src| && nwrite != (nread + PIPESIZE) % UINT
        invariant start <= i <= |src|
        invariant Fifo(data[..], nread, nwrite, written, returned)
        invariant |returned| <= |written| <= |returned| + PIPESIZE && nread == |returned| % UINT
          && nwrite == |written| % UINT
        invariant written == old(written) + src[start..i]
      {
        CountersMean(|returned|, |written|);
        Accepted(data[..], nread, nwrite, written, returned, src[i]);
        data[nwrite % PIPESIZE] := src[i];
        nwrite := (nwrite + 1) % UINT;
        written := written + [src[i]];
        i := i + 1;
      }
      CountersMean(|returned|, |written|);
    }

    /** The ring is full, and the pipe has no reader or the writer has been killed: pipewrite returns -1. */
    method WriteGiveUp(t: nat)
      requires Valid() && t < |th| && th[t].Running? && th[t].call.WriteCall? && AtCapacity()
      requires !readopen || killed[t]
      modifies `th, `holder, `quiet
      ensures Valid() && holder == -1 && th == old(th)[t := Idle] && !Empty()
      ensures SomeWait(th, ReadChan) <==> SomeWait(old(th), ReadChan)
      ensures SomeWait(th, ReadChan) ==> killed[t] && (old(quiet)[t] > 0 || old(Stranded()))
      ensures Stranded() <==> SomeWait(th, ReadChan)
    {
      hide Fifo;
      SameWaiters(th, t, ReadChan);
      th, holder, quiet := th[t := Idle], -1, quiet[t := 0];
    }

    /** The ring is full and the writer will sleep: it wakes the readers first. */
    method WritePark(t: nat)
      requires Valid() && t < |th| && th[t].Running? && th[t].call.WriteCall? && AtCapacity()
      requires readopen && !killed[t] && ptable == -1
      modifies `th, `quiet
      ensures Valid() && holder == t
      ensures !Stranded()
      ensures th == Woken(old(th), ReadChan)[t := Parking(WriteChan, old(th)[t].call)] && quiet == old(quiet)[t := 0]
    {
      hide Fifo;
      Wakeup(ReadChan);
      th, quiet := th[t := Parking(WriteChan, th[t].call)], quiet[t := 0];
    }

    /** All of src is in: pipewrite wakes the readers and returns the number of bytes. */
    method WriteEnd(t: nat) returns (n: nat)
      requires Valid() && t < |th| && th[t].Running? && th[t].call.WriteCall? && th[t].call.i == |th[t].call.src|
        && ptable == -1
      modifies `th, `holder, `quiet
      ensures Valid() && holder == -1 && th == Woken(old(th), ReadChan)[t := Idle] && n == |old(th)[t].call.src|
      ensures !Stranded()
    {
      hide Fifo;
      Wakeup(ReadChan);
      n := |th[t].call.src|;
      th, holder, quiet := th[t := Idle], -1, quiet[t := 0];
    }

    // ------------------------------------------------------------ piperead

    method ReadBegin(t: nat, n: nat)
      requires Valid() && t < |th| && th[t] == Idle && holder == -1 && readopen
      modifies `th, `holder
      ensures Valid() && holder == t && th == old(th)[t := Running(ReadCall(n))]
      ensures Stranded() ==> old(Stranded())
    {
      hide Fifo;
      th, holder := th[t := Running(ReadCall(n))], t;
    }

    /** The pipe is empty and may get more: the reader will sleep, or return -1 if it has been killed. */
    method ReadPark(t: nat) returns (gaveUp: bool)
      requires Valid() && t < |th| && th[t].Running? && th[t].call.ReadCall? && nread == nwrite && writeopen
      modifies `th, `holder
      ensures Valid() && gaveUp == killed[t]
      ensures Stranded() ==> old(Stranded())
      ensures holder == if gaveUp then -1 else t
      ensures th == old(th)[t := if gaveUp then Idle else Parking(ReadChan, old(th)[t].call)]
    {
      FifoCounts(data[..], nread, nwrite, written, returned);
      CountersMean(|returned|, |written|);
      hide Fifo;
      if killed[t] {
        th, holder := th[t := Idle], -1;
        return true;
      }
      th := th[t := Parking(ReadChan, th[t].call)];
      gaveUp := false;
    }

    /** The copy loop of piperead: the oldest bytes, at most n. */
    method ReadCopy(t: nat)
      requires Valid() && t < |th| && th[t].Running? && th[t].call.ReadCall? && !(nread == nwrite && writeopen)
      modifies this`nread, this`th, this`returned
      ensures Valid() && holder == old(holder)
      ensures Stranded() ==> old(Stranded())
      ensures th[t].Copied? && th == old(th)[t := th[t]]
      ensures returned == old(returned) + th[t].bytes
      ensures |th[t].bytes| <= old(th)[t].call.n && (|th[t].bytes| == old(th)[t].call.n || Empty())
    {
      FifoCounts(data[..], nread, nwrite, written, returned);
      CountersMean(|returned|, |written|);
      hide Fifo;
      var addr := Copy(th[t].call.n);
      th := th[t := Copied(addr)];
    }

    method Copy(n: nat) returns (addr: seq<int>)
      requires Fifo(data[..], nread, nwrite, written, returned)
      modifies `nread, `returned
      ensures Fifo(data[..], nread, nwrite, written, returned)
      ensures returned == old(returned) + addr && |returned| <= |written|
      ensures |addr| <= n && (|addr| == n || Empty())
    {
      hide Fifo;
      addr := [];
      var i := 0;
      FifoCounts(data[..], nread, nwrite, written, returned);
      while i < n && nread != nwrite
        invariant i <= n && |addr| == i
        invariant Fifo(data[..], nread, nwrite, written, returned)
        invariant |returned| <= |written| <= |returned| + PIPESIZE && nread == |returned| % UINT
          && nwrite == |written| % UINT
        invariant returned == old(returned) + addr
      {
        CountersMean(|returned|, |written|);
        TakenOut(data[..], nread, nwrite, written, returned);
        addr := addr + [data[nread % PIPESIZE]];
        returned := returned + [data[nread % PIPESIZE]];
        nread := (nread + 1) % UINT;
        i := i + 1;
      }
      CountersMean(|returned|, |written|);
    }

    /** piperead wakes the writers and returns its bytes. */
    method ReadEnd(t: nat) returns (bytes: seq<int>)
      requires Valid() && t < |th| && th[t].Copied? && ptable == -1
      modifies `th, `holder
      ensures Valid() && holder == -1 && th == Woken(old(th), WriteChan)[t := Idle] && bytes == old(th)[t].bytes
      ensures Stranded() ==> old(Stranded())
    {
      hide Fifo;
      Wakeup(WriteChan);
      bytes := th[t].bytes;
      th, holder := th[t := Idle], -1;
    }

    // ------------------------------------------------------------ pipeclose

    /** The last descriptor of an end goes, so no call through it is in progress. */
    method CloseBegin(t: nat, writable: bool)
      requires Valid() && t < |th| && th[t] == Idle && holder == -1
      requires forall u: nat :: u < |th| ==> !InCall(th[u], writable)
      modifies `th, `holder, `readopen, `writeopen
      ensures Valid() && holder == t && th == old(th)[t := Closing(writable)]
      ensures Stranded() ==> old(Stranded())
      ensures writeopen == (old(writeopen) && !writable) && readopen == (old(readopen) && writable)
    {
      hide Fifo;
      if writable {
        writeopen := false;
      } else {
        readopen := false;
      }
      th, holder := th[t := Closing(writable)], t;
    }

    /** pipeclose wakes the other end; gone says that the pipe itself is freed. */
    method CloseEnd(t: nat) returns (gone: bool)
      requires Valid() && t < |th| && th[t].Closing? && ptable == -1
      modifies `th, `holder
      ensures Valid() && holder == -1
      ensures Stranded() ==> old(Stranded()) && !old(th)[t].writable
      ensures th == Woken(old(th), if old(th)[t].writable then ReadChan else WriteChan)[t := Idle]
      ensures gone <==> !readopen && !writeopen
    {
      hide Fifo;
      Wakeup(if th[t].writable then ReadChan else WriteChan);
      gone := !readopen && !writeopen;
      th, holder := th[t := Idle], -1;
    }
  }

  lemma FifoCounts(data: seq<int>, nread: nat, nwrite: nat, written: seq<int>, returned: seq<int>)
    requires Fifo(data, nread, nwrite, written, returned)
    ensures |data| == PIPESIZE && |returned| <= |written| <= |returned| + PIPESIZE
    ensures nread == |returned| % UINT && nwrite == |written| % UINT
  {
  }

  /**
   The exception is real: a reader sleeps on an empty pipe; a writer fills the ring from a longer string and is
   killed before it looks again; the reader sleeps on beside a full pipe whose lock is free.
   */
  method KilledWriterStrandsReader(src: seq<int>) returns (p: SharedPipe)
    requires |src| > PIPESIZE
    ensures p.Valid() && p.holder == p.ptable == -1 && |p.th| == 2
    ensures p.th[0].Asleep? && p.th[0].chan == ReadChan && p.AtCapacity() && p.Stranded()
  {
    hide Fifo, Locks, EndsOpen, Parked, Reasons;
    p := new SharedPipe(2);
    p.ReadBegin(0, 1);
    assert p.nread == p.nwrite by { FifoStart(p.data[..], p.nread, p.nwrite); }
    var gaveUp := p.ReadPark(0);
    p.SleepBegin(0);
    p.SleepEnd(0);
    p.WriteBegin(1, src);
    LocksShape(p.th, p.quiet, p.holder, p.ptable);
    p.WriteFill(1);
    FifoCounts(p.data[..], p.nread, p.nwrite, p.written, p.returned);
    p.Kill(1);
    assert Waits(p.th[0], ReadChan);
    p.WriteGiveUp(1);
  }

  /** A thread that was not waiting and becomes idle leaves the waiters as they are. */
  lemma SameWaiters(th: seq<Thread>, t: nat, chan: Chan)
    requires t < |th| && !Waits(th[t], chan)
    ensures SomeWait(th[t := Idle], chan) <==> SomeWait(th, chan)
  {
    var after := th[t := Idle];
    assert forall u: nat :: u < |th| ==> (Waits(after[u], chan) <==> Waits(th[u], chan));
  }

  lemma LocksShape(th: seq<Thread>, quiet: seq<nat>, holder: int, ptable: int)
    requires Locks(th, quiet, holder, ptable)
    ensures |quiet| == |th|
  {
  }

  lemma FifoStart(data: seq<int>, nread: nat, nwrite: nat)
    requires Fifo(data, nread, nwrite, [], [])
    ensures nread == nwrite
  {
  }
}
