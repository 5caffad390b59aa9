/**
 The buffer cache of bio.c with its sleep locks (sleeplock.c) over the disk of memide.c.

 Every method is one stretch of code that runs under bcache.lock or under a buffer's own locks, so a run of the
 kernel is a sequence of these calls by the processes in any order. Buffers are named by their index; index HEAD is
 bcache.head.
 */
module Bio {
  import opened Blocks

  const HEAD: nat := NBUF
  const ROOTDEV: nat := 1

  // ---------------------------------------------------------------- the ring through head

  /** The k-th buffer after head; head itself at either end. */
  function At(order: seq<nat>, k: int): nat {
    if 0 <= k < |order| then order[k] else HEAD
  }

  ghost predicate Link(order: seq<nat>, next: seq<nat>, prev: seq<nat>, k: int)
    requires |next| == |prev| == NBUF + 1
  {
    && At(order, k) <= HEAD && At(order, k + 1) <= HEAD
    && next[At(order, k)] == At(order, k + 1)
    && prev[At(order, k + 1)] == At(order, k)
  }

  /** pos tells where in the list each buffer is, so none is there twice. */
  ghost predicate Indexed(order: seq<nat>, pos: map<nat, nat>) {
    && (forall k: nat :: k < |order| ==> order[k] < NBUF && order[k] in pos && pos[order[k]] == k)
    && (forall x :: x in pos ==> pos[x] < |order| && order[pos[x]] == x)
  }

  /** The list is circular through head, and next and prev are inverse to each other. */
  ghost predicate Ring(order: seq<nat>, pos: map<nat, nat>, next: seq<nat>, prev: seq<nat>) {
    && |next| == |prev| == NBUF + 1
    && Indexed(order, pos)
    && forall k {:trigger Link(order, next, prev, k)} :: -1 <= k < |order| ==> Link(order, next, prev, k)
  }

  ghost predicate All(pos: map<nat, nat>) {
    forall b: nat {:trigger b in pos} :: b < NBUF <==> b in pos
  }

  function Without(order: seq<nat>, p: nat): seq<nat>
    requires p < |order|
  {
    order[..p] + order[p + 1..]
  }

  function PosWithout(pos: map<nat, nat>, b: nat): map<nat, nat>
    requires b in pos
  {
    map x | x in pos && x != b :: if pos[x] > pos[b] then pos[x] - 1 else pos[x]
  }

  function PosPushed(pos: map<nat, nat>, b: nat): map<nat, nat> {
    (map x | x in pos :: pos[x] + 1)[b := 0]
  }

  lemma Unindexed(order: seq<nat>, pos: map<nat, nat>, b: nat)
    requires Indexed(order, pos) && b in pos
    ensures Indexed(Without(order, pos[b]), PosWithout(pos, b)) && b !in Without(order, pos[b])
  {
  }

  lemma PushIndexed(order: seq<nat>, pos: map<nat, nat>, b: nat)
    requires Indexed(order, pos) && b !in pos && b < NBUF
    ensures Indexed([b] + order, PosPushed(pos, b))
  {
  }

  /** The first two assignments of brelse take b out of the ring. */
  lemma Unlinked(order: seq<nat>, pos: map<nat, nat>, next: seq<nat>, prev: seq<nat>, b: nat)
    requires Ring(order, pos, next, prev) && b in pos
    ensures b < NBUF && next[b] <= HEAD && prev[b] <= HEAD
    ensures Ring(Without(order, pos[b]), PosWithout(pos, b), next[prev[b] := next[b]], prev[next[b] := prev[b]])
  {
    Unindexed(order, pos, b);
    var p: int := pos[b];
    var o := Without(order, pos[b]);
    assert Link(order, next, prev, p) && Link(order, next, prev, p - 1);
    var next', prev' := next[prev[b] := next[b]], prev[next[b] := prev[b]];
    forall k | -1 <= k < |o| ensures Link(o, next', prev', k) {
      assert Link(order, next, prev, if k < p then k else k + 1);
      assert At(o, k) == At(order, if k < p then k else k + 1);
      assert At(o, k + 1) == At(order, if k + 1 < p then k + 1 else k + 2);
    }
  }

  /** The four assignments that put b behind head. */
  lemma Pushed(order: seq<nat>, pos: map<nat, nat>, next: seq<nat>, prev: seq<nat>, b: nat)
    requires Ring(order, pos, next, prev) && b !in pos && b < NBUF
    ensures next[HEAD] <= HEAD
    ensures Ring([b] + order, PosPushed(pos, b), next[b := next[HEAD]][HEAD := b], prev[b := HEAD][next[HEAD] := b])
  {
    PushIndexed(order, pos, b);
    var o := [b] + order;
    assert Link(order, next, prev, -1);
    var next', prev' := next[b := next[HEAD]][HEAD := b], prev[b := HEAD][next[HEAD] := b];
    forall k | -1 <= k < |o| ensures Link(o, next', prev', k) {
      if k >= 0 {
        assert Link(order, next, prev, k - 1);
        assert At(o, k + 1) == At(order, k);
        if k >= 1 {
          assert At(o, k) == At(order, k - 1);
        }
      }
    }
  }

  /** On the ring of all buffers next and prev undo each other, at head too. */
  lemma LinksInverse(order: seq<nat>, pos: map<nat, nat>, next: seq<nat>, prev: seq<nat>, b: nat)
    requires Ring(order, pos, next, prev) && All(pos) && b <= HEAD
    ensures next[b] <= HEAD && prev[next[b]] == b
    ensures prev[b] <= HEAD && next[prev[b]] == b
  {
    if b == HEAD {
      assert Link(order, next, prev, -1) && Link(order, next, prev, |order| - 1);
    } else {
      assert Link(order, next, prev, pos[b] as int) && Link(order, next, prev, pos[b] as int - 1);
    }
  }

  // ---------------------------------------------------------------- recency

  ghost predicate Newer(order: seq<nat>, stamp: seq<nat>, i: nat, j: nat)
    requires i < |order| && j < |order|
  {
    order[i] < |stamp| && order[j] < |stamp| && stamp[order[i]] > stamp[order[j]]
  }

  /** The list goes from the buffer released last to the one released longest ago. */
  ghost predicate ByRecency(order: seq<nat>, stamp: seq<nat>, clock: nat) {
    && |stamp| == NBUF
    && (forall k: nat :: k < |order| ==> order[k] < NBUF && stamp[order[k]] <= clock)
    && forall i: nat, j: nat {:trigger Newer(order, stamp, i, j)} :: i < j < |order| ==> Newer(order, stamp, i, j)
  }

  lemma RecencyWithout(order: seq<nat>, stamp: seq<nat>, clock: nat, p: nat)
    requires ByRecency(order, stamp, clock) && p < |order|
    ensures ByRecency(Without(order, p), stamp, clock)
  {
    var o := Without(order, p);
    forall i: nat, j: nat | i < j < |o| ensures Newer(o, stamp, i, j) {
      assert Newer(order, stamp, if i < p then i else i + 1, if j < p then j else j + 1);
    }
  }

  lemma RecencyPushed(order: seq<nat>, stamp: seq<nat>, clock: nat, b: nat)
    requires ByRecency(order, stamp, clock) && b < NBUF && b !in order
    ensures ByRecency([b] + order, stamp[b := clock + 1], clock + 1)
  {
    var o, s := [b] + order, stamp[b := clock + 1];
    forall i: nat, j: nat | i < j < |o| ensures Newer(o, s, i, j) {
      if i > 0 {
        assert Newer(order, stamp, i - 1, j - 1);
      }
    }
  }

  // ---------------------------------------------------------------- identity and contents

  type Key = (nat, nat)   // dev and blockno

  /** At most one buffer for a block of a real device; where finds it. Device 0 is what binit leaves. */
  ghost predicate Unique(dev: seq<nat>, blockno: seq<nat>, where: map<Key, nat>) {
    && |dev| == |blockno| == NBUF
    && (forall b: nat :: b < NBUF && dev[b] != 0 ==> (dev[b], blockno[b]) in where && where[(dev[b], blockno[b])] == b)
    && (forall q :: q in where ==> q.0 != 0 && where[q] < NBUF && dev[where[q]] == q.0 && blockno[where[q]] == q.1)
  }

  /** Two buffers never stand for the same block of a real device. */
  lemma OneBufferPerBlock(dev: seq<nat>, blockno: seq<nat>, where: map<Key, nat>, b: nat, c: nat)
    requires Unique(dev, blockno, where) && b < NBUF && c < NBUF
    requires dev[b] == dev[c] != 0 && blockno[b] == blockno[c]
    ensures b == c
  {
    assert where[(dev[b], blockno[b])] == b && where[(dev[c], blockno[c])] == c;
  }

  /** A buffer that is neither logged nor being changed holds what the disk holds. */
  ghost predicate Clean(disk: seq<Block>, dev: seq<nat>, blockno: seq<nat>, valid: seq<bool>, dirty: seq<bool>,
          data: seq<Block>, changed: seq<bool>) {
    && |dev| == |blockno| == |valid| == |dirty| == |data| == |changed| == NBUF
    && forall b: nat :: b < NBUF ==>
         && (dirty[b] ==> valid[b])
         && (changed[b] ==> valid[b])
         && (valid[b] ==> dev[b] == ROOTDEV && blockno[b] < |disk|)
         && (valid[b] && !dirty[b] && !changed[b] ==> data[b] == disk[blockno[b]])
  }

  /**
   seen is what a buffer counts for while its holder changes it: what it held when it was last read, logged or
   written. Without a change that is its data, and unless it is dirty it is on disk.
   */
  ghost predicate Shows(disk: seq<Block>, blockno: seq<nat>, valid: seq<bool>, dirty: seq<bool>, data: seq<Block>,
          changed: seq<bool>, seen: seq<Block>) {
    && |blockno| == |valid| == |dirty| == |data| == |changed| == |seen| == NBUF
    && forall b: nat :: b < NBUF && valid[b] ==>
         && (!changed[b] ==> seen[b] == data[b])
         && (!dirty[b] ==> blockno[b] < |disk| && seen[b] == disk[blockno[b]])
  }

  /** refcnt counts the holder of a buffer's lock and the processes on their way to it or from it. */
  ghost predicate Counted(refcnt: seq<nat>, locked: seq<bool>, passing: seq<nat>, changed: seq<bool>) {
    && |refcnt| == |locked| == |passing| == |changed| == NBUF
    && forall b: nat :: b < NBUF ==>
         && refcnt[b] == passing[b] + (if locked[b] then 1 else 0)
         && (changed[b] ==> locked[b])
  }

  /** Nobody sleeps on a buffer's lock that is free. */
  ghost predicate Awaited(locked: seq<bool>, sleepers: seq<set<nat>>) {
    && |locked| == |sleepers| == NBUF
    && forall b: nat :: b < NBUF && sleepers[b] != {} ==> locked[b]
  }

  /** The array of blocks that the cache and the disk stand for. */
  ghost function Latest(disk: seq<Block>, where: map<Key, nat>, valid: seq<bool>, data: seq<Block>, n: nat): Block
    requires n < |disk| && |valid| == |data| == NBUF
    requires forall q :: q in where ==> where[q] < NBUF
  {
    if (ROOTDEV, n) in where && valid[where[(ROOTDEV, n)]] then data[where[(ROOTDEV, n)]] else disk[n]
  }

  /** The whole array. */
  ghost function AllLatest(disk: seq<Block>, where: map<Key, nat>, valid: seq<bool>, data: seq<Block>): (c: seq<Block>)
    requires |valid| == |data| == NBUF
    requires forall q :: q in where ==> where[q] < NBUF
    ensures |c| == |disk|
  {
    seq(|disk|, n requires 0 <= n < |disk| => Latest(disk, where, valid, data, n))
  }

  /** where after buffer b is given to another block. */
  function Moved(where: map<Key, nat>, was: Key, b: nat, will: Key): map<Key, nat> {
    var rest := if was.0 != 0 then where - {was} else where;
    if will.0 != 0 then rest[will := b] else rest
  }

  lemma MovedUnique(dev: seq<nat>, blockno: seq<nat>, where: map<Key, nat>, b: nat, q: Key)
    requires Unique(dev, blockno, where) && b < NBUF && q !in where
    ensures Unique(dev[b := q.0], blockno[b := q.1], Moved(where, (dev[b], blockno[b]), b, q))
  {
  }

  /** Recycling a clean buffer loses nothing. */
  lemma RecycleKeepsLatest(disk: seq<Block>, dev: seq<nat>, blockno: seq<nat>, where: map<Key, nat>,
          valid: seq<bool>, dirty: seq<bool>,
                           data: seq<Block>, changed: seq<bool>, b: nat, q: Key, n: nat)
    requires Unique(dev, blockno, where) && Clean(disk, dev, blockno, valid, dirty, data, changed)
    requires b < NBUF && !dirty[b] && !changed[b] && q !in where && n < |disk|
    ensures forall k :: k in Moved(where, (dev[b], blockno[b]), b, q) ==>
      Moved(where, (dev[b], blockno[b]), b, q)[k] < NBUF
    ensures Latest(disk, Moved(where, (dev[b], blockno[b]), b, q), valid[b := false], data, n)
      == Latest(disk, where, valid, data, n)
  {
    MovedUnique(dev, blockno, where, b, q);
  }

  /** A buffer that bget may recycle. */
  predicate Idle(refcnt: seq<nat>, dirty: seq<bool>, b: nat)
    requires b < NBUF == |refcnt| == |dirty|
  {
    refcnt[b] == 0 && !dirty[b]
  }

  // ---------------------------------------------------------------- the cache

  class BufferCache {
    const size: nat                 // disksize of memide.c
    var disk: seq<Block>            // memdisk
    var next: seq<nat>
    var prev: seq<nat>
    var dev: seq<nat>
    var blockno: seq<nat>
    var refcnt: seq<nat>
    var valid: seq<bool>            // flags & B_VALID
    var dirty: seq<bool>            // flags & B_DIRTY
    var data: seq<Block>
    var locked: seq<bool>           // lock.locked
    var pid: seq<nat>               // lock.pid
    var sleepers: seq<set<nat>>     // the processes that sleep on each buffer's lock

    ghost var order: seq<nat>       // the buffers from head.next to head.prev
    ghost var pos: map<nat, nat>
    ghost var stamp: seq<nat>       // when each buffer was last released by its last user
    ghost var clock: nat
    ghost var where: map<Key, nat>
    ghost var passing: seq<nat>     // references held by processes that do not hold the lock
    ghost var changed: seq<bool>    // the lock holder changed the data and has not logged or written it yet
    ghost var seen: seq<Block>      // the data without such changes

    ghost predicate Valid()
      reads this
    {
      && Ring(order, pos, next, prev) && All(pos)
      && ByRecency(order, stamp, clock)
      && Unique(dev, blockno, where)
      && |disk| == size
      && Clean(disk, dev, blockno, valid, dirty, data, changed)
      && Shows(disk, blockno, valid, dirty, data, changed, seen)
      && Counted(refcnt, locked, passing, changed)
      && |pid| == NBUF
      && Awaited(locked, sleepers)
    }

    /** Block n of the root device as the next reader will see it. */
    ghost function Contents(n: nat): Block
      reads this
      requires Valid() && n < size
    {
      Latest(disk, where, valid, data, n)
    }

    ghost function AllContents(): (c: seq<Block>)
      reads this
      requires Valid()
      ensures |c| == size
    {
      AllLatest(disk, where, valid, data)
    }

    /** The kernel's zeroed bcache, through binit. */
    constructor (image: seq<Block>, zero: Block)
      ensures Valid()
      ensures size == |image| && disk == image && AllContents() == image
      ensures forall b: nat :: b < NBUF ==> refcnt[b] == 0 && !dirty[b] && !valid[b] && dev[b] == 0 && blockno[b] == 0
    {
      size := |image|;
      disk := image;
      dev, blockno, refcnt, pid := seq(NBUF, _ => 0), seq(NBUF, _ => 0), seq(NBUF, _ => 0), seq(NBUF, _ => 0);
      valid, dirty, locked := seq(NBUF, _ => false), seq(NBUF, _ => false), seq(NBUF, _ => false);
      data, seen := seq(NBUF, _ => zero), seq(NBUF, _ => zero);
      sleepers := seq(NBUF, _ => {});
      where, passing, changed := map[], seq(NBUF, _ => 0), seq(NBUF, _ => false);
      next := seq(NBUF + 1, _ => HEAD);
      prev := seq(NBUF + 1, _ => HEAD);
      new;
      hide Ring, ByRecency, All;
      Binit();
    }

    method Binit()
      requires next == prev == seq(NBUF + 1, _ => HEAD)
      modifies `next, `prev, `order, `pos, `stamp, `clock
      ensures Ring(order, pos, next, prev) && All(pos) && ByRecency(order, stamp, clock)
    {
      hide Ring, ByRecency, PosPushed;
      RingStart();
      stamp, clock, order, pos := seq(NBUF, _ => 0), 0, [], map[];
      for b := 0 to NBUF
        invariant Ring(order, pos, next, prev) && ByRecency(order, stamp, clock)
        invariant forall x: nat {:trigger x in pos} :: x in pos <==> x < b
      {
        PushFront(order, pos, next, prev, stamp, clock, b);
        next := next[b := next[HEAD]];
        prev := prev[b := HEAD];
        prev := prev[next[HEAD] := b];
        next := next[HEAD := b];
        order, pos, stamp, clock := [b] + order, PosPushed(pos, b), stamp[b := clock + 1], clock + 1;
      }
    }

    // ------------------------------------------------------------ bget

    /** The first loop of bget: the buffer that stands for block n of device d, or HEAD. */
    method Cached(d: nat, n: nat) returns (b: nat)
      requires Valid()
      ensures b == HEAD ==> forall c: nat :: c < NBUF ==> !(dev[c] == d && blockno[c] == n)
      ensures b != HEAD ==> b < NBUF && dev[b] == d && blockno[b] == n
    {
      hide ByRecency, Unique, Clean, Shows, Counted;
      UniqueShape(dev, blockno, where);
      assert Link(order, next, prev, -1);
      b := next[HEAD];
      ghost var k: nat := 0;
      while b != HEAD
        invariant k <= |order| && b == At(order, k)
        invariant forall j: nat :: j < k ==> !(dev[order[j]] == d && blockno[order[j]] == n)
        decreases |order| - k
      {
        if dev[b] == d && blockno[b] == n {
          return;
        }
        assert Link(order, next, prev, k);
        b := next[b];
        k := k + 1;
      }
      forall c: nat | c < NBUF ensures !(dev[c] == d && blockno[c] == n) {
        assert c in pos && order[pos[c]] == c;
      }
    }

    /** The buffer to recycle: the second loop of bget. */
    method LeastRecent() returns (b: nat)
      requires Valid()
      ensures b == HEAD ==> forall c: nat :: c < NBUF ==> !Idle(refcnt, dirty, c)
      ensures b != HEAD ==>
        && b < NBUF && Idle(refcnt, dirty, b)
        && forall c: nat :: c < NBUF && c != b && Idle(refcnt, dirty, c) ==> stamp[b] < stamp[c]
    {
      hide Unique, Clean, Shows, Counted;
      CountedShape(refcnt, locked, passing, changed);
      CleanShape(disk, dev, blockno, valid, dirty, data, changed);
      ghost var k: int := |order| - 1;
      assert Link(order, next, prev, k);
      b := prev[HEAD];
      while b != HEAD
        invariant -1 <= k < |order| && b == At(order, k)
        invariant forall j: nat :: k < j < |order| ==> !Idle(refcnt, dirty, order[j])
        decreases k + 1
      {
        if Idle(refcnt, dirty, b) {
          forall c: nat | c < NBUF && c != b && Idle(refcnt, dirty, c) ensures stamp[b] < stamp[c] {
            assert c in pos && order[pos[c]] == c && pos[c] < k;
            assert Newer(order, stamp, pos[c], k);
          }
          return;
        }
        assert Link(order, next, prev, k - 1);
        b := prev[b];
        k := k - 1;
      }
      forall c: nat | c < NBUF ensures !Idle(refcnt, dirty, c) {
        assert c in pos && order[pos[c]] == c;
      }
    }

    /**
     bget up to its acquiresleep. A cached block is found whoever uses it; otherwise the idle buffer released
     longest ago is given to the block. Either way the latest contents of every block are what they were. It
     panics exactly when the block is not cached and no buffer is idle.
     */
    method Bget(d: nat, n: nat) returns (o: Outcome<nat>)
      requires Valid()
      modifies `dev, `blockno, `refcnt, `valid, `where, `passing
      ensures Valid() && AllContents() == old(AllContents())
      ensures o.Panic? <==>
        && (forall c: nat :: c < NBUF ==> !(old(dev)[c] == d && old(blockno)[c] == n))
        && (forall c: nat :: c < NBUF ==> !Idle(old(refcnt), old(dirty), c))
      ensures o.Panic? ==>
        && dev == old(dev) && blockno == old(blockno) && valid == old(valid) && where == old(where)
        && refcnt == old(refcnt) && passing == old(passing)
      ensures o.Done? ==>
        && var b := o.value;
        && b < NBUF && dev[b] == d && blockno[b] == n
        && refcnt == old(refcnt)[b := old(refcnt)[b] + 1] && passing == old(passing)[b := old(passing)[b] + 1]
        && ((dev == old(dev) && blockno == old(blockno) && valid == old(valid) && where == old(where))
            || (&& (forall c: nat :: c < NBUF ==> !(old(dev)[c] == d && old(blockno)[c] == n))
                && Idle(old(refcnt), old(dirty), b) && !valid[b]
                && (forall c: nat :: c < NBUF && c != b && Idle(old(refcnt), old(dirty), c) ==> stamp[b] < stamp[c])
                && dev == old(dev)[b := d] && blockno == old(blockno)[b := n] && valid == old(valid)[b := false]
                && where == Moved(old(where), (old(dev)[b], old(blockno)[b]), b, (d, n))))
    {
      hide Ring, All, ByRecency, Counted, Unique, Clean, Shows, AllLatest, Idle, Moved;
      CountedShape(refcnt, locked, passing, changed);
      CleanShape(disk, dev, blockno, valid, dirty, data, changed);
      UniqueShape(dev, blockno, where);
      var b := Cached(d, n);
      if b != HEAD {
        CountedUp(refcnt, locked, passing, changed, b);
        refcnt, passing := refcnt[b := refcnt[b] + 1], passing[b := passing[b] + 1];
        return Done(b);
      }
      b := LeastRecent();
      if b != HEAD {
        Recycle(b, d, n);
        return Done(b);
      }
      return Panic;
    }

    /** What bget does to the buffer that it recycles. */
    method Recycle(b: nat, d: nat, n: nat)
      requires Valid() && b < NBUF && Idle(refcnt, dirty, b)
      requires forall c: nat :: c < NBUF ==> !(dev[c] == d && blockno[c] == n)
      modifies `dev, `blockno, `refcnt, `valid, `where, `passing
      ensures Valid() && AllContents() == old(AllContents())
      ensures refcnt == old(refcnt)[b := old(refcnt)[b] + 1] && passing == old(passing)[b := old(passing)[b] + 1]
      ensures dev == old(dev)[b := d] && blockno == old(blockno)[b := n] && valid == old(valid)[b := false]
      ensures where == Moved(old(where), (old(dev)[b], old(blockno)[b]), b, (d, n))
    {
      hide Ring, All, ByRecency, Counted, Unique, Clean, Shows, AllLatest, Moved;
      CountedShape(refcnt, locked, passing, changed);
      CleanShape(disk, dev, blockno, valid, dirty, data, changed);
      UniqueShape(dev, blockno, where);
      Recycled(disk, dev, blockno, where, valid, dirty, data, changed, refcnt, locked, passing, b, d, n);
      CountedUp(refcnt, locked, passing, changed, b);
      ShowsRecycled(disk, blockno, valid, dirty, data, changed, seen, b, n);
      where := Moved(where, (dev[b], blockno[b]), b, (d, n));
      dev, blockno, valid := dev[b := d], blockno[b := n], valid[b := false];
      refcnt, passing := refcnt[b := 1], passing[b := passing[b] + 1];
    }

    // ------------------------------------------------------------ the sleep lock of a buffer

    predicate Holding(b: nat, p: nat)
      reads this
    {
      b < |locked| && b < |pid| && locked[b] && pid[b] == p
    }

    /**
     One look of acquiresleep by process p, which has a reference to buffer b: it gets the lock, or finds it taken and
     goes to sleep, before the spinlock that guards it is free again. A lock that is held stays with its holder.
     */
    method AcquireSleep(b: nat, p: nat) returns (got: bool)
      requires Valid() && b < NBUF && passing[b] > 0
      modifies `locked, `pid, `passing, `sleepers
      ensures Valid()
      ensures got <==> !old(locked)[b]
      ensures got ==> Holding(b, p) && locked == old(locked)[b := true] && pid == old(pid)[b := p]
      ensures got ==> passing == old(passing)[b := old(passing)[b] - 1] && sleepers == old(sleepers)
      ensures !got ==> locked == old(locked) && pid == old(pid) && passing == old(passing)
      ensures !got ==> sleepers == old(sleepers)[b := old(sleepers)[b] + {p}]
    {
      hide Ring, All, ByRecency, Unique, Clean, Shows;
      if locked[b] {
        sleepers := sleepers[b := sleepers[b] + {p}];
        return false;
      }
      locked, pid, passing := locked[b := true], pid[b := p], passing[b := passing[b] - 1];
      got := true;
    }

    // ------------------------------------------------------------ reading and writing under the lock

    /** iderw; the answer is whether it panics. */
    method Iderw(b: nat, p: nat) returns (panic: bool)
      requires Valid() && b < NBUF
      modifies `disk, `valid, `dirty, `data, `changed, `seen
      ensures Valid() && AllContents() == old(AllContents())
      ensures panic <==> !Holding(b, p) || (old(valid)[b] && !old(dirty)[b]) || dev[b] != ROOTDEV || blockno[b] >= size
      ensures panic ==>
        disk == old(disk) && valid == old(valid) && dirty == old(dirty) && data == old(data) && changed == old(changed)
      ensures seen == if panic then old(seen) else old(seen)[b := data[b]]
      ensures !panic ==>
        && valid == old(valid)[b := true] && dirty == old(dirty)[b := false] && data[b] == disk[blockno[b]]
        && (forall c: nat :: c < NBUF && c != b ==> data[c] == old(data)[c])
        && changed == old(changed)[b := false]
        && disk == (if old(dirty)[b] then old(disk)[blockno[b] := data[b]] else old(disk))
        && (old(dirty)[b] ==> data == old(data))
    {
      hide Ring, All, ByRecency, Counted, Unique, Clean, Shows, AllLatest, Latest;
      CountedShape(refcnt, locked, passing, changed);
      CleanShape(disk, dev, blockno, valid, dirty, data, changed);
      UniqueShape(dev, blockno, where);
      if !(locked[b] && pid[b] == p) {
        return true;
      }
      if valid[b] && !dirty[b] {
        return true;
      }
      if dev[b] != 1 {
        return true;
      }
      if blockno[b] >= size {
        return true;
      }
      Transfer(b);
      panic := false;
    }

    /** The end of iderw: the block goes to the disk or comes from it. */
    method Transfer(b: nat)
      requires Valid() && b < NBUF && dev[b] == ROOTDEV && blockno[b] < size && (valid[b] ==> dirty[b])
      modifies `disk, `valid, `dirty, `data, `changed, `seen
      ensures Valid() && AllContents() == old(AllContents())
      ensures valid == old(valid)[b := true] && dirty == old(dirty)[b := false] && data[b] == disk[blockno[b]]
      ensures data == old(data)[b := data[b]]
      ensures changed == old(changed)[b := false] && seen == old(seen)[b := data[b]]
      ensures disk == if old(dirty)[b] then old(disk)[blockno[b] := data[b]] else old(disk)
      ensures old(dirty)[b] ==> data == old(data)
    {
      hide Ring, All, ByRecency, Counted, Unique, Clean, Shows, AllLatest, Latest, Awaited;
      CountedShape(refcnt, locked, passing, changed);
      CleanShape(disk, dev, blockno, valid, dirty, data, changed);
      UniqueShape(dev, blockno, where);
      CountedUnchanged(refcnt, locked, passing, changed, b);
      if dirty[b] {
        WriteOut(b);
      } else {
        assert dirty[b := false] == dirty;
        ReadInto(b);
      }
    }

    method WriteOut(b: nat)
      requires Valid() && b < NBUF && valid[b] && dirty[b] && dev[b] == ROOTDEV && blockno[b] < size
      requires Counted(refcnt, locked, passing, changed[b := false])
      modifies `disk, `valid, `dirty, `changed, `seen
      ensures Valid() && AllContents() == old(AllContents()) && disk == old(disk)[blockno[b] := data[b]]
      ensures valid == old(valid)[b := true] && dirty == old(dirty)[b := false]
      ensures changed == old(changed)[b := false] && seen == old(seen)[b := data[b]]
    {
      hide Ring, All, ByRecency, Counted, Unique, Clean, Shows, AllLatest, Latest, Awaited;
      CleanShape(disk, dev, blockno, valid, dirty, data, changed);
      UniqueShape(dev, blockno, where);
      WrittenBack(disk, dev, blockno, where, valid, dirty, data, changed, b);
      ShowsWritten(disk, dev, blockno, where, valid, dirty, data, changed, seen, b);
      dirty := dirty[b := false];
      disk := disk[blockno[b] := data[b]];
      valid := valid[b := true];
      changed, seen := changed[b := false], seen[b := data[b]];
    }

    method ReadInto(b: nat)
      requires Valid() && b < NBUF && !valid[b] && !dirty[b] && dev[b] == ROOTDEV && blockno[b] < size
      requires Counted(refcnt, locked, passing, changed[b := false])
      modifies `valid, `data, `changed, `seen
      ensures Valid() && AllContents() == old(AllContents()) && data == old(data)[b := disk[blockno[b]]]
      ensures valid == old(valid)[b := true]
      ensures changed == old(changed)[b := false] && seen == old(seen)[b := data[b]]
    {
      hide Ring, All, ByRecency, Counted, Unique, Clean, Shows, AllLatest, Latest, Awaited;
      CleanShape(disk, dev, blockno, valid, dirty, data, changed);
      UniqueShape(dev, blockno, where);
      ReadIn(disk, dev, blockno, where, valid, dirty, data, changed, b);
      ShowsRead(disk, blockno, valid, dirty, data, changed, seen, b);
      data := data[b := disk[blockno[b]]];
      valid := valid[b := true];
      changed, seen := changed[b := false], seen[b := data[b]];
    }

    /** bread once it has the buffer's lock: the buffer holds the latest contents of its block. */
    method BreadRest(b: nat, p: nat) returns (panic: bool)
      requires Valid() && b < NBUF && Holding(b, p)
      modifies `disk, `valid, `dirty, `data, `changed, `seen
      ensures Valid() && AllContents() == old(AllContents()) && disk == old(disk)
      ensures panic <==> !old(valid)[b] && (dev[b] != ROOTDEV || blockno[b] >= size)
      ensures !panic ==> valid == old(valid)[b := true] && dirty == old(dirty) && changed == old(changed)
      ensures seen == if panic || old(valid)[b] then old(seen) else old(seen)[b := disk[blockno[b]]]
      ensures panic ==> valid == old(valid) && dirty == old(dirty) && data == old(data) && changed == old(changed)
      ensures !panic ==> dev[b] == ROOTDEV && blockno[b] < size && data[b] == Contents(blockno[b])
      ensures forall c: nat :: c < NBUF && (c != b || old(valid)[b]) ==> data[c] == old(data)[c]
    {
      hide Ring, All, ByRecency, Counted, AllLatest;
      CountedShape(refcnt, locked, passing, changed);
      panic := false;
      if !valid[b] {
        panic := Iderw(b, p);
      }
    }

    /** The lock holder fills its buffer. */
    method Change(b: nat, p: nat, block: Block)
      requires Valid() && b < NBUF && Holding(b, p) && valid[b]
      modifies `data, `changed
      ensures Valid()
      ensures data == old(data)[b := block] && changed == old(changed)[b := true]
      ensures dev[b] == ROOTDEV && blockno[b] < size && AllContents() == old(AllContents())[blockno[b] := block]
    {
      hide Ring, All, ByRecency;
      data, changed := data[b := block], changed[b := true];
      ghost var c := AllContents();
      forall n: nat | n < size ensures c[n] == old(AllContents())[blockno[b] := block][n] {
      }
    }

    /** log_write's last act on the buffer: from here on the cache must keep it until it is installed. */
    method Pin(b: nat, p: nat)
      requires Valid() && b < NBUF && Holding(b, p) && valid[b]
      modifies `dirty, `changed, `seen
      ensures Valid() && AllContents() == old(AllContents()) && seen == old(seen)[b := data[b]]
      ensures dirty == old(dirty)[b := true] && changed == old(changed)[b := false]
    {
      hide Ring, All, ByRecency, Unique, AllLatest;
      dirty, changed, seen := dirty[b := true], changed[b := false], seen[b := data[b]];
    }

    /** bwrite: the disk gets the buffer's data; the answer is whether it panics. */
    method Bwrite(b: nat, p: nat) returns (panic: bool)
      requires Valid() && b < NBUF && valid[b]
      modifies `disk, `valid, `dirty, `data, `changed, `seen
      ensures Valid() && AllContents() == old(AllContents())
      ensures panic <==> !Holding(b, p)
      ensures panic ==>
        disk == old(disk) && valid == old(valid) && dirty == old(dirty) && data == old(data) && changed == old(changed)
      ensures seen == if panic then old(seen) else old(seen)[b := data[b]]
      ensures !panic ==>
        && blockno[b] < size && disk == old(disk)[blockno[b] := data[b]] && data == old(data)
        && valid == old(valid) && dirty == old(dirty)[b := false] && changed == old(changed)[b := false]
    {
      hide Ring, All, ByRecency, Unique, AllLatest, Counted;
      CountedShape(refcnt, locked, passing, changed);
      if !(locked[b] && pid[b] == p) {
        return true;
      }
      dirty := dirty[b := true];
      panic := Iderw(b, p);
    }

    // ------------------------------------------------------------ brelse

    /**
     brelse up to its releasesleep, which wakes all that wait for the lock. A client that has logged or written what it
     changed may let go: from then on the buffer is as the disk is, or pinned. The answer is whether it panics.
     */
    method ReleaseSleep(b: nat, p: nat) returns (panic: bool)
      requires Valid() && b < NBUF && !changed[b]
      modifies `locked, `pid, `passing, `sleepers
      ensures Valid()
      ensures panic <==> !old(Holding(b, p))
      ensures panic ==> locked == old(locked) && pid == old(pid) && passing == old(passing) && sleepers == old(sleepers)
      ensures !panic ==>
        && locked == old(locked)[b := false] && pid == old(pid)[b := 0]
        && passing == old(passing)[b := old(passing)[b] + 1] && sleepers == old(sleepers)[b := {}]
    {
      hide Ring, All, ByRecency, Unique, Clean, Shows;
      if !(locked[b] && pid[b] == p) {
        return true;
      }
      locked, pid, passing := locked[b := false], pid[b := 0], passing[b := passing[b] + 1];
      sleepers := sleepers[b := {}];
      panic := false;
    }

    /** The rest of brelse: drop the reference; the last one to do so moves the buffer behind head. */
    method Unref(b: nat)
      requires Valid() && b < NBUF && passing[b] > 0
      modifies `refcnt, `passing, `next, `prev, `order, `pos, `stamp, `clock
      ensures Valid() && AllContents() == old(AllContents())
      ensures refcnt == old(refcnt)[b := refcnt[b]] && refcnt[b] == old(refcnt)[b] - 1
      ensures passing == old(passing)[b := old(passing)[b] - 1]
      ensures refcnt[b] > 0 ==> order == old(order) && stamp == old(stamp)
      ensures refcnt[b] == 0 ==>
        && b in old(pos) && order == [b] + Without(old(order), old(pos)[b])
        && stamp == old(stamp)[b := clock] && clock == old(clock) + 1
    {
      hide Unique, Clean, Shows, AllLatest, Ring, ByRecency, All, PosPushed, PosWithout, Without;
      RingShape(order, pos, next, prev, b);
      CountedDown(refcnt, locked, passing, changed, b);
      hide Counted;
      refcnt, passing := refcnt[b := refcnt[b] - 1], passing[b := passing[b] - 1];
      if refcnt[b] == 0 {
        MoveToFront(b);
      }
    }

    /** The six assignments to the links in brelse. */
    method MoveToFront(b: nat)
      requires Ring(order, pos, next, prev) && All(pos) && ByRecency(order, stamp, clock) && b in pos
      modifies `next, `prev, `order, `pos, `stamp, `clock
      ensures Ring(order, pos, next, prev) && All(pos) && ByRecency(order, stamp, clock)
      ensures b in old(pos) && old(pos)[b] < |old(order)| && order == [b] + Without(old(order), old(pos)[b])
      ensures b < |old(stamp)| && stamp == old(stamp)[b := clock] && clock == old(clock) + 1
    {
      hide Ring, ByRecency, All, PosPushed, PosWithout, Without;
      TakenOut(order, pos, next, prev, stamp, clock, b);
      prev := prev[next[b] := prev[b]];
      next := next[prev[b] := next[b]];
      order, pos := Without(order, pos[b]), PosWithout(pos, b);
      PushFront(order, pos, next, prev, stamp, clock, b);
      PutBack(old(pos), b);
      next := next[b := next[HEAD]];
      prev := prev[b := HEAD];
      prev := prev[next[HEAD] := b];
      next := next[HEAD := b];
      stamp, clock := stamp[b := clock + 1], clock + 1;
      order, pos := [b] + order, PosPushed(pos, b);
    }
  }

  lemma TakenOut(order: seq<nat>, pos: map<nat, nat>, next: seq<nat>, prev: seq<nat>, stamp: seq<nat>, clock: nat,
          b: nat)
    requires Ring(order, pos, next, prev) && ByRecency(order, stamp, clock) && b in pos
    ensures |next| == |prev| == NBUF + 1 && b < NBUF && next[b] <= HEAD && prev[b] <= HEAD && pos[b] < |order|
    ensures prev[next[b] := prev[b]][b] == prev[b]
    ensures Ring(Without(order, pos[b]), PosWithout(pos, b), next[prev[b] := next[b]], prev[next[b] := prev[b]])
    ensures ByRecency(Without(order, pos[b]), stamp, clock)
    ensures b !in PosWithout(pos, b)
  {
    Unlinked(order, pos, next, prev, b);
    RecencyWithout(order, stamp, clock, pos[b]);
    assert Link(order, next, prev, pos[b] as int);
  }

  lemma PutBack(pos: map<nat, nat>, b: nat)
    requires All(pos) && b in pos
    ensures All(PosPushed(PosWithout(pos, b), b))
  {
  }

  lemma CountedDown(refcnt: seq<nat>, locked: seq<bool>, passing: seq<nat>, changed: seq<bool>, b: nat)
    requires Counted(refcnt, locked, passing, changed) && b < NBUF && passing[b] > 0
    ensures |refcnt| == NBUF && refcnt[b] > 0
    ensures Counted(refcnt[b := refcnt[b] - 1], locked, passing[b := passing[b] - 1], changed)
  {
  }

  lemma RingShape(order: seq<nat>, pos: map<nat, nat>, next: seq<nat>, prev: seq<nat>, b: nat)
    requires Ring(order, pos, next, prev) && All(pos) && b < NBUF
    ensures |next| == |prev| == NBUF + 1
    ensures b in pos && pos[b] < |order| && order[pos[b]] == b
  {
  }

  lemma CountedUnchanged(refcnt: seq<nat>, locked: seq<bool>, passing: seq<nat>, changed: seq<bool>, b: nat)
    requires Counted(refcnt, locked, passing, changed) && b < NBUF
    ensures Counted(refcnt, locked, passing, changed[b := false])
  {
  }

  /** iderw of a dirty buffer. */
  lemma WrittenBack(disk: seq<Block>, dev: seq<nat>, blockno: seq<nat>, where: map<Key, nat>, valid: seq<bool>,
          dirty: seq<bool>,
                    data: seq<Block>, changed: seq<bool>, b: nat)
    requires Unique(dev, blockno, where) && Clean(disk, dev, blockno, valid, dirty, data, changed)
    requires b < NBUF && valid[b] && dev[b] == ROOTDEV && blockno[b] < |disk|
    ensures
      var disk' := disk[blockno[b] := data[b]];
      && Clean(disk', dev, blockno, valid[b := true], dirty[b := false], data, changed[b := false])
      && (forall q :: q in where ==> where[q] < NBUF)
      && AllLatest(disk', where, valid[b := true], data) == AllLatest(disk, where, valid, data)
  {
    forall c: nat | c < NBUF && c != b && valid[c] ensures blockno[c] != blockno[b] {
      assert where[(dev[c], blockno[c])] == c;
    }
  }

  /** iderw of a buffer that has not been read. */
  lemma ReadIn(disk: seq<Block>, dev: seq<nat>, blockno: seq<nat>, where: map<Key, nat>, valid: seq<bool>,
          dirty: seq<bool>,
               data: seq<Block>, changed: seq<bool>, b: nat)
    requires Unique(dev, blockno, where) && Clean(disk, dev, blockno, valid, dirty, data, changed)
    requires b < NBUF && !valid[b] && dev[b] == ROOTDEV && blockno[b] < |disk|
    ensures
      var data' := data[b := disk[blockno[b]]];
      && Clean(disk, dev, blockno, valid[b := true], dirty, data', changed[b := false])
      && !dirty[b] && !changed[b]
      && (forall q :: q in where ==> where[q] < NBUF)
      && AllLatest(disk, where, valid[b := true], data') == AllLatest(disk, where, valid, data)
  {
  }

  lemma ShowsWritten(disk: seq<Block>, dev: seq<nat>, blockno: seq<nat>, where: map<Key, nat>, valid: seq<bool>,
          dirty: seq<bool>, data: seq<Block>, changed: seq<bool>, seen: seq<Block>, b: nat)
    requires Unique(dev, blockno, where) && Clean(disk, dev, blockno, valid, dirty, data, changed)
    requires Shows(disk, blockno, valid, dirty, data, changed, seen)
    requires b < NBUF && valid[b] && blockno[b] < |disk|
    ensures |seen| == NBUF
    ensures Shows(disk[blockno[b] := data[b]], blockno, valid[b := true], dirty[b := false], data, changed[b := false],
              seen[b := data[b]])
  {
    forall c: nat | c < NBUF && c != b && valid[c] ensures blockno[c] != blockno[b] {
      assert where[(dev[c], blockno[c])] == c;
    }
  }

  lemma ShowsRead(disk: seq<Block>, blockno: seq<nat>, valid: seq<bool>, dirty: seq<bool>, data: seq<Block>,
          changed: seq<bool>, seen: seq<Block>, b: nat)
    requires Shows(disk, blockno, valid, dirty, data, changed, seen) && b < NBUF && blockno[b] < |disk|
    ensures
      var data' := data[b := disk[blockno[b]]];
      |seen| == NBUF && Shows(disk, blockno, valid[b := true], dirty, data', changed[b := false], seen[b := data'[b]])
  {
  }

  lemma ShowsRecycled(disk: seq<Block>, blockno: seq<nat>, valid: seq<bool>, dirty: seq<bool>, data: seq<Block>,
          changed: seq<bool>, seen: seq<Block>, b: nat, n: nat)
    requires Shows(disk, blockno, valid, dirty, data, changed, seen) && b < NBUF
    ensures Shows(disk, blockno[b := n], valid[b := false], dirty, data, changed, seen)
  {
  }

  lemma UniqueShape(dev: seq<nat>, blockno: seq<nat>, where: map<Key, nat>)
    requires Unique(dev, blockno, where)
    ensures |dev| == |blockno| == NBUF
    ensures forall q :: q in where ==> where[q] < NBUF
  {
  }

  lemma CountedShape(refcnt: seq<nat>, locked: seq<bool>, passing: seq<nat>, changed: seq<bool>)
    requires Counted(refcnt, locked, passing, changed)
    ensures |refcnt| == |locked| == |passing| == |changed| == NBUF
  {
  }

  lemma CleanShape(disk: seq<Block>, dev: seq<nat>, blockno: seq<nat>, valid: seq<bool>, dirty: seq<bool>,
          data: seq<Block>, changed: seq<bool>)
    requires Clean(disk, dev, blockno, valid, dirty, data, changed)
    ensures |dev| == |blockno| == |valid| == |dirty| == |data| == |changed| == NBUF
    ensures forall b: nat :: b < NBUF && dirty[b] ==> valid[b]
  {
  }

  lemma CountedUp(refcnt: seq<nat>, locked: seq<bool>, passing: seq<nat>, changed: seq<bool>, b: nat)
    requires Counted(refcnt, locked, passing, changed) && b < NBUF
    ensures Counted(refcnt[b := refcnt[b] + 1], locked, passing[b := passing[b] + 1], changed)
  {
  }

  /** Giving an idle buffer to block (d, n). */
  lemma Recycled(disk: seq<Block>, dev: seq<nat>, blockno: seq<nat>, where: map<Key, nat>, valid: seq<bool>,
          dirty: seq<bool>,
                 data: seq<Block>, changed: seq<bool>, refcnt: seq<nat>, locked: seq<bool>, passing: seq<nat>,
                 b: nat, d: nat, n: nat)
    requires Unique(dev, blockno, where) && Clean(disk, dev, blockno, valid, dirty, data, changed)
    requires Counted(refcnt, locked, passing, changed)
    requires b < NBUF && refcnt[b] == 0 && !dirty[b]
    requires forall c: nat :: c < NBUF ==> !(dev[c] == d && blockno[c] == n)
    ensures
      var where' := Moved(where, (dev[b], blockno[b]), b, (d, n));
      && Unique(dev[b := d], blockno[b := n], where')
      && Clean(disk, dev[b := d], blockno[b := n], valid[b := false], dirty, data, changed)
      && (forall q :: q in where' ==> where'[q] < NBUF)
      && AllLatest(disk, where', valid[b := false], data) == AllLatest(disk, where, valid, data)
  {
    assert (d, n) !in where;
    MovedUnique(dev, blockno, where, b, (d, n));
    forall k: nat | k < |disk|
      ensures Latest(disk, Moved(where, (dev[b], blockno[b]), b, (d, n)), valid[b := false], data, k)
        == Latest(disk, where, valid, data, k)
    {
      RecycleKeepsLatest(disk, dev, blockno, where, valid, dirty, data, changed, b, (d, n), k);
    }
  }

  lemma RingStart()
    ensures Ring([], map[], seq(NBUF + 1, _ => HEAD), seq(NBUF + 1, _ => HEAD))
    ensures ByRecency([], seq(NBUF, _ => 0), 0)
  {
  }

  /** The four assignments, in the order of the code. */
  lemma PushFront(order: seq<nat>, pos: map<nat, nat>, next: seq<nat>, prev: seq<nat>, stamp: seq<nat>, clock: nat,
          b: nat)
    requires Ring(order, pos, next, prev) && ByRecency(order, stamp, clock) && b !in pos && b < NBUF
    ensures |next| == |prev| == NBUF + 1 && |stamp| == NBUF && next[HEAD] <= HEAD
    ensures next[b := next[HEAD]][HEAD] == next[HEAD]
    ensures Ring([b] + order, PosPushed(pos, b), next[b := next[HEAD]][HEAD := b], prev[b := HEAD][next[HEAD] := b])
    ensures ByRecency([b] + order, stamp[b := clock + 1], clock + 1)
    ensures forall x: nat {:trigger x in PosPushed(pos, b)} :: x in PosPushed(pos, b) <==> x == b || x in pos
  {
    Pushed(order, pos, next, prev, b);
    RecencyPushed(order, stamp, clock, b);
  }
}
