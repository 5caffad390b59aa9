/**
 The log machine over the buffer cache of bio.c: each call of the cache, made as log.c and its clients make it, is one
 step of the machine, whose cache is what the buffers show.
 */
module CachedLog {
  import opened Blocks
  import opened Bio
  import opened SetSizes
  import opened LogMachine
  import opened LogInvariant
  import opened LogTheorems
  import opened LogCode

  /** A buffer has been read for block n. */
  predicate IsShown(where: map<Key, nat>, valid: seq<bool>, n: nat) {
    (ROOTDEV, n) in where && where[(ROOTDEV, n)] < |valid| && valid[where[(ROOTDEV, n)]]
  }

  /** The machine's cache. */
  ghost function Shown(size: nat, where: map<Key, nat>, valid: seq<bool>, dirty: seq<bool>, seen: seq<Block>): Cache
    requires |valid| == |dirty| == |seen| == NBUF
  {
    map n: nat | n < size && IsShown(where, valid, n) :: Buf(seen[where[(ROOTDEV, n)]], dirty[where[(ROOTDEV, n)]])
  }

  /** One buffer is read, logged or written. */
  lemma ShownOne(size: nat, dev: seq<nat>, blockno: seq<nat>, where: map<Key, nat>, valid: seq<bool>, dirty: seq<bool>,
          seen: seq<Block>, b: nat, block: Block, d: bool)
    requires Unique(dev, blockno, where) && |valid| == |dirty| == |seen| == NBUF
    requires b < NBUF && dev[b] == ROOTDEV && blockno[b] < size
    ensures Shown(size, where, valid[b := true], dirty[b := d], seen[b := block])
      == Shown(size, where, valid, dirty, seen)[blockno[b] := Buf(block, d)]
  {
    assert where[(dev[b], blockno[b])] == b;
    forall n: nat | n != blockno[b] && (ROOTDEV, n) in where ensures where[(ROOTDEV, n)] != b {
    }
  }

  /** Giving buffer b to block q takes from the shown blocks that of b, and no other. */
  lemma MovedShown(dev: seq<nat>, blockno: seq<nat>, where: map<Key, nat>, valid: seq<bool>, b: nat, q: Key, n: nat)
    requires Unique(dev, blockno, where) && |valid| == NBUF && b < NBUF && q !in where
    requires valid[b] ==> dev[b] == ROOTDEV
    ensures
      var where' := Moved(where, (dev[b], blockno[b]), b, q);
      && (IsShown(where', valid[b := false], n) <==> IsShown(where, valid, n) && !(valid[b] && n == blockno[b]))
      && (IsShown(where', valid[b := false], n) ==> where'[(ROOTDEV, n)] == where[(ROOTDEV, n)])
  {
    if (ROOTDEV, n) in where {
      assert where[(ROOTDEV, n)] == b ==> dev[b] == ROOTDEV && blockno[b] == n;
    }
  }

  /** A buffer that is recycled stops showing its block. */
  lemma ShownMoved(size: nat, dev: seq<nat>, blockno: seq<nat>, where: map<Key, nat>, valid: seq<bool>,
          dirty: seq<bool>, seen: seq<Block>, b: nat, q: Key)
    requires Unique(dev, blockno, where) && |valid| == |dirty| == |seen| == NBUF && b < NBUF && q !in where
    requires valid[b] ==> dev[b] == ROOTDEV
    ensures Shown(size, Moved(where, (dev[b], blockno[b]), b, q), valid[b := false], dirty, seen)
      == if valid[b] then Shown(size, where, valid, dirty, seen) - {blockno[b]}
         else Shown(size, where, valid, dirty, seen)
  {
    hide Moved, Unique, IsShown;
    forall n: nat {
      MovedShown(dev, blockno, where, valid, b, q, n);
    }
  }

  /** A step that does nothing to disk and cache. */
  predicate Inward(step: Step) {
    step.Begin? || step.Check? || step.End? || step.Finish? || step.ReadHead?
  }

  /** The log over the buffer cache; trace are the steps of the machine that the calls so far have made. */
  class CachedLog {
    const g: Geometry
    var bcache: BufferCache

    ghost const origin: State
    ghost var trace: seq<Step>
    ghost var now: State

    ghost predicate Valid()
      reads this, bcache
    {
      && bcache.Valid() && bcache.size == g.nblocks
      && now.disk == bcache.disk
      && now.cache == Shown(bcache.size, bcache.where, bcache.valid, bcache.dirty, bcache.seen)
      && Reached()
    }

    ghost predicate Reached()
      reads this
    {
      && Formatted(g, origin.disk) && origin == PowerOn(origin.disk)
      && SafeRun(g, origin, trace, now) && Inv(g, now) && now.init == origin.init
    }

    /** Power on: the cache has read nothing yet. */
    constructor (g: Geometry, bcache: BufferCache)
      requires bcache.Valid() && Formatted(g, bcache.disk) && bcache.size == g.nblocks
      requires forall b: nat :: b < NBUF ==> !bcache.valid[b]
      ensures Valid() && this.g == g && this.bcache == bcache && now == origin == PowerOn(bcache.disk) && trace == []
    {
      this.g, this.bcache := g, bcache;
      origin, now, trace := PowerOn(bcache.disk), PowerOn(bcache.disk), [];
      new;
      PowerOnGood(g, bcache.disk);
      hide Inv, SafeRun, Formatted, Ring, All, ByRecency, Unique, Clean, Shows, Counted, Shown;
      Shapes(bcache);
      NothingShown(bcache.size, bcache.where, bcache.valid, bcache.dirty, bcache.seen);
    }

    ghost method Took(step: Step)
      requires Reached() && Shaped(g, now) && Enabled(g, now, step) && !Overruns(g, now, step)
      modifies `trace, `now
      ensures Reached() && now == Apply(g, old(now), step) && trace == old(trace) + [step]
    {
      hide Inv, Formatted, PowerOn;
      RunSnoc(g, origin, trace, now, step);
      StepKeeps(g, now, step);
      now := Apply(g, now, step);
      trace := trace + [step];
      InitConstant(g, origin, trace, now);
    }

    // ------------------------------------------------------------ the theorems, for disk and buffers

    /** Whenever the power fails, the disk recovers to whole operations. */
    lemma DiskIsAtomic()
      requires Valid()
      ensures Atomic(g, origin.disk, bcache.disk, now)
    {
      CrashAtomicity(g, origin.disk, trace, now);
    }

    /** What a reader that gets block n finds is what all updates so far have made of it, committed or not. */
    lemma ReaderSeesLatest(b: nat)
      requires Valid() && b < NBUF && bcache.valid[b] && !bcache.changed[b] && bcache.dev[b] == ROOTDEV
      requires g.IsHome(bcache.blockno[b]) && !now.phase.Booting? && !now.phase.Recovering?
      ensures bcache.blockno[b] < |Replay(now.init, now.updates)|
      ensures bcache.data[b] == Replay(now.init, now.updates)[bcache.blockno[b]]
    {
      ShownView(bcache, b);
      InvSizes(g, now);
      ViewIsLatest(g, now);
      hide Inv, SafeRun;
    }

    // ------------------------------------------------------------ idle buffers

    /** The buffers that the log pins. */
    ghost function Pinned(): set<int>
      reads bcache, this
      requires bcache.Valid()
    {
      Marked(bcache.dirty)
    }

    /** The other buffers that some process has a reference to. */
    ghost function Held(): set<int>
      reads bcache, this
      requires bcache.Valid()
    {
      set b: int | 0 <= b < NBUF && !bcache.dirty[b] && bcache.refcnt[b] > 0
    }

    /**
     bget finds a buffer to recycle exactly while the pinned and the held ones are fewer than NBUF; and no more are
     pinned than the log lists. With 28 entries listed, which is the most that operations of fewer than MAXOPBLOCKS
     entries reach, a commit is safe from "bget: no buffers" while at most one clean buffer is held.
     */
    lemma IdleExactly()
      requires Valid()
      ensures |Pinned()| <= |now.blocks|
      ensures (exists b: nat :: b < NBUF && Bio.Idle(bcache.refcnt, bcache.dirty, b)) <==> |Pinned()| + |Held()| < NBUF
    {
      hide Inv, SafeRun, Ring, All, ByRecency, Shown, Formatted, PowerOn;
      Shapes(bcache);
      DirtyIsListed(g, now);
      forall b: int | b in Pinned() ensures bcache.blockno[b] in now.blocks {
        ShownAt(bcache.size, bcache.dev, bcache.blockno, bcache.where, bcache.valid, bcache.dirty, bcache.seen, b);
        assert Dirty(now.cache, bcache.blockno[b]);
      }
      forall b: int, c: int | b in Pinned() && c in Pinned() && bcache.blockno[b] == bcache.blockno[c] ensures b == c {
        OneBufferPerBlock(bcache.dev, bcache.blockno, bcache.where, b, c);
      }
      ImageSize(Pinned(), bcache.blockno, now.blocks);
      AllBusy(Pinned(), Held(), bcache.refcnt, bcache.dirty);
    }

    // ------------------------------------------------------------ calls that change no contents

    /** bget of a block of the log's disk: it recycles a clean buffer, which is an eviction, or changes nothing. */
    method Bget(n: nat) returns (o: Outcome<nat>, ghost victim: int)
      requires Valid()
      modifies this`trace, this`now, bcache
      ensures Valid() && bcache == old(bcache)
      ensures o.Panic? <==>
        && (forall c: nat :: c < NBUF ==> !(old(bcache.dev)[c] == ROOTDEV && old(bcache.blockno)[c] == n))
        && old(|Pinned()| + |Held()|) >= NBUF
      ensures o.Done? ==> o.value < NBUF && bcache.dev[o.value] == ROOTDEV && bcache.blockno[o.value] == n
      ensures o.Done? ==>
        && bcache.refcnt == old(bcache.refcnt)[o.value := old(bcache.refcnt)[o.value] + 1]
        && bcache.passing == old(bcache.passing)[o.value := old(bcache.passing)[o.value] + 1]
      ensures bcache.disk == old(bcache.disk) && bcache.data == old(bcache.data) && bcache.locked == old(bcache.locked)
      ensures if victim < 0 then now == old(now)
              else Enabled(g, old(now), Evict(victim)) && now == Apply(g, old(now), Evict(victim))
    {
      hide Inv, SafeRun, Formatted, PowerOn, Ring, All, ByRecency, Unique, Clean, Shows, Counted, Shown, Moved,
        Pinned, Held;
      ghost var valid, dev, blockno, where := bcache.valid, bcache.dev, bcache.blockno, bcache.where;
      Shapes(bcache);
      InPlace(dev, blockno, where, n);
      IdleExactly();
      victim := -1;
      StorageShaped(g, now);
      o := bcache.Bget(ROOTDEV, n);
      if o.Done? && (ROOTDEV, n) !in where {
        ghost var b := o.value;
        ShownMoved(bcache.size, dev, blockno, where, valid, bcache.dirty, bcache.seen, b, (ROOTDEV, n));
        if valid[b] {
          victim := blockno[b];
          ShownAt(bcache.size, dev, blockno, where, valid, bcache.dirty, bcache.seen, b);
          Took(Evict(victim));
        }
      }
    }

    /** acquiresleep, releasesleep and the rest of brelse show in nothing. */
    method AcquireSleep(b: nat, p: nat) returns (got: bool)
      requires Valid() && b < NBUF && bcache.passing[b] > 0
      modifies bcache
      ensures Valid() && bcache == old(bcache) && (got <==> !old(bcache.locked)[b])
      ensures got ==> bcache.Holding(b, p) && bcache.locked == old(bcache.locked)[b := true]
      ensures got ==> bcache.passing == old(bcache.passing)[b := old(bcache.passing)[b] - 1]
      ensures !got ==> bcache.locked == old(bcache.locked) && bcache.pid == old(bcache.pid)
      ensures !got ==> bcache.sleepers == old(bcache.sleepers)[b := old(bcache.sleepers)[b] + {p}]
    {
      hide Inv, SafeRun, Formatted, PowerOn, Ring, All, ByRecency, Unique, Clean, Shows, Counted, Shown;
      got := bcache.AcquireSleep(b, p);
    }

    method ReleaseSleep(b: nat, p: nat) returns (panic: bool)
      requires Valid() && b < NBUF && !bcache.changed[b]
      modifies bcache
      ensures Valid() && bcache == old(bcache) && (panic <==> !old(bcache.Holding(b, p)))
      ensures panic ==> bcache.locked == old(bcache.locked) && bcache.passing == old(bcache.passing)
      ensures !panic ==>
        && bcache.locked == old(bcache.locked)[b := false]
        && bcache.passing == old(bcache.passing)[b := old(bcache.passing)[b] + 1]
        && bcache.sleepers == old(bcache.sleepers)[b := {}]
    {
      hide Inv, SafeRun, Formatted, PowerOn, Ring, All, ByRecency, Unique, Clean, Shows, Counted, Shown;
      panic := bcache.ReleaseSleep(b, p);
    }

    method Unref(b: nat)
      requires Valid() && b < NBUF && bcache.passing[b] > 0
      modifies bcache
      ensures Valid() && bcache == old(bcache) && bcache.refcnt[b] == old(bcache.refcnt)[b] - 1
      ensures bcache.refcnt == old(bcache.refcnt)[b := bcache.refcnt[b]]
      ensures bcache.passing == old(bcache.passing)[b := old(bcache.passing)[b] - 1]
      ensures bcache.refcnt[b] == 0 ==>
        b in old(bcache.pos) && bcache.order == [b] + Without(old(bcache.order), old(bcache.pos)[b])
    {
      hide Inv, SafeRun, Formatted, PowerOn, Ring, All, ByRecency, Unique, Clean, Shows, Counted, Shown;
      bcache.Unref(b);
    }

    /** The rest of bread: the block comes into the machine's cache, if it is not there. */
    method BreadRest(b: nat, p: nat) returns (panic: bool)
      requires Valid() && b < NBUF && bcache.Holding(b, p) && bcache.dev[b] == ROOTDEV && bcache.blockno[b] < g.nblocks
      modifies this`trace, this`now, bcache
      ensures Valid() && bcache == old(bcache) && !panic && bcache.valid[b]
      ensures bcache.blockno[b] == old(bcache.blockno)[b] && bcache.changed == old(bcache.changed)
      ensures now == BreadStep(old(now), bcache.blockno[b])
      ensures !bcache.changed[b] ==> bcache.data[b] == View(now, bcache.blockno[b])
    {
      hide Inv, SafeRun, Formatted, PowerOn, Ring, All, ByRecency, Unique, Clean, Shows, Counted, Shown;
      Shapes(bcache);
      StorageShaped(g, now);
      ghost var n, was := bcache.blockno[b], bcache.valid[b];
      ShownAt(bcache.size, bcache.dev, bcache.blockno, bcache.where, bcache.valid, bcache.dirty, bcache.seen, b);
      ShownOne(bcache.size, bcache.dev, bcache.blockno, bcache.where, bcache.valid, bcache.dirty, bcache.seen, b,
        bcache.disk[n], false);
      panic := bcache.BreadRest(b, p);
      if !was {
        SameAt(old(bcache.dirty), b);
        Took(LogMachine.Bread(n));
      } else {
        SameAt(old(bcache.valid), b);
      }
      ShownView(bcache, b);
    }

    /** The holder of a buffer's lock fills it: nobody sees that before it is logged or written. */
    method Change(b: nat, p: nat, block: Block)
      requires Valid() && b < NBUF && bcache.Holding(b, p) && bcache.valid[b]
      modifies bcache
      ensures Valid() && bcache.data == old(bcache.data)[b := block] && bcache.changed == old(bcache.changed)[b := true]
      ensures bcache.valid == old(bcache.valid) && bcache.dev == old(bcache.dev)
      ensures bcache.blockno == old(bcache.blockno)
      ensures bcache.locked == old(bcache.locked) && bcache.pid == old(bcache.pid)
    {
      hide Inv, SafeRun, Formatted, PowerOn, Ring, All, ByRecency, Unique, Clean, Shows, Counted, Shown;
      bcache.Change(b, p, block);
    }

    // ------------------------------------------------------------ calls that do

    /**
     The append of log_write by operation i, which has passed the guard, of the buffer that it has filled. The list has
     a place for the block (LogCode.Log.List says when it has not).
     */
    method LogWrite(ghost i: nat, b: nat, p: nat)
      requires Valid() && b < NBUF && bcache.Holding(b, p) && bcache.valid[b]
      requires i < |now.active| && now.active[i].cleared && g.IsHome(bcache.blockno[b])
      requires !Overruns(g, now, Step.LogWrite(i, bcache.blockno[b], bcache.data[b]))
      modifies this`trace, this`now, bcache
      ensures Valid() && bcache == old(bcache)
      ensures now == LogWriteStep(old(now), i, bcache.blockno[b], bcache.data[b])
      ensures bcache.data == old(bcache.data) && bcache.blockno == old(bcache.blockno) && !bcache.changed[b]
    {
      hide Inv, SafeRun, Formatted, PowerOn, Ring, All, ByRecency, Unique, Clean, Shows, Counted, Shown;
      Shapes(bcache);
      StorageShaped(g, now);
      ShownOne(bcache.size, bcache.dev, bcache.blockno, bcache.where, bcache.valid, bcache.dirty, bcache.seen, b,
        bcache.data[b], true);
      SameAt(bcache.valid, b);
      bcache.Pin(b, p);
      Took(Step.LogWrite(i, bcache.blockno[b], bcache.data[b]));
    }

    /** bwrite of a buffer whose lock p holds, where the machine's step makes the same of disk and cache. */
    method Bwrite(b: nat, p: nat, ghost step: Step) returns (panic: bool)
      requires Valid() && b < NBUF && bcache.Holding(b, p) && bcache.valid[b]
      requires Shaped(g, now) && Enabled(g, now, step) && !step.LogWrite? && bcache.blockno[b] < g.nblocks
      requires Apply(g, now, step).disk == now.disk[bcache.blockno[b] := bcache.data[b]]
      requires Apply(g, now, step).cache == now.cache[bcache.blockno[b] := Buf(bcache.data[b], false)]
      modifies this`trace, this`now, bcache
      ensures Valid() && bcache == old(bcache) && !panic && now == Apply(g, old(now), step)
    {
      hide Inv, SafeRun, Formatted, PowerOn, Ring, All, ByRecency, Unique, Clean, Shows, Counted, Shown, Apply, Enabled;
      Shapes(bcache);
      ShownOne(bcache.size, bcache.dev, bcache.blockno, bcache.where, bcache.valid, bcache.dirty, bcache.seen, b,
        bcache.data[b], false);
      SameAt(bcache.valid, b);
      panic := bcache.Bwrite(b, p);
      Took(step);
    }

    /**
     The body of the loops of write_log and install_trans, by a process that has both buffers from bread: memmove, and
     bwrite of the destination.
     */
    method CopyBlock(from: nat, to: nat, p: nat, ghost step: Step) returns (panic: bool)
      requires Valid() && from < NBUF && to < NBUF && bcache.Holding(from, p) && bcache.Holding(to, p)
      requires bcache.valid[from] && bcache.valid[to] && !bcache.changed[from]
      requires Shaped(g, now) && Enabled(g, now, step)
      requires step.WriteLogBlock? || step.InstallBlock? || step.RecoverBlock?
      requires
        var slot, home := g.start + now.phase.tail + 1, now.blocks[now.phase.tail];
        var f, t := bcache.blockno[from], bcache.blockno[to];
        if step.WriteLogBlock? then f == home && t == slot else f == slot && t == home
      modifies this`trace, this`now, bcache
      ensures Valid() && bcache == old(bcache) && !panic && now == Apply(g, old(now), step)
    {
      hide Inv, SafeRun, Formatted, PowerOn, Ring, All, ByRecency, Unique, Clean, Shows, Counted, Shown;
      Shapes(bcache);
      ShownView(bcache, from);
      Change(to, p, bcache.data[from]);
      panic := Bwrite(to, p, step);
    }

    /** write_head, by a process that has the header's buffer from bread. */
    method WriteHead(b: nat, p: nat, blocks: seq<int>, ghost step: Step) returns (panic: bool)
      requires Valid() && b < NBUF && bcache.Holding(b, p) && bcache.valid[b] && !bcache.changed[b]
      requires bcache.blockno[b] == g.start && |blocks| <= LOGSIZE && Shaped(g, now) && Enabled(g, now, step)
      requires (step.WriteHead? && blocks == now.blocks) || ((step.Erase? || step.RecoverErase?) && blocks == [])
      modifies this`trace, this`now, bcache
      ensures Valid() && bcache == old(bcache) && !panic && now == Apply(g, old(now), step)
    {
      hide Inv, SafeRun, Formatted, PowerOn, Ring, All, ByRecency, Unique, Clean, Shows, Counted, Shown, WithHeader;
      Shapes(bcache);
      ShownView(bcache, b);
      Change(b, p, WithHeader(bcache.data[b], blocks));
      panic := Bwrite(b, p, step);
    }

    // ------------------------------------------------------------ the rest

    /** Steps of log.c that touch neither buffers nor disk. */
    ghost method Within(step: Step)
      requires Valid() && Inward(step) && Shaped(g, now) && Enabled(g, now, step)
      modifies this`trace, this`now
      ensures Valid() && now == Apply(g, old(now), step)
    {
      hide Inv, SafeRun, Formatted, PowerOn, Ring, All, ByRecency, Unique, Clean, Shows, Counted, Shown;
      Took(step);
    }

    /** The power fails: the buffers are gone, the disk is not. */
    method PowerFailure(zero: Block)
      requires Valid()
      modifies this`bcache, this`trace, this`now
      ensures Valid() && fresh(bcache) && bcache.disk == old(bcache.disk) && now == CrashStep(old(now))
    {
      hide Inv, SafeRun, Formatted, PowerOn, Ring, All, ByRecency, Unique, Clean, Shows, Counted, Shown;
      StorageShaped(g, now);
      bcache := new BufferCache(bcache.disk, zero);
      Shapes(bcache);
      NothingShown(bcache.size, bcache.where, bcache.valid, bcache.dirty, bcache.seen);
      Took(Crash);
    }
  }

  lemma NothingShown(size: nat, where: map<Key, nat>, valid: seq<bool>, dirty: seq<bool>, seen: seq<Block>)
    requires |valid| == |dirty| == |seen| == NBUF && forall b: nat :: b < NBUF ==> !valid[b]
    ensures Shown(size, where, valid, dirty, seen) == map[]
  {
    assert forall n: nat :: !IsShown(where, valid, n);
  }

  lemma SameAt<T>(s: seq<T>, b: nat)
    requires b < |s|
    ensures s[b := s[b]] == s
  {
  }

  ghost function Marked(dirty: seq<bool>): set<int>
    requires |dirty| == NBUF
  {
    set b: int | 0 <= b < NBUF && dirty[b]
  }

  lemma DirtyIsListed(g: Geometry, s: State)
    requires Inv(g, s)
    ensures forall x :: Dirty(s.cache, x) ==> x in s.blocks
  {
  }

  /** Different buffers hold different blocks, so there are no more of them than blocks. */
  lemma {:induction false} ImageSize(s: set<int>, f: seq<nat>, blocks: seq<int>)
    requires forall b: int :: b in s ==> 0 <= b < |f| && f[b] in blocks
    requires forall b: int, c: int :: b in s && c in s && f[b] == f[c] ==> b == c
    ensures |s| <= |blocks|
    decreases |blocks|
  {
    if s != {} {
      SomeMember(s);
      var b: int :| b in s;
      var k :| 0 <= k < |blocks| && blocks[k] == f[b];
      var rest := blocks[..k] + blocks[k + 1..];
      forall c: int | c in s - {b} ensures f[c] in rest {
        var l :| 0 <= l < |blocks| && blocks[l] == f[c];
        assert rest[if l < k then l else l - 1] == f[c];
      }
      ImageSize(s - {b}, f, rest);
    }
  }

  lemma AllBusy(pinned: set<int>, held: set<int>, refcnt: seq<nat>, dirty: seq<bool>)
    requires |refcnt| == |dirty| == NBUF
    requires forall b: int :: b in pinned <==> 0 <= b < NBUF && dirty[b]
    requires forall b: int :: b in held <==> 0 <= b < NBUF && !dirty[b] && refcnt[b] > 0
    ensures (exists b: nat :: b < NBUF && Bio.Idle(refcnt, dirty, b)) <==> |pinned| + |held| < NBUF
  {
    hide Below;
    DisjointSize(pinned, held);
    var busy, all := pinned + held, Below(NBUF);
    if exists b: nat :: b < NBUF && Bio.Idle(refcnt, dirty, b) {
      var b: nat :| b < NBUF && Bio.Idle(refcnt, dirty, b);
      var i: int := b;
      assert i !in busy;
      SizeOfPart(busy + {i}, all);
      DisjointSize(busy, {i});
    } else {
      forall b: int | b in all ensures b in busy {
        assert !Bio.Idle(refcnt, dirty, b);
      }
      SizeOfPart(all, busy);
    }
  }

  lemma Shapes(c: BufferCache)
    requires c.Valid()
    ensures |c.dev| == |c.blockno| == |c.valid| == |c.dirty| == |c.data| == |c.changed| == |c.seen| == NBUF
    ensures forall b: nat :: b < NBUF && c.valid[b] ==> c.dev[b] == ROOTDEV && c.blockno[b] < c.size
    ensures forall b: nat :: b < NBUF && c.dirty[b] ==> c.valid[b]
  {
  }

  lemma InvSizes(g: Geometry, s: State)
    requires Inv(g, s)
    ensures |s.disk| == |Replay(s.init, s.updates)| == g.nblocks
  {
  }

  /** where tells whether some buffer stands for block n. */
  lemma InPlace(dev: seq<nat>, blockno: seq<nat>, where: map<Key, nat>, n: nat)
    requires Unique(dev, blockno, where)
    ensures |dev| == |blockno| == NBUF
    ensures (ROOTDEV, n) in where <==> exists c: nat :: c < NBUF && dev[c] == ROOTDEV && blockno[c] == n
  {
  }

  /** What a buffer shows. */
  lemma ShownAt(size: nat, dev: seq<nat>, blockno: seq<nat>, where: map<Key, nat>, valid: seq<bool>, dirty: seq<bool>,
          seen: seq<Block>, b: nat)
    requires Unique(dev, blockno, where) && |valid| == |dirty| == |seen| == NBUF
    requires b < NBUF && dev[b] == ROOTDEV && blockno[b] < size
    ensures valid[b] <==> blockno[b] in Shown(size, where, valid, dirty, seen)
    ensures valid[b] ==> Shown(size, where, valid, dirty, seen)[blockno[b]] == Buf(seen[b], dirty[b])
  {
    assert where[(dev[b], blockno[b])] == b;
  }

  lemma ShownView(c: BufferCache, b: nat)
    requires c.Valid() && b < NBUF && c.valid[b] && c.dev[b] == ROOTDEV
    ensures c.blockno[b] < c.size
    ensures Seen(c.disk, Shown(c.size, c.where, c.valid, c.dirty, c.seen), c.blockno[b]) == c.seen[b]
    ensures !c.changed[b] ==> c.seen[b] == c.data[b]
  {
    ShownAt(c.size, c.dev, c.blockno, c.where, c.valid, c.dirty, c.seen, b);
  }
}
