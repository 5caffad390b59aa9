/**
 log.c as it is written: loops over the in-memory header, reads through the cache, one block written at a time.
 A ghost machine state follows the code step by step. The disk keeps the image that every single write leaves, and
 each of these images is the disk of the machine after some of its steps, so that the theorems about runs hold of it.
 */
module LogCode {
  import opened Blocks
  import opened LogMachine
  import opened LogInvariant
  import opened LogTheorems
  import LogSpace

  lemma {:induction false} RunSnoc(g: Geometry, s: State, steps: seq<Step>, t: State, step: Step)
    requires SafeRun(g, s, steps, t) && Shaped(g, t) && Enabled(g, t, step) && !Overruns(g, t, step)
    ensures SafeRun(g, s, steps + [step], Apply(g, t, step))
    decreases |steps|
  {
    if steps == [] {
      assert [step][1..] == [];
    } else {
      RunSnoc(g, Apply(g, s, steps[0]), steps[1..], t, step);
      assert (steps + [step])[1..] == steps[1..] + [step];
    }
  }

  predicate Committing(phase: Phase) {
    phase.WritingLog? || phase.Installing? || phase.Closing?
  }

  /** The memory disk of memide.c, which changes one block at a time. */
  class MemDisk {
    var blocks: Disk
    ghost var images: seq<Disk>    // what the disk held at first and after every write

    constructor (blocks: Disk)
      ensures this.blocks == blocks && images == [blocks]
    {
      this.blocks, images := blocks, [blocks];
    }

    method Write(b: nat, data: Block)
      requires b < |blocks|
      modifies this
      ensures blocks == old(blocks)[b := data]
      ensures images == old(images) + [blocks]
    {
      blocks := blocks[b := data];
      images := images + [blocks];
    }
  }

  /** The machine had this disk after its first k steps. */
  ghost predicate At(g: Geometry, origin: State, trace: seq<Step>, image: Disk, k: nat, s: State) {
    k <= |trace| && SafeRun(g, origin, trace[..k], s) && s.disk == image
  }

  ghost predicate Passed(g: Geometry, origin: State, trace: seq<Step>, image: Disk) {
    exists k: nat, s: State :: At(g, origin, trace, image, k, s)
  }

  /** Each image is one that the machine has passed. */
  ghost predicate AllPassed(g: Geometry, origin: State, trace: seq<Step>, images: seq<Disk>) {
    forall m :: 0 <= m < |images| ==> Passed(g, origin, trace, images[m])
  }

  lemma PassedMore(g: Geometry, origin: State, trace: seq<Step>, images: seq<Disk>, step: Step, s: State)
    requires AllPassed(g, origin, trace, images) && SafeRun(g, origin, trace + [step], s)
    ensures AllPassed(g, origin, trace + [step], images)
    ensures AllPassed(g, origin, trace + [step], images + [s.disk])
  {
    hide SafeRun;
    var more := trace + [step];
    forall m | 0 <= m < |images| ensures Passed(g, origin, more, images[m]) {
      var k: nat, t: State :| At(g, origin, trace, images[m], k, t);
      assert more[..k] == trace[..k];
      assert At(g, origin, more, images[m], k, t);
    }
    assert more[..|more|] == more;
    assert At(g, origin, more, s.disk, |more|, s);
  }

  lemma PassedFirst(g: Geometry, origin: State)
    ensures AllPassed(g, origin, [], [origin.disk])
  {
    var none: seq<Step> := [];
    assert none[..0] == none;
    assert At(g, origin, none, origin.disk, 0, origin);
  }

  /** All images from number n on recover to one of these two. */
  ghost predicate AllRecover(g: Geometry, images: seq<Disk>, n: nat, home: Disk, other: Disk) {
    forall m :: n <= m < |images| ==> Recovers(g, images[m], home) || Recovers(g, images[m], other)
  }

  /** How log_write goes on, or ends: TooBig and OutsideOfTransaction are its panics. */
  datatype LogResult = Cleared | Logged | TooBig | OutsideOfTransaction

  /** struct log, the disk it logs to, and the buffer cache in between. */
  class Log {
    const g: Geometry
    const block: array<int>        // log.lh.block
    const dev: MemDisk
    var n: nat                     // log.lh.n
    var outstanding: nat
    var committing: bool
    var cache: Cache
    var asleep: set<nat>           // the processes that sleep on the log in begin_op

    ghost const origin: State
    ghost var trace: seq<Step>     // every atomic step since power-on
    ghost var now: State           // the machine state they lead to

    /** The fields are what the machine says they are, and the machine got here from power-on. */
    ghost predicate Valid()
      reads this, block, dev
    {
      && block.Length == LOGSIZE
      && n <= LOGSIZE
      && now.blocks == block[..n]
      && Settled()
    }

    /** All of it except the in-memory header, which some loops are in the middle of filling. */
    ghost predicate Settled()
      reads this, dev
    {
      && now.disk == dev.blocks
      && now.cache == cache
      && |now.active| == outstanding
      && (committing <==> Committing(now.phase))
      && (asleep != {} ==> outstanding > 0 || committing)
      && Traced()
    }

    ghost predicate Traced()
      reads this, dev
    {
      && Formatted(g, origin.disk) && origin == PowerOn(origin.disk)
      && SafeRun(g, origin, trace, now)
      && Inv(g, now)
      && now.init == origin.init
      && AllPassed(g, origin, trace, dev.images)
    }

    /**
     Crash atomicity of the code: whichever disk write the power fails behind, recovery leaves the home blocks as whole
     operations made them, none that was still running, and what is recovered stays part of the history.
     */
    lemma EveryImageIsAtomic(m: nat) returns (k: nat, s: State)
      requires Settled() && m < |dev.images|
      ensures At(g, origin, trace, dev.images[m], k, s) && Atomic(g, origin.disk, dev.images[m], s)
      ensures s.durable <= now.durable <= |now.updates| && s.updates[..s.durable] == now.updates[..s.durable]
    {
      hide SafeRun, Inv;
      assert Passed(g, origin, trace, dev.images[m]);
      k, s :| At(g, origin, trace, dev.images[m], k, s);
      CrashAtomicity(g, origin.disk, trace[..k], s);
      PowerOnGood(g, origin.disk);
      RunKeeps(g, origin, trace[..k], s);
      assert trace[..k] + trace[k..] == trace;
      RunSplit(g, origin, trace[..k], trace[k..], s, now);
      DurableForever(g, s, trace[k..], now);
    }

    /** The machine takes the step that the code has just made; a disk write of the code is in that step. */
    ghost method Took(step: Step)
      requires Formatted(g, origin.disk) && origin == PowerOn(origin.disk)
      requires SafeRun(g, origin, trace, now) && Inv(g, now) && now.init == origin.init
      requires Shaped(g, now) && Enabled(g, now, step) && !Overruns(g, now, step)
      requires AllPassed(g, origin, trace, dev.images)
        || (|dev.images| > 0 && AllPassed(g, origin, trace, dev.images[..|dev.images| - 1])
          && dev.images[|dev.images| - 1] == Apply(g, now, step).disk)
      modifies this`trace, this`now
      ensures now == Apply(g, old(now), step)
      ensures trace == old(trace) + [step]
      ensures Traced()
      ensures Recovers(g, now.disk, now.committed)
    {
      hide Inv, AllPassed, Recovers;
      RunSnoc(g, origin, trace, now, step);
      StepKeeps(g, now, step);
      now := Apply(g, now, step);
      if AllPassed(g, origin, trace, dev.images) {
        PassedMore(g, origin, trace, dev.images, step, now);
      } else {
        PassedMore(g, origin, trace, dev.images[..|dev.images| - 1], step, now);
        assert dev.images == dev.images[..|dev.images| - 1] + [now.disk];
      }
      trace := trace + [step];
      InitConstant(g, origin, trace, now);
      ImageRecovers(g, now);
    }

    /** bread: the block's contents; some other clean buffer may be recycled on the way. */
    method Bread(b: nat) returns (data: Block)
      requires Settled() && b < g.nblocks
      modifies this`cache, this`trace, this`now
      ensures Settled()
      ensures data == View(old(now), b) == View(now, b)
      ensures now == old(now).(cache := cache)
      ensures old(trace) <= trace
      ensures forall x: nat :: x < g.nblocks ==> View(now, x) == View(old(now), x)
    {
      hide Inv, SafeRun, AllPassed, Formatted, PowerOn, Recovers;
      CleanIsOnDisk(g, now);
      StorageShaped(g, now);
      var victim: int := *;
      if victim != b && victim in cache && !cache[victim].dirty {
        cache := cache - {victim};
        Took(Evict(victim));
      }
      StorageShaped(g, now);
      if b !in cache {
        cache := cache[b := Buf(dev.blocks[b], false)];
        Took(LogMachine.Bread(b));
      }
      data := cache[b].data;
    }

    /** bwrite, with iderw: the disk gets the buffer's contents, and the buffer ends valid and clean. */
    method Bwrite(b: nat, data: Block)
      requires b < |dev.blocks|
      modifies dev, this`cache
      ensures dev.blocks == old(dev.blocks)[b := data]
      ensures dev.images == old(dev.images) + [dev.blocks]
      ensures cache == old(cache)[b := Buf(data, false)]
    {
      cache := cache[b := Buf(data, true)];
      dev.Write(b, cache[b].data);
      cache := cache[b := Buf(data, false)];
    }

    /** Switch on over a formatted disk. */
    constructor (g: Geometry, dev: MemDisk)
      requires Formatted(g, dev.blocks) && dev.images == [dev.blocks]
      ensures Valid() && fresh(block)
      ensures this.g == g && this.dev == dev
      ensures now == origin == PowerOn(dev.blocks) && trace == [] && asleep == {}
    {
      this.g, this.dev := g, dev;
      block := new int[LOGSIZE](_ => 0);
      n, outstanding, committing, asleep := 0, 0, false, {};
      cache := map[];
      origin, now, trace := PowerOn(dev.blocks), PowerOn(dev.blocks), [];
      new;
      PowerOnGood(g, dev.blocks);
      PassedFirst(g, origin);
    }

    /** The power fails. */
    method PowerFailure()
      requires Settled() && block.Length == LOGSIZE
      modifies this
      ensures Valid()
      ensures dev.blocks == old(dev.blocks) && now == CrashStep(old(now))
      ensures trace == old(trace) + [Crash]
    {
      hide Inv, SafeRun, AllPassed, Formatted, PowerOn, Recovers;
      StorageShaped(g, now);
      n, outstanding, committing, asleep := 0, 0, false, {};
      cache := map[];
      Took(Crash);
    }

    /** begin_op by process p, one turn of its loop: true if the operation may go on, false if it sleeps. */
    method BeginOp(p: nat) returns (admitted: bool)
      requires Valid() && (now.phase == Idle || Committing(now.phase))
      modifies this`outstanding, this`asleep, this`trace, this`now
      ensures Valid()
      ensures admitted <==> !old(committing) && old(n) + (old(outstanding) + 1) * MAXOPBLOCKS <= LOGSIZE
      ensures admitted <==> Enabled(g, old(now), Begin)
      ensures now == if admitted then BeginStep(old(now)) else old(now)
      ensures asleep == if admitted then old(asleep) else old(asleep) + {p}
      ensures !admitted ==> outstanding > 0 || committing
    {
      hide Inv, SafeRun, AllPassed, Formatted, PowerOn, Recovers;
      if committing {
        asleep := asleep + {p};
        return false;
      } else if n + (outstanding + 1) * MAXOPBLOCKS > LOGSIZE {
        asleep := asleep + {p};
        RoomWhenQuiet(g, now);
        return false;
      }
      StorageShaped(g, now);
      outstanding := outstanding + 1;
      Took(Begin);
      return true;
    }

    /** wakeup(&log): every sleeper looks again. */
    method Wakeup()
      modifies this`asleep
      ensures asleep == {}
    {
      asleep := {};
    }

    /** The loop of log_write: list the block, or find it listed already. It stops before a store that overruns. */
    method List(b: int) returns (overrun: bool)
      requires block.Length == LOGSIZE && n <= LOGSIZE
      modifies this`n, block
      ensures n <= LOGSIZE && (overrun <==> b !in old(block[..n]) && !g.HasRoom(old(n)))
      ensures overrun ==> n == old(n) && block[..] == old(block[..])
      ensures !overrun ==> block[..n] == if b in old(block[..n]) then old(block[..n]) else old(block[..n]) + [b]
    {
      var k := 0;
      while k < n && block[k] != b
        invariant k <= n && b !in block[..k]
      {
        k := k + 1;
      }
      if k == n && (n >= LOGSIZE || n >= g.size - 1) {
        return true;
      }
      block[k] := b;
      if k == n {
        n := n + 1;
      }
      overrun := false;
    }

    /**
     log_write by operation i up to its acquire, which tests without log.lock. The kernel panics when the transaction is
     too big and, if it is not, when no operation is outstanding.
     */
    method LogCheck(ghost i: nat) returns (r: LogResult)
      requires Valid() && (outstanding > 0 ==> i < |now.active| && !now.active[i].cleared)
      modifies this`trace, this`now
      ensures Valid()
      ensures r.TooBig? <==> !g.HasRoom(n)
      ensures r.OutsideOfTransaction? <==> g.HasRoom(n) && outstanding == 0
      ensures !r.Logged? && (r.Cleared? ==> i < |old(now).active| && now == CheckStep(old(now), i))
      ensures !r.Cleared? ==> now == old(now)
    {
      hide Inv, SafeRun, AllPassed, Formatted, PowerOn, Recovers;
      if n >= LOGSIZE || n >= g.size - 1 {
        return TooBig;
      }
      if outstanding < 1 {
        return OutsideOfTransaction;
      }
      StorageShaped(g, now);
      Took(Check(i));
      return Cleared;
    }

    /** Every operation so far has added fewer than MAXOPBLOCKS entries. */
    ghost predicate Thrifty()
      reads this
    {
      LogSpace.ThriftyRun(g, origin, trace, now, MAXOPBLOCKS - 1)
    }

    /**
     The rest of log_write under log.lock, of a buffer of block b that holds data: others may have come in since the
     test. overrun says that the entry has no block of the log, and goes behind the log or the header's array;
     operations that add fewer than MAXOPBLOCKS entries never meet that.
     */
    method LogAppend(ghost i: nat, b: nat, data: Block) returns (overrun: bool)
      requires Valid() && i < |now.active| && now.active[i].cleared && g.IsHome(b)
      modifies this`n, this`cache, this`trace, this`now, block
      ensures Valid()
      ensures overrun <==> b !in old(block[..n]) && !g.HasRoom(old(n))
      ensures old(Thrifty()) && g.size >= LOGSIZE ==> !overrun
      ensures !overrun ==> now == LogWriteStep(old(now), i, b, data) && View(now, b) == data && b in block[..n]
      ensures overrun ==> now == old(now) && cache == old(cache) && n == old(n) && block[..] == old(block[..])
    {
      hide Inv, SafeRun, AllPassed, Formatted, PowerOn, Recovers;
      StorageShaped(g, now);
      ghost var step := Step.LogWrite(i, b, data);
      if Thrifty() && g.size >= LOGSIZE {
        LogSpace.TransactionNeverTooBig(g, origin.disk, trace, now);
      }
      overrun := List(b);
      if overrun {
        return;
      }
      cache := cache[b := Buf(data, true)];
      Took(step);
    }

    /** log_write when nobody else comes in between its test and its append. */
    method LogWrite(ghost i: nat, b: nat, data: Block) returns (r: LogResult)
      requires Valid() && (outstanding > 0 ==> i < |now.active| && !now.active[i].cleared) && g.IsHome(b)
      modifies this`n, this`cache, this`trace, this`now, block
      ensures Valid() && !r.Cleared?
      ensures r.TooBig? <==> !g.HasRoom(old(n))
      ensures r.OutsideOfTransaction? <==> g.HasRoom(old(n)) && outstanding == 0
      ensures r.Logged? ==> i < |old(now).active| && now == LogWriteStep(old(now), i, b, data)
      ensures r.Logged? ==> View(now, b) == data && b in block[..n]
      ensures !r.Logged? ==> now == old(now) && cache == old(cache) && n == old(n) && block[..] == old(block[..])
    {
      hide Inv, SafeRun, AllPassed, Formatted, PowerOn, Recovers;
      r := LogCheck(i);
      if r.Cleared? {
        var overrun := LogAppend(i, b, data);
        r := Logged;
      }
    }

    /** The body shared by the two copying loops: bread both blocks, memmove, bwrite the destination. */
    method CopyBlock(from: nat, to: nat, ghost step: Step)
      requires Settled() && g.Valid() && from < g.nblocks && to < g.nblocks
      requires Shaped(g, now) && Enabled(g, now, step)
      requires step.WriteLogBlock? || step.InstallBlock? || step.RecoverBlock?
      requires
        var slot, home := g.start + now.phase.tail + 1, now.blocks[now.phase.tail];
        if step.WriteLogBlock? then from == home && to == slot else from == slot && to == home
      modifies dev, this`cache, this`trace, this`now
      ensures Settled()
      ensures now == Apply(g, old(now), step).(cache := cache)
      ensures old(trace) <= trace
      ensures dev.images == old(dev.images) + [dev.blocks] && Recovers(g, dev.blocks, now.committed)
    {
      hide Inv, SafeRun, AllPassed, Recovers, AllRecover, Formatted, PowerOn, Apply, Enabled;
      ghost var was := now;
      var src := Bread(from);
      var dst := Bread(to);
      StorageShaped(g, now);
      CopyApplies(g, was, now, from, to, step);
      Bwrite(to, src);
      Took(step);
    }

    /** write_log: copy the pinned blocks to the log area. */
    method WriteLog()
      requires Valid() && now.phase == WritingLog(0)
      modifies dev, this`cache, this`trace, this`now
      ensures Valid() && now.phase == WritingLog(n)
      ensures SameHistory(old(now), now) && now.committed == old(now).committed && now.durable == old(now).durable
      ensures old(dev.images) <= dev.images
      ensures AllRecover(g, dev.images, |old(dev.images)|, now.committed, now.committed)
      ensures old(trace) <= trace
    {
      hide Inv, SafeRun, AllPassed, Recovers, AllRecover, Formatted, PowerOn;
      ghost var was := now;
      NoneYet(g, dev.images, now.committed, now.committed);
      var tail := 0;
      while tail < n
        invariant tail <= n && Valid() && now.phase == WritingLog(tail)
        invariant SameHistory(was, now) && now.committed == was.committed && now.durable == was.durable
        invariant old(dev.images) <= dev.images
        invariant AllRecover(g, dev.images, |old(dev.images)|, was.committed, was.committed)
        invariant old(trace) <= trace
      {
        ghost var before := dev.images;
        StorageShaped(g, now);
        StorageGeometry(g, now);
        var home := block[tail];
        assert home == now.blocks[tail];
        CopyBlock(home, g.start + tail + 1, WriteLogBlock);
        OneMore(g, before, dev.blocks, |old(dev.images)|, was.committed, was.committed);
        tail := tail + 1;
      }
    }

    /** write_head: store the in-memory header in the header block. The caller says which step of the machine it is. */
    method WriteHead(ghost step: Step)
      requires block.Length == LOGSIZE && n <= LOGSIZE && Settled() && g.start < g.nblocks
      requires Shaped(g, now) && Enabled(g, now, step)
      requires (step.WriteHead? && block[..n] == now.blocks) || ((step.Erase? || step.RecoverErase?) && n == 0)
      modifies dev, this`cache, this`trace, this`now
      ensures now.disk == dev.blocks && now.cache == cache
      ensures Traced()
      ensures now == Apply(g, old(now), step).(cache := cache)
      ensures old(trace) <= trace
      ensures dev.images == old(dev.images) + [dev.blocks] && Recovers(g, dev.blocks, now.committed)
    {
      hide Inv, SafeRun, AllPassed, Recovers, AllRecover, Formatted, PowerOn;
      var words := Bread(g.start);
      var hb: seq<int> := words[0 := n];
      var i := 0;
      while i < n
        invariant i <= n && |hb| == WORDS
        invariant hb[0] == n && hb[1..1 + i] == block[..i] && hb[1 + i..] == words[1 + i..]
      {
        hb := hb[1 + i := block[i]];
        i := i + 1;
      }
      assert hb == WithHeader(words, block[..n]);
      StorageShaped(g, now);
      Bwrite(g.start, hb);
      Took(step);
    }

    /** install_trans: copy the log blocks to their home locations. */
    method InstallTrans()
      requires Valid() && (now.phase == Installing(0) || now.phase == Recovering(0))
      modifies dev, this`cache, this`trace, this`now
      ensures Valid() && now.phase == if old(now).phase.Installing? then Installing(n) else Recovering(n)
      ensures SameHistory(old(now), now) && now.committed == old(now).committed && now.durable == old(now).durable
      ensures old(dev.images) <= dev.images
      ensures AllRecover(g, dev.images, |old(dev.images)|, now.committed, now.committed)
      ensures old(trace) <= trace
    {
      hide Inv, SafeRun, AllPassed, Recovers, AllRecover, Formatted, PowerOn;
      ghost var was := now;
      NoneYet(g, dev.images, now.committed, now.committed);
      var tail := 0;
      while tail < n
        invariant tail <= n && Valid()
        invariant now.phase == if was.phase.Installing? then Installing(tail) else Recovering(tail)
        invariant SameHistory(was, now) && now.committed == was.committed && now.durable == was.durable
        invariant old(dev.images) <= dev.images
        invariant AllRecover(g, dev.images, |old(dev.images)|, was.committed, was.committed)
        invariant old(trace) <= trace
      {
        ghost var before := dev.images;
        StorageShaped(g, now);
        StorageGeometry(g, now);
        var home := block[tail];
        assert home == now.blocks[tail];
        CopyBlock(g.start + tail + 1, home, if was.phase.Installing? then InstallBlock else RecoverBlock);
        OneMore(g, before, dev.blocks, |old(dev.images)|, was.committed, was.committed);
        tail := tail + 1;
      }
    }

    /** The first half of commit, up to the write that makes it: what was logged is durable from that write on. */
    method MakeDurable()
      requires Valid() && now.phase == WritingLog(0) && n > 0
      modifies dev, this`cache, this`trace, this`now
      ensures Valid() && now.phase == Installing(0) && n == old(n)
      ensures now.updates == old(now).updates && now.init == old(now).init && now.active == old(now).active
      ensures now.nextOp == old(now).nextOp && now.committed == Replay(now.init, now.updates)
      ensures old(dev.images) <= dev.images
      ensures AllRecover(g, dev.images, |old(dev.images)|, old(now).committed, now.committed)
      ensures old(trace) <= trace
    {
      hide Inv, SafeRun, AllPassed, Recovers, AllRecover, Formatted, PowerOn, Replay, Listed, WithHeader, HomeHolds;
      ghost var was, before := now, dev.images;
      WriteLog();
      ghost var logged := dev.images;
      StorageShaped(g, now);
      StorageGeometry(g, now);
      WriteHead(LogMachine.WriteHead);
      CommittedIs(g, now);
      EitherOf(g, logged, |before|, was.committed, now.committed);
      OneMore(g, logged, dev.blocks, |before|, was.committed, now.committed);
    }

    /** The second half of commit: the updates go home, and the log is cleared. */
    method InstallAndClear()
      requires Valid() && now.phase == Installing(0)
      modifies this`n, dev, this`cache, this`trace, this`now
      ensures Valid() && n == 0 && Enabled(g, now, Finish)
      ensures now.updates == old(now).updates && now.init == old(now).init && now.active == old(now).active
      ensures now.nextOp == old(now).nextOp && now.committed == old(now).committed
      ensures old(dev.images) <= dev.images
      ensures AllRecover(g, dev.images, |old(dev.images)|, now.committed, now.committed)
      ensures old(trace) <= trace
    {
      hide Inv, SafeRun, AllPassed, Recovers, AllRecover, Formatted, PowerOn, Replay, Listed, WithHeader, HomeHolds;
      ghost var before := dev.images;
      InstallTrans();
      ghost var installed := dev.images;
      StorageShaped(g, now);
      StorageGeometry(g, now);
      n := 0;
      WriteHead(Erase);
      OneMore(g, installed, dev.blocks, |before|, now.committed, now.committed);
    }

    /**
     commit: write_log, write_head, install_trans, clear, write_head. After any of its writes the disk recovers to what
     was committed before, or to all updates so far.
     */
    method Commit()
      requires Valid() && now.phase == WritingLog(0)
      modifies this`n, dev, this`cache, this`trace, this`now
      ensures Valid() && n == 0 && Enabled(g, now, Finish)
      ensures now.updates == old(now).updates && now.init == old(now).init && now.active == old(now).active
      ensures now.nextOp == old(now).nextOp
      ensures now.durable == |now.updates|
      ensures HomeHolds(g, dev.blocks, Replay(now.init, now.updates))
      ensures old(dev.images) <= dev.images && old(now).durable <= |now.updates|
      ensures AllRecover(g, dev.images, |old(dev.images)|,
                Replay(now.init, now.updates[..old(now).durable]), Replay(now.init, now.updates))
      ensures old(trace) <= trace
    {
      hide Inv, SafeRun, AllPassed, Recovers, AllRecover, Formatted, PowerOn, HomeHolds, Replay, Listed, WithHeader;
      ghost var was, before := now, dev.images;
      CommittedIs(g, was);
      NoneYet(g, before, was.committed, Replay(now.init, now.updates));
      if n > 0 {
        MakeDurable();
        ghost var headed := dev.images;
        InstallAndClear();
        BothParts(g, before, headed, dev.images, was.committed, now.committed);
      }
      CommitMakesDurable(g, now);
      FinishedHome(g, now);
    }

    /**
     The first part of end_op by operation i, under log.lock: true if it is the last one out and must commit; otherwise
     the sleepers of begin_op look again.
     */
    method EndOpBegin(ghost i: nat) returns (doCommit: bool)
      requires Valid() && i < |now.active| && !now.active[i].cleared
      modifies this`outstanding, this`committing, this`asleep, this`trace, this`now
      ensures Valid() && now == EndStep(old(now), i) && old(now).phase == Idle
      ensures outstanding == old(outstanding) - 1 && (doCommit <==> outstanding == 0) && committing == doCommit
      ensures asleep == if doCommit then old(asleep) else {}
      ensures old(trace) <= trace
    {
      hide Inv, SafeRun, AllPassed, Formatted, PowerOn, Recovers;
      StorageShaped(g, now);
      BusyMeansIdle(g, now);
      outstanding := outstanding - 1;
      assert !committing;    // so the panic "log.committing" is not met
      doCommit := outstanding == 0;
      if doCommit {
        committing := true;
      } else {
        Wakeup();
      }
      Took(End(i));
    }

    /** The last part of end_op, under log.lock again after the commit. */
    method EndOpFinish()
      requires Valid() && Enabled(g, now, Finish) && n == 0
      modifies this`committing, this`asleep, this`trace, this`now
      ensures Valid() && now == old(now).(phase := Idle) && !committing && asleep == {}
      ensures old(trace) <= trace
    {
      hide Inv, SafeRun, AllPassed, Formatted, PowerOn, Recovers;
      StorageShaped(g, now);
      committing := false;
      Wakeup();
      Took(Finish);
    }

    /**
     end_op by operation i: the last one out commits. Whichever of the disk writes of the commit the power fails behind,
     all of the updates so far are recovered or none that was not durable before. Nobody is left asleep.
     */
    method EndOp(ghost i: nat)
      requires Valid() && i < |now.active| && !now.active[i].cleared
      modifies this`n, this`outstanding, this`committing, this`asleep, dev, this`cache, this`trace, this`now
      ensures Valid() && now.phase == Idle && !committing && asleep == {}
      ensures outstanding == old(outstanding) - 1
      ensures now.updates == old(now).updates && now.init == old(now).init
      ensures outstanding > 0 ==> dev.images == old(dev.images) && now == EndStep(old(now), i)
      ensures outstanding == 0 ==> n == 0 && now.durable == |now.updates|
      ensures outstanding == 0 ==> HomeHolds(g, dev.blocks, Replay(now.init, now.updates))
      ensures old(dev.images) <= dev.images && old(now).durable <= |now.updates|
      ensures AllRecover(g, dev.images, |old(dev.images)|,
                Replay(now.init, now.updates[..old(now).durable]), Replay(now.init, now.updates))
      ensures old(trace) <= trace
    {
      hide Inv, SafeRun, AllPassed, Recovers, AllRecover, Formatted, PowerOn;
      CommittedIs(g, now);
      var doCommit := EndOpBegin(i);
      NoneYet(g, dev.images, Replay(now.init, now.updates[..now.durable]), Replay(now.init, now.updates));
      if doCommit {
        Commit();
        EndOpFinish();
      }
    }

    /** read_head: load the in-memory header from the header block. */
    method ReadHead()
      requires Settled() && block.Length == LOGSIZE && now.phase == Booting
      modifies this`n, block, this`cache, this`trace, this`now
      ensures Valid() && now.phase == Recovering(0)
      ensures now == ReadHeadStep(g, old(now)).(cache := cache)
      ensures old(trace) <= trace
    {
      hide Inv, SafeRun, AllPassed, Recovers, AllRecover, Formatted, PowerOn, Replay, HomeHolds, WithHeader;
      StorageShaped(g, now);
      StorageGeometry(g, now);
      var words := Bread(g.start);
      StorageShaped(g, now);
      Took(LogMachine.ReadHead);
      HeaderListsEntries(g, now, words);
      n := words[0];
      var i := 0;
      while i < n
        invariant i <= n && block[..i] == words[1..1 + i]
        modifies block
      {
        block[i] := words[1 + i];
        i := i + 1;
      }
      assert block[..n] == Listed(words);
    }

    /**
     recover_from_log, at boot: afterwards the home blocks hold exactly what was committed. If the power fails behind
     any of its writes, recovering from that disk gives the same.
     */
    method RecoverFromLog()
      requires Settled() && block.Length == LOGSIZE && now.phase == Booting
      modifies this`n, block, dev, this`cache, this`trace, this`now
      ensures Valid() && now.phase == Idle && n == 0
      ensures now.updates == old(now).updates && now.init == old(now).init
      ensures HomeHolds(g, dev.blocks, Replay(now.init, now.updates))
      ensures Listed(dev.blocks[g.start]) == []
      ensures old(dev.images) <= dev.images
      ensures AllRecover(g, dev.images, |old(dev.images)|, Replay(now.init, now.updates), Replay(now.init, now.updates))
      ensures old(trace) <= trace
    {
      hide Inv, SafeRun, AllPassed, Recovers, AllRecover, Formatted, PowerOn, Replay, Listed, WithHeader, HomeHolds;
      ghost var was, before := now, dev.images;
      CommittedIs(g, was);
      BootDurable(g, was);
      ReadHead();
      InstallTrans();
      StorageShaped(g, now);
      StorageGeometry(g, now);
      n := 0;
      ghost var installed := dev.images;
      WriteHead(RecoverErase);
      IdleHome(g, now);
      OneMore(g, installed, dev.blocks, |before|, was.committed, was.committed);
    }
  }

  lemma {:induction false} RunSplit(g: Geometry, s: State, steps: seq<Step>, more: seq<Step>, t: State, u: State)
    requires SafeRun(g, s, steps, t) && SafeRun(g, s, steps + more, u)
    ensures SafeRun(g, t, more, u)
    decreases |steps|
  {
    if steps == [] {
      assert steps + more == more;
    } else {
      assert (steps + more)[1..] == steps[1..] + more;
      RunSplit(g, Apply(g, s, steps[0]), steps[1..], more, t, u);
    }
  }

  lemma ImageRecovers(g: Geometry, s: State)
    requires Inv(g, s)
    ensures Recovers(g, s.disk, s.committed)
  {
    RecoveredIsCommitted(g, s);
  }

  lemma CommittedIs(g: Geometry, s: State)
    requires Inv(g, s)
    ensures s.durable <= |s.updates| && s.committed == Replay(s.init, s.updates[..s.durable])
    ensures s.durable == |s.updates| ==> s.committed == Replay(s.init, s.updates)
  {
    assert s.updates[..|s.updates|] == s.updates;
  }

  lemma BootDurable(g: Geometry, s: State)
    requires Inv(g, s) && s.phase == Booting
    ensures s.durable == |s.updates|
  {
  }

  /** With no operation and no commit under way the log is empty and there is room for one. */
  lemma RoomWhenQuiet(g: Geometry, s: State)
    requires Inv(g, s) && s.phase == Idle && |s.blocks| + (|s.active| + 1) * MAXOPBLOCKS > LOGSIZE
    ensures |s.active| > 0
  {
  }

  lemma CleanIsOnDisk(g: Geometry, s: State)
    requires Inv(g, s)
    ensures |s.disk| == g.nblocks
    ensures forall b :: b in s.cache ==> 0 <= b < g.nblocks && (!s.cache[b].dirty ==> s.cache[b].data == s.disk[b])
  {
  }

  lemma BusyMeansIdle(g: Geometry, s: State)
    requires Inv(g, s) && s.active != []
    ensures s.phase == Idle
  {
  }

  lemma NoneYet(g: Geometry, images: seq<Disk>, home: Disk, other: Disk)
    ensures AllRecover(g, images, |images|, home, other)
  {
  }

  lemma OneMore(g: Geometry, images: seq<Disk>, image: Disk, n: nat, home: Disk, other: Disk)
    requires AllRecover(g, images, n, home, other) && (Recovers(g, image, home) || Recovers(g, image, other))
    ensures AllRecover(g, images + [image], n, home, other)
  {
  }

  lemma EitherOf(g: Geometry, images: seq<Disk>, n: nat, home: Disk, other: Disk)
    requires AllRecover(g, images, n, home, home)
    ensures AllRecover(g, images, n, home, other)
  {
  }

  /** The writes up to the one that commits, and those after it. */
  lemma BothParts(g: Geometry, before: seq<Disk>, headed: seq<Disk>, after: seq<Disk>, home: Disk, other: Disk)
    requires before <= headed <= after
    requires AllRecover(g, headed, |before|, home, other) && AllRecover(g, after, |headed|, other, other)
    ensures AllRecover(g, after, |before|, home, other)
  {
    hide Recovers;
    forall m | |before| <= m < |after| ensures Recovers(g, after[m], home) || Recovers(g, after[m], other) {
      assert m < |headed| ==> after[m] == headed[m];
    }
  }

  /** What the copying steps do, and that breads before them do not matter. */
  lemma CopyApplies(g: Geometry, s: State, t: State, from: nat, to: nat, step: Step)
    requires Shaped(g, s) && Shaped(g, t) && Enabled(g, s, step) && t == s.(cache := t.cache)
    requires step.WriteLogBlock? || step.InstallBlock? || step.RecoverBlock?
    requires from < g.nblocks && to < g.nblocks && View(t, from) == View(s, from)
    requires
      var slot, home := g.start + s.phase.tail + 1, s.blocks[s.phase.tail];
      if step.WriteLogBlock? then from == home && to == slot else from == slot && to == home
    ensures Enabled(g, t, step)
    ensures
      var u := Apply(g, t, step);
      && u.disk == t.disk[to := View(t, from)] && u.cache == t.cache[to := Buf(View(t, from), false)]
      && u == Apply(g, s, step).(cache := u.cache)
      && u.active == s.active && (Committing(u.phase) <==> Committing(s.phase))
  {
  }

  /** Nothing was logged and nothing lost between two states of one process's commit or recovery. */
  ghost predicate SameHistory(s: State, t: State) {
    && t.latest == s.latest
    && t.updates == s.updates
    && t.init == s.init
    && t.active == s.active
    && t.nextOp == s.nextOp
    && t.blocks == s.blocks
  }

  lemma StorageGeometry(g: Geometry, s: State)
    requires Inv(g, s)
    ensures g.Valid() && |s.blocks| <= g.size - 1 && |s.disk| == g.nblocks
    ensures forall i :: 0 <= i < |s.blocks| ==> g.IsHome(s.blocks[i])
  {
  }

  /** After a commit, home and history agree. */
  lemma FinishedHome(g: Geometry, s: State)
    requires Inv(g, s) && Enabled(g, s, Finish)
    ensures HomeHolds(g, s.disk, Replay(s.init, s.updates))
  {
    assert s.updates[..|s.updates|] == s.updates;
    forall b: nat | g.IsHome(b) ensures s.disk[b] == s.latest[b] {
      assert !Dirty(s.cache, b);
    }
  }

  lemma IdleHome(g: Geometry, s: State)
    requires Inv(g, s) && s.phase == Idle && s.blocks == []
    ensures HomeHolds(g, s.disk, Replay(s.init, s.updates)) && Listed(s.disk[g.start]) == []
  {
    assert s.updates[..|s.updates|] == s.updates;
  }

  /** What read_head finds in the header block fits the in-memory header. */
  lemma HeaderListsEntries(g: Geometry, s: State, words: Block)
    requires Inv(g, s) && s.phase == Recovering(0) && s.blocks == Listed(words)
    requires g.Valid() && |s.disk| == g.nblocks && words == View(s, g.start)
    ensures 0 <= words[0] <= LOGSIZE && |s.blocks| == words[0]
  {
    assert !Dirty(s.cache, g.start);
  }
}
