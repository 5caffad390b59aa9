/**
 What every step of the log machine keeps, and what follows for whole runs: a crash anywhere, followed by any
 number of interrupted recoveries, leaves the effect of whole committed groups and nothing else.
 */
module LogInvariant {
  import opened Blocks
  import opened LogMachine

  /** Block b is logged and not yet installed: its buffer may not be recycled. */
  predicate Dirty(cache: Cache, b: int) {
    b in cache && cache[b].dirty
  }

  /** The first k log blocks hold d's version of the first k listed blocks. */
  ghost predicate SlotsHold(g: Geometry, disk: Disk, blocks: seq<int>, k: nat, d: Disk)
    requires GoodEntries(g, blocks)
  {
    && g.Valid()
    && |disk| == |d| == g.nblocks
    && k <= |blocks|
    && forall i :: 0 <= i < k ==> disk[g.start + 1 + i] == d[blocks[i]]
  }

  /** Clean buffers hold what the disk holds, dirty ones the latest contents. */
  ghost predicate CacheInv(g: Geometry, disk: Disk, cache: Cache, latest: Disk)
  {
    && |disk| == |latest| == g.nblocks
    && forall b :: b in cache ==>
         0 <= b < g.nblocks && cache[b].data == if cache[b].dirty then latest[b] else disk[b]
  }

  /** Only listed blocks are dirty, and of those exactly the ones from position tail on. */
  ghost predicate DirtyFrom(cache: Cache, blocks: seq<int>, tail: nat)
  {
    && (forall b :: Dirty(cache, b) ==> b in blocks)
    && (forall i :: 0 <= i < |blocks| ==> (Dirty(cache, blocks[i]) <==> tail <= i))
  }

  ghost predicate NoneDirty(cache: Cache)
  {
    forall b :: b in cache ==> !cache[b].dirty
  }

  /** A home block is at its latest contents on disk, or its buffer is dirty. */
  ghost predicate DiskOrCache(g: Geometry, disk: Disk, cache: Cache, latest: Disk)
    requires |disk| == |latest| == g.nblocks
  {
    forall b: nat :: g.IsHome(b) ==> disk[b] == latest[b] || Dirty(cache, b)
  }

  /** A home block is at its latest contents on disk, or is listed and still to be copied from the log. */
  ghost predicate DiskOrLog(g: Geometry, disk: Disk, latest: Disk, list: seq<int>, tail: nat)
    requires |disk| == |latest| == g.nblocks
    requires GoodEntries(g, list)
  {
    && (forall b: nat :: g.IsHome(b) ==> disk[b] == latest[b] || b in list)
    && (forall i :: 0 <= i < |list| && i < tail ==> disk[list[i]] == latest[list[i]])
  }

  /** Every home block holds d. */
  ghost predicate HomeHolds(g: Geometry, disk: Disk, d: Disk)
  {
    && |disk| == |d| == g.nblocks
    && forall b: nat :: g.IsHome(b) ==> disk[b] == d[b]
  }

  /** What disk, header and cache must look like wherever the committing process stands. */
  ghost predicate PhaseInv(g: Geometry, disk: Disk, cache: Cache, blocks: seq<int>, phase: Phase, latest: Disk,
          committed: Disk)
    requires g.Valid() && |disk| == |latest| == |committed| == g.nblocks
    requires GoodEntries(g, blocks)
  {
    var list := Listed(disk[g.start]);
    match phase
    case Idle =>
      list == [] && DirtyFrom(cache, blocks, 0) && DiskOrCache(g, disk, cache, latest) && HomeHolds(g, disk, committed)
    case WritingLog(tail) =>
      && list == [] && DirtyFrom(cache, blocks, 0) && DiskOrCache(g, disk, cache, latest)
        && HomeHolds(g, disk, committed)
      && SlotsHold(g, disk, blocks, tail, latest)
    case Installing(tail) =>
      && list == blocks && tail <= |blocks| && committed == latest
      && DirtyFrom(cache, blocks, tail) && DiskOrCache(g, disk, cache, latest)
      && SlotsHold(g, disk, blocks, |blocks|, latest)
    case Closing =>
      && list == [] && blocks == [] && committed == latest
      && NoneDirty(cache) && DiskOrCache(g, disk, cache, latest)
    case Booting =>
      && blocks == [] && committed == latest
      && NoneDirty(cache) && GoodEntries(g, list) && DiskOrLog(g, disk, latest, list, 0)
      && SlotsHold(g, disk, list, |list|, latest)
    case Recovering(tail) =>
      && list == blocks && tail <= |blocks| && committed == latest
      && NoneDirty(cache) && DiskOrLog(g, disk, latest, blocks, tail)
      && SlotsHold(g, disk, blocks, |blocks|, latest)
  }

  ghost predicate Storage(g: Geometry, disk: Disk, cache: Cache, blocks: seq<int>, phase: Phase, latest: Disk,
          committed: Disk)
  {
    && g.Valid()
    && |committed| == g.nblocks
    && CacheInv(g, disk, cache, latest)
    && 0 <= disk[g.start][0] < WORDS
    && GoodEntries(g, blocks)
    && PhaseInv(g, disk, cache, blocks, phase, latest, committed)
  }

  /** Changes are logged and not yet committed only before the commit point, and then some block is listed. */
  ghost predicate HistoryInv(s: State)
  {
    && s.durable <= |s.updates|
    && s.latest == Replay(s.init, s.updates)
    && s.committed == Replay(s.init, s.updates[..s.durable])
    && (s.blocks == [] || !(s.phase.Idle? || s.phase.WritingLog?) ==> s.durable == |s.updates|)
    && (s.phase == Closing || (s.active == [] && s.phase == Idle) ==> s.blocks == [])
  }

  /** Operation numbers are not reused, and no operation is both committed and still running or half committed. */
  ghost predicate WholeOps(s: State)
    requires s.durable <= |s.updates|
  {
    && (s.active != [] ==> s.phase == Idle)
    && (forall i :: 0 <= i < |s.active| ==> s.active[i].id < s.nextOp)
    && (forall i, j :: 0 <= i < j < |s.active| ==> s.active[i].id != s.active[j].id)
    && (forall i :: 0 <= i < |s.updates| ==> s.updates[i].op < s.nextOp)
    && (forall i, k :: 0 <= i < s.durable && 0 <= k < |s.active| ==> s.updates[i].op != s.active[k].id)
    && (forall i, j :: 0 <= i < s.durable <= j < |s.updates| ==> s.updates[i].op != s.updates[j].op)
  }

  ghost predicate StorageInv(g: Geometry, s: State) {
    Storage(g, s.disk, s.cache, s.blocks, s.phase, s.latest, s.committed)
  }

  ghost predicate Inv(g: Geometry, s: State)
  {
    && StorageInv(g, s)
    && HistoryInv(s)
    && WholeOps(s)
  }

  // ---------------------------------------------------------------- every step keeps disk and cache right

  lemma OneMoreEntry(g: Geometry, blocks: seq<int>, b: nat)
    requires GoodEntries(g, blocks) && b !in blocks && g.IsHome(b) && g.HasRoom(|blocks|)
    ensures GoodEntries(g, blocks + [b])
  {
    var blocks' := blocks + [b];
    forall k: nat, l: nat {:trigger Differ(blocks', k, l)} | k < l < |blocks'| ensures Differ(blocks', k, l) {
      assert l < |blocks| ==> Differ(blocks, k, l);
    }
  }

  lemma LogWriteStores(g: Geometry, disk: Disk, cache: Cache, blocks: seq<int>, latest: Disk, committed: Disk,
          b: nat, data: Block)
    requires Storage(g, disk, cache, blocks, Idle, latest, committed)
    requires g.IsHome(b) && (b in blocks || g.HasRoom(|blocks|))
    ensures
      var blocks' := if b !in blocks then blocks + [b] else blocks;
      Storage(g, disk, cache[b := Buf(data, true)], blocks', Idle, latest[b := data], committed)
  {
    var blocks' := if b !in blocks then blocks + [b] else blocks;
    var cache' := cache[b := Buf(data, true)];
    if b !in blocks {
      OneMoreEntry(g, blocks, b);
    }
    hide GoodEntries;
    forall x | Dirty(cache', x) ensures x in blocks' {
      assert x == b || Dirty(cache, x);
    }
  }

  lemma WriteLogStores(g: Geometry, disk: Disk, cache: Cache, blocks: seq<int>, tail: nat, latest: Disk,
          committed: Disk)
    requires Storage(g, disk, cache, blocks, WritingLog(tail), latest, committed) && tail < |blocks|
    ensures
      var slot, data := g.start + tail + 1, Seen(disk, cache, blocks[tail]);
      Storage(g, disk[slot := data], cache[slot := Buf(data, false)], blocks, WritingLog(tail + 1), latest, committed)
  {
    assert Dirty(cache, blocks[tail]);
    assert !Dirty(cache, g.start + tail + 1);
  }

  lemma WriteHeadStores(g: Geometry, disk: Disk, cache: Cache, blocks: seq<int>, latest: Disk, committed: Disk)
    requires Storage(g, disk, cache, blocks, WritingLog(|blocks|), latest, committed)
    ensures
      var h := WithHeader(Seen(disk, cache, g.start), blocks);
      Storage(g, disk[g.start := h], cache[g.start := Buf(h, false)], blocks, Installing(0), latest, latest)
  {
    HeaderRoundTrip(Seen(disk, cache, g.start), blocks);
    assert !Dirty(cache, g.start);
  }

  lemma InstallStores(g: Geometry, disk: Disk, cache: Cache, blocks: seq<int>, tail: nat, latest: Disk, committed: Disk)
    requires Storage(g, disk, cache, blocks, Installing(tail), latest, committed) && tail < |blocks|
    ensures
      var home, data := blocks[tail], Seen(disk, cache, g.start + tail + 1);
      Storage(g, disk[home := data], cache[home := Buf(data, false)], blocks, Installing(tail + 1), latest, committed)
  {
    assert !Dirty(cache, g.start + tail + 1);
    assert Seen(disk, cache, g.start + tail + 1) == latest[blocks[tail]];
    forall i | 0 <= i < |blocks| && i != tail ensures blocks[i] != blocks[tail] {
      assert if i < tail then Differ(blocks, i, tail) else Differ(blocks, tail, i);
    }
  }

  lemma RecoverStores(g: Geometry, disk: Disk, cache: Cache, blocks: seq<int>, tail: nat, latest: Disk, committed: Disk)
    requires Storage(g, disk, cache, blocks, Recovering(tail), latest, committed) && tail < |blocks|
    ensures
      var home, data := blocks[tail], Seen(disk, cache, g.start + tail + 1);
      Storage(g, disk[home := data], cache[home := Buf(data, false)], blocks, Recovering(tail + 1), latest, committed)
  {
    assert Seen(disk, cache, g.start + tail + 1) == latest[blocks[tail]];
  }

  lemma EraseStores(g: Geometry, disk: Disk, cache: Cache, blocks: seq<int>, latest: Disk, committed: Disk, next: Phase)
    requires
      || (Storage(g, disk, cache, blocks, Installing(|blocks|), latest, committed) && next == Closing)
      || (Storage(g, disk, cache, blocks, Recovering(|blocks|), latest, committed) && next == Idle)
    ensures
      var h := WithHeader(Seen(disk, cache, g.start), []);
      Storage(g, disk[g.start := h], cache[g.start := Buf(h, false)], [], next, latest, committed)
  {
    HeaderRoundTrip(Seen(disk, cache, g.start), []);
    forall b | b in cache ensures !cache[b].dirty {
      assert Dirty(cache, b) ==> b in blocks;
    }
  }

  lemma BreadStores(g: Geometry, disk: Disk, cache: Cache, blocks: seq<int>, phase: Phase, latest: Disk,
          committed: Disk, b: nat)
    requires Storage(g, disk, cache, blocks, phase, latest, committed) && b < g.nblocks && b !in cache
    ensures Storage(g, disk, cache[b := Buf(disk[b], false)], blocks, phase, latest, committed)
  {
    var cache' := cache[b := Buf(disk[b], false)];
    assert forall x :: Dirty(cache', x) <==> Dirty(cache, x);
  }

  lemma EvictStores(g: Geometry, disk: Disk, cache: Cache, blocks: seq<int>, phase: Phase, latest: Disk,
          committed: Disk, b: int)
    requires Storage(g, disk, cache, blocks, phase, latest, committed) && !Dirty(cache, b)
    ensures Storage(g, disk, cache - {b}, blocks, phase, latest, committed)
  {
    var cache' := cache - {b};
    assert forall x :: Dirty(cache', x) <==> Dirty(cache, x);
  }

  lemma CrashStores(g: Geometry, disk: Disk, cache: Cache, blocks: seq<int>, phase: Phase, latest: Disk,
          committed: Disk)
    requires Storage(g, disk, cache, blocks, phase, latest, committed)
    ensures Storage(g, disk, map[], [], Booting, committed, committed)
  {
    if phase.Installing? {
      forall b: nat | g.IsHome(b) && b !in blocks ensures disk[b] == latest[b] {
        assert !Dirty(cache, b);
      }
    }
  }

  // ---------------------------------------------------------------- every step keeps the whole invariant

  lemma ClientKeeps(g: Geometry, s: State, step: Step)
    requires step.Begin? || step.Check? || step.LogWrite? || step.End? || step.Finish?
    requires StorageInv(g, s) && HistoryInv(s) && WholeOps(s) && Shaped(g, s) && Enabled(g, s, step)
    requires !Overruns(g, s, step)
    ensures StorageInv(g, Apply(g, s, step))
  {
    match step
    case LogWrite(i, b, data) => LogWriteStores(g, s.disk, s.cache, s.blocks, s.latest, s.committed, b, data);
    case _ =>
  }

  lemma WriteLogKeeps(g: Geometry, s: State)
    requires StorageInv(g, s) && Shaped(g, s) && Enabled(g, s, WriteLogBlock)
    ensures StorageInv(g, WriteLogStep(g, s))
  {
    hide Storage;
    WriteLogStores(g, s.disk, s.cache, s.blocks, s.phase.tail, s.latest, s.committed);
  }

  lemma WriteHeadKeeps(g: Geometry, s: State)
    requires StorageInv(g, s) && Shaped(g, s) && Enabled(g, s, WriteHead)
    ensures StorageInv(g, WriteHeadStep(g, s))
  {
    hide Storage;
    WriteHeadStores(g, s.disk, s.cache, s.blocks, s.latest, s.committed);
  }

  lemma InstallKeeps(g: Geometry, s: State)
    requires StorageInv(g, s) && Shaped(g, s) && Enabled(g, s, InstallBlock)
    ensures StorageInv(g, InstallStep(g, s))
  {
    hide Storage;
    InstallStores(g, s.disk, s.cache, s.blocks, s.phase.tail, s.latest, s.committed);
  }

  lemma ReadHeadKeeps(g: Geometry, s: State)
    requires StorageInv(g, s) && Shaped(g, s) && Enabled(g, s, ReadHead)
    ensures StorageInv(g, ReadHeadStep(g, s))
  {
    assert !Dirty(s.cache, g.start);
  }

  lemma RecoverKeeps(g: Geometry, s: State)
    requires StorageInv(g, s) && Shaped(g, s) && Enabled(g, s, RecoverBlock)
    ensures StorageInv(g, RecoverStep(g, s))
  {
    hide Storage;
    RecoverStores(g, s.disk, s.cache, s.blocks, s.phase.tail, s.latest, s.committed);
  }

  lemma EraseKeeps(g: Geometry, s: State, next: Phase)
    requires StorageInv(g, s) && Shaped(g, s)
    requires (Enabled(g, s, Erase) && next == Closing) || (Enabled(g, s, RecoverErase) && next == Idle)
    ensures StorageInv(g, EraseStep(g, s, next))
  {
    hide Storage;
    EraseStores(g, s.disk, s.cache, s.blocks, s.latest, s.committed, next);
  }

  lemma CacheKeeps(g: Geometry, s: State, step: Step)
    requires step.Bread? || step.Evict? || step.Crash?
    requires StorageInv(g, s) && Shaped(g, s) && Enabled(g, s, step)
    ensures StorageInv(g, Apply(g, s, step))
  {
    hide Storage;
    match step
    case Bread(b) => if b !in s.cache { BreadStores(g, s.disk, s.cache, s.blocks, s.phase, s.latest, s.committed, b); }
    case Evict(b) => EvictStores(g, s.disk, s.cache, s.blocks, s.phase, s.latest, s.committed, b);
    case Crash => CrashStores(g, s.disk, s.cache, s.blocks, s.phase, s.latest, s.committed);
  }

  lemma HistoryKeeps(g: Geometry, s: State, step: Step)
    requires Shaped(g, s) && HistoryInv(s) && |s.latest| == g.nblocks && Enabled(g, s, step)
    requires s.active != [] ==> s.phase == Idle
    ensures HistoryInv(Apply(g, s, step))
  {
    ReplayLength(s.init, s.updates);
    match step
    case LogWrite(i, b, data) =>
      ReplaySnoc(s.init, s.updates, Update(s.active[i].id, b, data));
      assert (s.updates + [Update(s.active[i].id, b, data)])[..s.durable] == s.updates[..s.durable];
    case WriteHead =>
      assert s.updates[..|s.updates|] == s.updates;
    case Crash =>
      assert s.updates[..s.durable][..s.durable] == s.updates[..s.durable];
    case _ =>
  }

  lemma EndOps(s: State, k: nat)
    requires s.durable <= |s.updates| && WholeOps(s) && k < |s.active|
    ensures WholeOps(EndStep(s, k))
  {
    var rest := EndStep(s, k).active;
    assert forall i :: 0 <= i < |rest| ==> rest[i] == s.active[if i < k then i else i + 1];
  }

  lemma LogWriteOps(s: State, k: nat, b: nat, data: Block)
    requires s.durable <= |s.updates| && WholeOps(s) && k < |s.active|
    ensures WholeOps(LogWriteStep(s, k, b, data))
  {
    var t := LogWriteStep(s, k, b, data);
    assert forall i :: 0 <= i < |t.active| ==> t.active[i].id == s.active[i].id;
  }

  lemma CheckOps(s: State, k: nat)
    requires s.durable <= |s.updates| && WholeOps(s) && k < |s.active|
    ensures WholeOps(CheckStep(s, k))
  {
    var t := CheckStep(s, k);
    assert forall i :: 0 <= i < |t.active| ==> t.active[i].id == s.active[i].id;
  }

  lemma OpsKeep(g: Geometry, s: State, step: Step)
    requires Shaped(g, s) && HistoryInv(s) && WholeOps(s) && Enabled(g, s, step)
    ensures var t := Apply(g, s, step); t.durable <= |t.updates| && WholeOps(t)
  {
    match step
    case End(k) => EndOps(s, k);
    case Check(k) => CheckOps(s, k);
    case LogWrite(k, b, data) => LogWriteOps(s, k, b, data);
    case _ =>
  }

  lemma StorageKeeps(g: Geometry, s: State, step: Step)
    requires StorageInv(g, s) && HistoryInv(s) && WholeOps(s) && Shaped(g, s) && Enabled(g, s, step)
    requires !Overruns(g, s, step)
    ensures StorageInv(g, Apply(g, s, step))
  {
    hide StorageInv, HistoryInv, WholeOps;
    match step
    case WriteLogBlock => WriteLogKeeps(g, s);
    case WriteHead => WriteHeadKeeps(g, s);
    case InstallBlock => InstallKeeps(g, s);
    case Erase => EraseKeeps(g, s, Closing);
    case ReadHead => ReadHeadKeeps(g, s);
    case RecoverBlock => RecoverKeeps(g, s);
    case RecoverErase => EraseKeeps(g, s, Idle);
    case Bread(b) => CacheKeeps(g, s, step);
    case Evict(b) => CacheKeeps(g, s, step);
    case Crash => CacheKeeps(g, s, step);
    case _ => ClientKeeps(g, s, step);
  }

  /** No step can leave the invariant but an append that overruns the log. */
  lemma StepKeeps(g: Geometry, s: State, step: Step)
    requires Inv(g, s) && Shaped(g, s) && Enabled(g, s, step) && !Overruns(g, s, step)
    ensures Inv(g, Apply(g, s, step))
  {
    hide PhaseInv, GoodEntries;
    StorageKeeps(g, s, step);
    HistoryKeeps(g, s, step);
    OpsKeep(g, s, step);
  }
}
