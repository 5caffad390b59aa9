/**
 The write-ahead log as a machine of atomic steps (log.c over bio.c and memide.c).

 A disk write of one block is atomic and survives a crash; the buffer cache, the in-memory log header and the
 count of running operations do not. Clients, the committing process, cache recycling and crashes interleave
 at the level of single steps, and a crash is possible in every state, inside recovery included.
 */
module LogMachine {
  import opened Blocks

  /** The part of the superblock that the log uses. */
  datatype Geometry = Geometry(start: nat, size: nat, nblocks: nat) {
    predicate Valid() {
      && 1 <= size
      && start + size <= nblocks
    }

    /** A block that files and metadata live in: inside the disk, outside the log area. */
    predicate IsHome(b: int) {
      && 0 <= b < nblocks
      && !(start <= b < start + size)
    }

    /** Neither half of the guard of log_write fires: one more entry fits. */
    predicate HasRoom(n: nat) {
      n < LOGSIZE && n < size - 1
    }
  }

  type Disk = seq<Block>

  /** A cached block. dirty is B_DIRTY: logged, not yet installed, so not to be recycled. */
  datatype Buf = Buf(data: Block, dirty: bool)

  type Cache = map<int, Buf>

  /**
   A file-system operation between begin_op and end_op. used counts the log entries it added; cleared says that it is
   in log_write, past the guard and not yet in the list.
   */
  datatype Op = Op(id: nat, used: nat, cleared: bool)

  /** One logged change: operation op made block b hold data. */
  datatype Update = Update(op: nat, b: nat, data: Block)

  /** Where the process that commits or recovers stands. Idle is log.committing == 0. */
  datatype Phase =
    | Idle
    | WritingLog(tail: nat)
    | Installing(tail: nat)
    | Closing
    | Booting
    | Recovering(tail: nat)

  datatype State = State(
    disk: Disk,
    cache: Cache,
    blocks: seq<int>,       // log.lh.block[0 .. log.lh.n]
    active: seq<Op>,        // log.outstanding == |active|
    phase: Phase,
    nextOp: nat,
    latest: Disk,           // history: what every change logged so far makes of the home blocks
    committed: Disk,        // history: the same at the last commit point
    init: Disk,             // history: home contents at the start of the run
    updates: seq<Update>,   // history: every change logged and not lost
    durable: nat            // history: how many of them the last commit point covers
  )

  // ---------------------------------------------------------------- the header block

  /** The entries that a header block lists. */
  function Listed(h: Block): seq<int>
  {
    if 0 <= h[0] < WORDS then h[1..1 + h[0]] else []
  }

  /** What write_head leaves in the header block: the count and the entries; later words keep what they held. */
  function WithHeader(h: Block, blocks: seq<int>): Block
    requires |blocks| < WORDS
  {
    [|blocks|] + blocks + h[1 + |blocks|..]
  }

  /** read_head gives back what write_head stored, whatever stale entries follow. */
  lemma HeaderRoundTrip(h: Block, blocks: seq<int>)
    requires |blocks| < WORDS
    ensures Listed(WithHeader(h, blocks)) == blocks && WithHeader(h, blocks)[0] == |blocks|
  {
    var w := WithHeader(h, blocks);
    assert w[0] == |blocks|;
    assert w[1..1 + |blocks|] == blocks;
  }

  ghost predicate Differ(s: seq<int>, i: nat, j: nat)
    requires i < |s| && j < |s|
  {
    s[i] != s[j]
  }

  ghost predicate Distinct(s: seq<int>) {
    forall i: nat, j: nat {:trigger Differ(s, i, j)} :: i < j < |s| ==> Differ(s, i, j)
  }

  ghost predicate GoodEntries(g: Geometry, blocks: seq<int>) {
    && |blocks| <= LOGSIZE
    && |blocks| <= g.size - 1
    && Distinct(blocks)
    && forall i :: 0 <= i < |blocks| ==> g.IsHome(blocks[i])
  }

  // ---------------------------------------------------------------- meaning of a history

  /** The home blocks after a list of logged changes. */
  function Replay(init: Disk, us: seq<Update>): Disk
  {
    if |us| == 0 then init
    else
      var d := Replay(init, us[..|us| - 1]);
      var u := us[|us| - 1];
      if u.b < |d| then d[u.b := u.data] else d
  }

  lemma {:induction false} ReplayLength(init: Disk, us: seq<Update>)
    ensures |Replay(init, us)| == |init|
  {
    if |us| != 0 {
      ReplayLength(init, us[..|us| - 1]);
    }
  }

  lemma ReplaySnoc(init: Disk, us: seq<Update>, u: Update)
    ensures |Replay(init, us)| == |init|
    ensures u.b < |init| ==> Replay(init, us + [u]) == Replay(init, us)[u.b := u.data]
  {
    ReplayLength(init, us);
    assert (us + [u])[..|us|] == us;
  }

  // ---------------------------------------------------------------- steps

  datatype Step =
    | Begin
    | Check(i: nat)
    | LogWrite(i: nat, b: nat, data: Block)
    | End(i: nat)
    | WriteLogBlock
    | WriteHead
    | InstallBlock
    | Erase
    | Finish
    | Bread(b: nat)
    | Evict(b: nat)
    | Crash
    | ReadHead
    | RecoverBlock
    | RecoverErase

  /** What a process that holds block b sees in its buffer. */
  function Seen(disk: Disk, cache: Cache, b: nat): Block
    requires b < |disk|
  {
    if b in cache then cache[b].data else disk[b]
  }

  function View(s: State, b: nat): Block
    requires b < |s.disk|
  {
    Seen(s.disk, s.cache, b)
  }

  predicate Enabled(g: Geometry, s: State, step: Step)
  {
    match step
    case Begin =>
      s.phase == Idle && |s.blocks| + (|s.active| + 1) * MAXOPBLOCKS <= LOGSIZE
    case Check(i) =>
      i < |s.active| && !s.active[i].cleared && g.HasRoom(|s.blocks|)
    case LogWrite(i, b, data) =>
      i < |s.active| && s.active[i].cleared && g.IsHome(b)
    case End(i) =>
      i < |s.active| && !s.active[i].cleared && s.phase == Idle
    case WriteLogBlock =>
      s.phase.WritingLog? && s.phase.tail < |s.blocks|
    case WriteHead =>
      s.phase == WritingLog(|s.blocks|) && |s.blocks| > 0
    case InstallBlock =>
      s.phase.Installing? && s.phase.tail < |s.blocks|
    case Erase =>
      s.phase == Installing(|s.blocks|)
    case Finish =>
      s.phase == Closing || (s.phase == WritingLog(0) && |s.blocks| == 0)
    case Bread(b) =>
      b < g.nblocks
    case Evict(b) =>
      b in s.cache && !s.cache[b].dirty
    case Crash =>
      true
    case ReadHead =>
      s.phase == Booting
    case RecoverBlock =>
      s.phase.Recovering? && s.phase.tail < |s.blocks|
    case RecoverErase =>
      s.phase == Recovering(|s.blocks|)
  }

  /**
   The append of log_write goes where there is no log block for it. The guard was tested without log.lock, so others
   may have added entries since.
   */
  predicate Overruns(g: Geometry, s: State, step: Step) {
    step.LogWrite? && step.b !in s.blocks && !g.HasRoom(|s.blocks|)
  }

  /** The shape that makes every step well defined: the header's array and the disk hold the list. */
  predicate Shaped(g: Geometry, s: State)
  {
    && g.Valid()
    && |s.disk| == g.nblocks
    && |s.blocks| <= LOGSIZE
    && g.start + |s.blocks| < g.nblocks
    && forall i :: 0 <= i < |s.blocks| ==> 0 <= s.blocks[i] < g.nblocks
  }

  /** begin_op, once there is room. */
  function BeginStep(s: State): State {
    s.(active := s.active + [Op(s.nextOp, 0, false)], nextOp := s.nextOp + 1)
  }

  /** log_write before it takes log.lock: neither of its panics happens. */
  function CheckStep(s: State, i: nat): State
    requires i < |s.active|
  {
    s.(active := s.active[i := s.active[i].(cleared := true)])
  }

  /**
   log_write under log.lock, of a buffer that the client has filled: it is pinned, and listed unless it already is.
   */
  function LogWriteStep(s: State, i: nat, b: nat, data: Block): State
    requires i < |s.active|
  {
    var op := s.active[i];
    var added := b !in s.blocks;
    s.(cache := s.cache[b := Buf(data, true)],
       blocks := if added then s.blocks + [b] else s.blocks,
       active := s.active[i := Op(op.id, if added then op.used + 1 else op.used, false)],
       latest := if b < |s.latest| then s.latest[b := data] else s.latest,
       updates := s.updates + [Update(op.id, b, data)])
  }

  /** end_op: the last operation to end starts the commit. */
  function EndStep(s: State, i: nat): State
    requires i < |s.active|
  {
    var rest := s.active[..i] + s.active[i + 1..];
    s.(active := rest, phase := if |rest| == 0 then WritingLog(0) else Idle)
  }

  // Each disk write below is a bwrite: disk and buffer get the same contents and the buffer ends clean.

  /** One turn of the loop of write_log. */
  function WriteLogStep(g: Geometry, s: State): State
    requires Shaped(g, s) && s.phase.WritingLog? && s.phase.tail < |s.blocks|
  {
    var slot, data := g.start + s.phase.tail + 1, View(s, s.blocks[s.phase.tail]);
    s.(disk := s.disk[slot := data], cache := s.cache[slot := Buf(data, false)], phase := WritingLog(s.phase.tail + 1))
  }

  /** The write_head that commits. */
  function WriteHeadStep(g: Geometry, s: State): State
    requires Shaped(g, s)
  {
    var h := WithHeader(View(s, g.start), s.blocks);
    s.(disk := s.disk[g.start := h], cache := s.cache[g.start := Buf(h, false)],
       phase := Installing(0), committed := s.latest, durable := |s.updates|)
  }

  /** One turn of the loop of install_trans, during a commit. */
  function InstallStep(g: Geometry, s: State): State
    requires Shaped(g, s) && s.phase.Installing? && s.phase.tail < |s.blocks|
  {
    var home, data := s.blocks[s.phase.tail], View(s, g.start + s.phase.tail + 1);
    s.(disk := s.disk[home := data], cache := s.cache[home := Buf(data, false)], phase := Installing(s.phase.tail + 1))
  }

  /** The write_head that clears the log, after a commit or after recovery. */
  function EraseStep(g: Geometry, s: State, next: Phase): State
    requires Shaped(g, s)
  {
    var h := WithHeader(View(s, g.start), []);
    s.(disk := s.disk[g.start := h], cache := s.cache[g.start := Buf(h, false)], blocks := [], phase := next)
  }

  /** bread of a block that is not cached. */
  function BreadStep(s: State, b: nat): State
    requires b < |s.disk|
  {
    if b in s.cache then s else s.(cache := s.cache[b := Buf(s.disk[b], false)])
  }

  /** The power fails: only the disk is left. */
  function CrashStep(s: State): State {
    s.(cache := map[], blocks := [], active := [], phase := Booting,
       latest := s.committed,
       updates := if s.durable <= |s.updates| then s.updates[..s.durable] else s.updates)
  }

  /** read_head at boot. */
  function ReadHeadStep(g: Geometry, s: State): State
    requires Shaped(g, s)
  {
    s.(blocks := Listed(View(s, g.start)), phase := Recovering(0))
  }

  /** One turn of the loop of install_trans, at boot. */
  function RecoverStep(g: Geometry, s: State): State
    requires Shaped(g, s) && s.phase.Recovering? && s.phase.tail < |s.blocks|
  {
    var home, data := s.blocks[s.phase.tail], View(s, g.start + s.phase.tail + 1);
    s.(disk := s.disk[home := data], cache := s.cache[home := Buf(data, false)], phase := Recovering(s.phase.tail + 1))
  }

  function Apply(g: Geometry, s: State, step: Step): State
    requires Shaped(g, s)
    requires Enabled(g, s, step)
  {
    match step
    case Begin => BeginStep(s)
    case Check(i) => CheckStep(s, i)
    case LogWrite(i, b, data) => LogWriteStep(s, i, b, data)
    case End(i) => EndStep(s, i)
    case WriteLogBlock => WriteLogStep(g, s)
    case WriteHead => WriteHeadStep(g, s)
    case InstallBlock => InstallStep(g, s)
    case Erase => EraseStep(g, s, Closing)
    case Finish => s.(phase := Idle)
    case Bread(b) => BreadStep(s, b)
    case Evict(b) => s.(cache := s.cache - {b})
    case Crash => CrashStep(s)
    case ReadHead => ReadHeadStep(g, s)
    case RecoverBlock => RecoverStep(g, s)
    case RecoverErase => EraseStep(g, s, Idle)
  }
}
