/**
 How much log space begin_op's reservation really guarantees: one entry less per operation than MAXOPBLOCKS. With that
 many entries no append overruns the log, although log_write tests its guard without log.lock; with one more an append
 can, and then the log overwrites a block behind it before the commit.
 */
module LogSpace {
  import opened Blocks
  import opened LogMachine
  import opened LogInvariant
  import opened LogTheorems
  import opened SetSizes

  /** Entries that running operations may still add when each is allowed k in all. */
  function Owed(active: seq<Op>, k: int): int {
    if active == [] then 0 else k - active[0].used + Owed(active[1..], k)
  }

  lemma {:induction false} OwedConcat(a: seq<Op>, b: seq<Op>, k: int)
    ensures Owed(a + b, k) == Owed(a, k) + Owed(b, k)
  {
    if a == [] {
      assert a + b == b;
    } else {
      assert (a + b)[1..] == a[1..] + b;
      OwedConcat(a[1..], b, k);
    }
  }

  lemma OwedSplit(active: seq<Op>, i: nat, k: int)
    requires i < |active|
    ensures Owed(active, k) == Owed(active[..i], k) + (k - active[i].used) + Owed(active[i + 1..], k)
  {
    assert active == active[..i] + ([active[i]] + active[i + 1..]);
    OwedConcat(active[..i], [active[i]] + active[i + 1..], k);
  }

  lemma {:induction false} OwedBounds(active: seq<Op>, k: nat)
    requires forall i :: 0 <= i < |active| ==> active[i].used <= k
    ensures 0 <= Owed(active, k) <= k * |active|
  {
    if active != [] {
      OwedBounds(active[1..], k);
      assert k * |active| == k + k * |active[1..]|;
    }
  }

  /** Every operation adds at most k new entries to the log. */
  predicate Thrifty(s: State, step: Step, k: nat) {
    step.LogWrite? && step.i < |s.active| && step.b !in s.blocks ==> s.active[step.i].used < k
  }

  ghost predicate ThriftyRun(g: Geometry, s: State, steps: seq<Step>, t: State, k: nat)
    decreases |steps|
  {
    if steps == [] then s == t
    else
      && Shaped(g, s) && Enabled(g, s, steps[0]) && Thrifty(s, steps[0], k)
      && ThriftyRun(g, Apply(g, s, steps[0]), steps[1..], t, k)
  }

  /** With at most MAXOPBLOCKS - 1 entries each, entries used and owed stay within LOGSIZE - 2 together. */
  ghost predicate OpSpace(s: State)
  {
    && (forall i :: 0 <= i < |s.active| ==> s.active[i].used <= MAXOPBLOCKS - 1)
    && (s.active != [] ==> |s.blocks| + Owed(s.active, MAXOPBLOCKS - 1) <= LOGSIZE - 2)
    && |s.blocks| <= LOGSIZE - 2
  }

  /** Neither the list in memory nor the one on disk is ever longer than LOGSIZE - 2. */
  ghost predicate SpaceInv(g: Geometry, s: State)
  {
    && OpSpace(s)
    && g.start < |s.disk|
    && |Listed(s.disk[g.start])| <= LOGSIZE - 2
  }

  lemma BeginSpace(s: State)
    requires OpSpace(s) && |s.blocks| + (|s.active| + 1) * MAXOPBLOCKS <= LOGSIZE
    requires s.active == [] ==> s.blocks == []
    ensures OpSpace(BeginStep(s))
  {
    OwedConcat(s.active, [Op(s.nextOp, 0, false)], MAXOPBLOCKS - 1);
    OwedBounds(s.active, MAXOPBLOCKS - 1);
  }

  lemma LogWriteSpace(s: State, i: nat, b: nat, data: Block)
    requires OpSpace(s) && i < |s.active|
    requires b !in s.blocks ==> s.active[i].used < MAXOPBLOCKS - 1
    ensures OpSpace(LogWriteStep(s, i, b, data))
  {
    var t := LogWriteStep(s, i, b, data);
    OwedBounds(t.active, MAXOPBLOCKS - 1);
    OwedSplit(s.active, i, MAXOPBLOCKS - 1);
    OwedSplit(t.active, i, MAXOPBLOCKS - 1);
    assert t.active[..i] == s.active[..i] && t.active[i + 1..] == s.active[i + 1..];
  }

  lemma CheckSpace(s: State, i: nat)
    requires OpSpace(s) && i < |s.active|
    ensures OpSpace(CheckStep(s, i))
  {
    var t := CheckStep(s, i);
    OwedSplit(s.active, i, MAXOPBLOCKS - 1);
    OwedSplit(t.active, i, MAXOPBLOCKS - 1);
    assert t.active[..i] == s.active[..i] && t.active[i + 1..] == s.active[i + 1..];
  }

  /** So the append of an operation that may still add an entry finds room, whoever has added some since the test. */
  lemma AppendInRoom(g: Geometry, s: State, step: Step)
    requires OpSpace(s) && g.size >= LOGSIZE && Enabled(g, s, step) && Thrifty(s, step, MAXOPBLOCKS - 1)
    ensures !Overruns(g, s, step)
  {
    if step.LogWrite? && step.b !in s.blocks {
      var i := step.i;
      OwedSplit(s.active, i, MAXOPBLOCKS - 1);
      OwedBounds(s.active[..i], MAXOPBLOCKS - 1);
      OwedBounds(s.active[i + 1..], MAXOPBLOCKS - 1);
    }
  }

  lemma EndSpace(s: State, i: nat)
    requires OpSpace(s) && i < |s.active|
    ensures OpSpace(EndStep(s, i))
  {
    var t := EndStep(s, i);
    OwedBounds(s.active, MAXOPBLOCKS - 1);
    OwedSplit(s.active, i, MAXOPBLOCKS - 1);
    OwedConcat(s.active[..i], s.active[i + 1..], MAXOPBLOCKS - 1);
    forall j | 0 <= j < |t.active| ensures t.active[j].used <= MAXOPBLOCKS - 1 {
      assert t.active[j] == s.active[if j < i then j else j + 1];
    }
  }

  /** The list on disk is empty or the one in memory, except after a crash, which leaves it alone. */
  lemma ListOnDisk(g: Geometry, s: State)
    requires Inv(g, s) && !s.phase.Booting?
    ensures g.start < |s.disk| && |Listed(s.disk[g.start])| <= |s.blocks|
  {
    hide HistoryInv, WholeOps, DirtyFrom, DiskOrCache, DiskOrLog, SlotsHold, HomeHolds, NoneDirty;
  }

  lemma SpaceKeeps(g: Geometry, s: State, step: Step)
    requires Shaped(g, s) && Inv(g, s) && SpaceInv(g, s)
    requires Enabled(g, s, step) && Thrifty(s, step, MAXOPBLOCKS - 1) && g.size >= LOGSIZE
    ensures Inv(g, Apply(g, s, step)) && SpaceInv(g, Apply(g, s, step))
  {
    hide Inv;
    AppendInRoom(g, s, step);
    StepKeeps(g, s, step);
    StorageShaped(g, Apply(g, s, step));
    if Apply(g, s, step).phase.Booting? {
      BootsAfterCrash(g, s, step);
    } else {
      ListOnDisk(g, Apply(g, s, step));
    }
    OpSpaceKeeps(g, s, step);
  }

  lemma BootsAfterCrash(g: Geometry, s: State, step: Step)
    requires Shaped(g, s) && Enabled(g, s, step) && Apply(g, s, step).phase.Booting?
    ensures Apply(g, s, step).disk == s.disk
  {
  }

  lemma OpSpaceKeeps(g: Geometry, s: State, step: Step)
    requires Shaped(g, s) && Inv(g, s) && SpaceInv(g, s)
    requires Enabled(g, s, step) && Thrifty(s, step, MAXOPBLOCKS - 1) && g.size >= LOGSIZE
    ensures OpSpace(Apply(g, s, step))
  {
    hide StorageInv, Listed;
    match step
    case Begin => BeginSpace(s);
    case Check(i) => CheckSpace(s, i);
    case LogWrite(i, b, data) => LogWriteSpace(s, i, b, data);
    case End(i) => EndSpace(s, i);
    case ReadHead => HeaderOnDisk(g, s);
    case _ =>
  }

  /** At boot a reader of the header block sees the disk. */
  lemma HeaderOnDisk(g: Geometry, s: State)
    requires Inv(g, s) && s.phase.Booting?
    ensures g.start < |s.disk| && View(s, g.start) == s.disk[g.start]
  {
    hide HistoryInv, WholeOps, SlotsHold, DiskOrLog;
  }

  /** No append overruns the log in a run of operations that add at most MAXOPBLOCKS - 1 entries each. */
  lemma {:induction false} ThriftyRunKeeps(g: Geometry, s: State, steps: seq<Step>, t: State)
    requires Inv(g, s) && SpaceInv(g, s) && g.size >= LOGSIZE
    requires ThriftyRun(g, s, steps, t, MAXOPBLOCKS - 1)
    ensures Inv(g, t) && SpaceInv(g, t) && SafeRun(g, s, steps, t)
    decreases |steps|
  {
    hide Inv, SpaceInv;
    if steps != [] {
      assert OpSpace(s) by { SpaceParts(g, s); }
      AppendInRoom(g, s, steps[0]);
      SpaceKeeps(g, s, steps[0]);
      ThriftyRunKeeps(g, Apply(g, s, steps[0]), steps[1..], t);
    }
  }

  lemma SpaceParts(g: Geometry, s: State)
    requires SpaceInv(g, s)
    ensures OpSpace(s)
  {
  }

  /**
   If every operation adds at most MAXOPBLOCKS - 1 blocks, the log holds at most LOGSIZE - 2 entries at every moment of
   every run, in memory and on disk, commit, crash and recovery included. Then log_write's "too big a transaction" never
   fires, and no append goes past the log.
   */
  lemma TransactionNeverTooBig(g: Geometry, disk: Disk, steps: seq<Step>, s: State)
    requires g.size >= LOGSIZE && Formatted(g, disk)
    requires ThriftyRun(g, PowerOn(disk), steps, s, MAXOPBLOCKS - 1)
    ensures |s.blocks| <= LOGSIZE - 2 && g.HasRoom(|s.blocks|)
    ensures |s.disk| == g.nblocks && |Listed(s.disk[g.start])| <= LOGSIZE - 2
    ensures forall i: nat :: i < |s.active| && !s.active[i].cleared ==> Enabled(g, s, Check(i))
    ensures forall step :: Enabled(g, s, step) ==> !Overruns(g, s, step)
    ensures SafeRun(g, PowerOn(disk), steps, s)
  {
    PowerOnGood(g, disk);
    ThriftyRunKeeps(g, PowerOn(disk), steps, s);
    StorageShaped(g, s);
  }

  /**
   Crash atomicity over every interleaving of operations that add at most MAXOPBLOCKS - 1 entries each: wherever the
   power fails, recovery leaves whole operations and none that was still running.
   */
  lemma CrashAtomicity(g: Geometry, disk: Disk, steps: seq<Step>, s: State)
    requires g.size >= LOGSIZE && Formatted(g, disk)
    requires ThriftyRun(g, PowerOn(disk), steps, s, MAXOPBLOCKS - 1)
    ensures Atomic(g, disk, s.disk, s)
  {
    TransactionNeverTooBig(g, disk, steps, s);
    LogTheorems.CrashAtomicity(g, disk, steps, s);
  }

  // ---------------------------------------------------------------- an operation that keeps to few blocks

  /** An operation logs blocks of its own set only. */
  ghost predicate Keeps(s: State, step: Step, blocks: nat -> set<int>) {
    step.LogWrite? && step.i < |s.active| ==> step.b in blocks(s.active[step.i].id)
  }

  /** A run whose operations each keep to their set, however often they log its blocks. */
  ghost predicate KeepingRun(g: Geometry, s: State, steps: seq<Step>, t: State, blocks: nat -> set<int>)
    decreases |steps|
  {
    if steps == [] then s == t
    else
      && Shaped(g, s) && Enabled(g, s, steps[0]) && Keeps(s, steps[0], blocks)
      && KeepingRun(g, Apply(g, s, steps[0]), steps[1..], t, blocks)
  }

  /** The blocks that an operation has logged. */
  ghost function LoggedBy(us: seq<Update>, op: nat): set<int> {
    set k | 0 <= k < |us| && us[k].op == op :: us[k].b
  }

  /** Every entry counted for an operation is a block that it has logged, and that is listed as long as it runs. */
  ghost predicate Accounted(s: State, blocks: nat -> set<int>) {
    && (forall k :: 0 <= k < |s.updates| ==> s.updates[k].b in blocks(s.updates[k].op))
    && (forall i :: 0 <= i < |s.active| ==> s.active[i].used <= |LoggedBy(s.updates, s.active[i].id)|)
    && (forall i, k :: 0 <= i < |s.active| && 0 <= k < |s.updates| && s.updates[k].op == s.active[i].id ==>
          s.updates[k].b in s.blocks)
  }

  /** So the block that is a new entry is one more than those counted. */
  lemma KeepsThrifty(s: State, step: Step, blocks: nat -> set<int>, k: nat)
    requires Accounted(s, blocks) && Keeps(s, step, blocks) && forall op :: |blocks(op)| <= k
    ensures Thrifty(s, step, k)
  {
    if step.LogWrite? && step.i < |s.active| && step.b !in s.blocks {
      var op := s.active[step.i].id;
      var logged := LoggedBy(s.updates, op);
      SizeOfPart(logged, blocks(op) - {step.b as int});
    }
  }

  lemma LoggedMore(us: seq<Update>, u: Update, op: nat)
    ensures LoggedBy(us + [u], op) == LoggedBy(us, op) + if u.op == op then {u.b as int} else {}
  {
    forall x | x in LoggedBy(us, op) ensures x in LoggedBy(us + [u], op) {
      var k :| 0 <= k < |us| && us[k].op == op && us[k].b == x;
      assert (us + [u])[k] == us[k];
    }
    assert (us + [u])[|us|] == u;
  }

  lemma LogWriteAccounted(s: State, i: nat, b: nat, data: Block, blocks: nat -> set<int>)
    requires Accounted(s, blocks) && i < |s.active| && b in blocks(s.active[i].id)
    requires b !in s.blocks ==> s.active[i].used <= |LoggedBy(s.updates, s.active[i].id)|
    ensures Accounted(LogWriteStep(s, i, b, data), blocks)
  {
    var t, u := LogWriteStep(s, i, b, data), Update(s.active[i].id, b, data);
    forall j | 0 <= j < |t.active| ensures t.active[j].used <= |LoggedBy(t.updates, t.active[j].id)| {
      var logged := LoggedBy(s.updates, s.active[j].id);
      LoggedMore(s.updates, u, s.active[j].id);
      SizeOfPart(logged, LoggedBy(t.updates, s.active[j].id));
      if j == i && b !in s.blocks {
        assert b !in logged;
        assert |logged + {b as int}| == |logged| + 1;
      }
    }
  }

  /** A new operation has a number that nobody has used. */
  lemma BeginAccounted(s: State, blocks: nat -> set<int>)
    requires Accounted(s, blocks) && HistoryInv(s) && WholeOps(s)
    ensures Accounted(BeginStep(s), blocks)
  {
  }

  lemma AccountedKeeps(g: Geometry, s: State, step: Step, blocks: nat -> set<int>)
    requires Inv(g, s) && Shaped(g, s) && Enabled(g, s, step) && Accounted(s, blocks) && Keeps(s, step, blocks)
    ensures Accounted(Apply(g, s, step), blocks)
  {
    hide StorageInv, Listed;
    match step
    case Begin => BeginAccounted(s, blocks);
    case LogWrite(i, b, data) => LogWriteAccounted(s, i, b, data, blocks);
    case _ =>
  }

  /** Operations that keep to at most MAXOPBLOCKS - 1 blocks each add no more entries than that. */
  lemma {:induction false} KeepingIsThrifty(g: Geometry, s: State, steps: seq<Step>, t: State,
          blocks: nat -> set<int>)
    requires Inv(g, s) && SpaceInv(g, s) && g.size >= LOGSIZE && Accounted(s, blocks)
    requires KeepingRun(g, s, steps, t, blocks) && forall op :: |blocks(op)| <= MAXOPBLOCKS - 1
    ensures ThriftyRun(g, s, steps, t, MAXOPBLOCKS - 1)
    decreases |steps|
  {
    hide Inv, SpaceInv, Accounted;
    if steps != [] {
      KeepsThrifty(s, steps[0], blocks, MAXOPBLOCKS - 1);
      SpaceKeeps(g, s, steps[0]);
      AccountedKeeps(g, s, steps[0], blocks);
      KeepingIsThrifty(g, Apply(g, s, steps[0]), steps[1..], t, blocks);
    }
  }

  lemma FewBlocksAreSafe(g: Geometry, disk: Disk, steps: seq<Step>, s: State, blocks: nat -> set<int>)
    requires g.size >= LOGSIZE && Formatted(g, disk)
    requires KeepingRun(g, PowerOn(disk), steps, s, blocks) && forall op :: |blocks(op)| <= MAXOPBLOCKS - 1
    ensures ThriftyRun(g, PowerOn(disk), steps, s, MAXOPBLOCKS - 1) && SafeRun(g, PowerOn(disk), steps, s)
  {
    PowerOnGood(g, disk);
    KeepingIsThrifty(g, PowerOn(disk), steps, s, blocks);
    TransactionNeverTooBig(g, disk, steps, s);
  }

  // ---------------------------------------------------------------- and MAXOPBLOCKS each is too many

  /** What operation i of three that take turns has added of n entries. */
  function Share(n: nat, i: nat): nat
    requires i < 3
  {
    (n + 2 - i) / 3
  }

  /** n different blocks from first on have been logged by three operations in turn, and hold data. */
  ghost predicate Filled(s: State, first: nat, n: nat, data: Block) {
    && s.phase == Idle
    && |s.active| == 3
    && (forall i :: 0 <= i < 3 ==> s.active[i].used == Share(n, i) && !s.active[i].cleared)
    && Lists(s, first, n, data)
  }

  ghost predicate Lists(s: State, first: nat, n: nat, data: Block) {
    && |s.blocks| == n
    && (forall i :: 0 <= i < n ==> s.blocks[i] == first + i)
    && (forall b: int :: first <= b < first + n ==> b in s.cache && s.cache[b].data == data)
  }

  /** The disk is as it was but for the header, which lists nothing; all updates are from block first on. */
  ghost predicate AsFormatted(g: Geometry, s: State, disk: Disk, first: nat) {
    && g.Valid() && g.nblocks == |s.disk| == |disk|
    && (forall b: nat :: b < |disk| && b != g.start ==> s.disk[b] == disk[b])
    && Listed(s.disk[g.start]) == []
    && (forall k :: 0 <= k < |s.updates| ==> s.updates[k].b >= first)
  }

  /** The log has LOGSIZE blocks, and from first on there are as many home blocks. */
  ghost predicate HomeFrom(g: Geometry, first: nat) {
    g.Valid() && g.size == LOGSIZE && forall b: nat :: first <= b < first + LOGSIZE ==> g.IsHome(b)
  }

  /** The log has LOGSIZE blocks, and LOGSIZE + 1 home blocks follow it. */
  predicate Roomy(g: Geometry, first: nat) {
    && g.Valid() && g.size == LOGSIZE
    && first == g.start + g.size + 1 && first + LOGSIZE <= g.nblocks
  }

  lemma ListsShaped(g: Geometry, s: State, disk: Disk, first: nat, n: nat, data: Block)
    requires HomeFrom(g, first) && Lists(s, first, n, data) && AsFormatted(g, s, disk, first) && n < LOGSIZE
    ensures Shaped(g, s) && first + n !in s.blocks && g.IsHome(first + n)
  {
    assert g.IsHome(first + n);
    assert forall i :: 0 <= i < n ==> g.IsHome(s.blocks[i]);
  }

  lemma AppendLists(g: Geometry, s: State, disk: Disk, first: nat, n: nat, data: Block, i: nat)
    requires Lists(s, first, n, data) && AsFormatted(g, s, disk, first) && i < |s.active| && first + n !in s.blocks
    ensures Lists(LogWriteStep(s, i, first + n, data), first, n + 1, data)
    ensures AsFormatted(g, LogWriteStep(s, i, first + n, data), disk, first)
  {
    hide Listed;
  }

  /** One more block, by the operation whose turn it is: its test, and its append. */
  lemma FillOne(g: Geometry, s: State, disk: Disk, first: nat, n: nat, data: Block) returns (u: State, t: State)
    requires HomeFrom(g, first) && Filled(s, first, n, data) && AsFormatted(g, s, disk, first) && n < LOGSIZE - 1
    ensures Shaped(g, s) && Enabled(g, s, Check(n % 3)) && u == Apply(g, s, Check(n % 3))
    ensures Shaped(g, u) && Enabled(g, u, LogWrite(n % 3, first + n, data))
    ensures Thrifty(u, LogWrite(n % 3, first + n, data), MAXOPBLOCKS)
    ensures t == Apply(g, u, LogWrite(n % 3, first + n, data))
    ensures Filled(t, first, n + 1, data) && AsFormatted(g, t, disk, first)
  {
    ListsShaped(g, s, disk, first, n, data);
    u := CheckStep(s, n % 3);
    t := LogWriteStep(u, n % 3, first + n, data);
    SameLists(g, s, u, disk, first, n, data);
    AppendLists(g, u, disk, first, n, data, n % 3);
    Turn(n);
    hide Lists, AsFormatted, Shaped, Share;
    assert Shaped(g, u) by { ListsShaped(g, u, disk, first, n, data); }
  }

  lemma SameLists(g: Geometry, s: State, u: State, disk: Disk, first: nat, n: nat, data: Block)
    requires Lists(s, first, n, data) && AsFormatted(g, s, disk, first) && u == s.(active := u.active)
    ensures Lists(u, first, n, data) && AsFormatted(g, u, disk, first)
  {
  }

  /** Of three operations that take turns, one adds the next entry, and it has added at most nine. */
  lemma Turn(n: nat)
    requires n < LOGSIZE
    ensures Share(n, n % 3) < MAXOPBLOCKS
    ensures forall i :: 0 <= i < 3 ==> Share(n + 1, i) == Share(n, i) + if i == n % 3 then 1 else 0
  {
  }

  lemma {:induction false} Fill(g: Geometry, s: State, disk: Disk, first: nat, n: nat, m: nat, data: Block)
      returns (steps: seq<Step>, t: State)
    requires HomeFrom(g, first) && Filled(s, first, n, data) && AsFormatted(g, s, disk, first) && n <= m <= LOGSIZE - 1
    ensures ThriftyRun(g, s, steps, t, MAXOPBLOCKS)
    ensures Filled(t, first, m, data) && AsFormatted(g, t, disk, first)
    decreases m - n
  {
    hide Filled, AsFormatted, ThriftyRun;
    if n == m {
      RunNothing(g, s);
      return [], s;
    }
    var u, v := FillOne(g, s, disk, first, n, data);
    var rest, t' := Fill(g, v, disk, first, n + 1, m, data);
    t := t';
    Prepend(g, u, LogWrite(n % 3, first + n, data), rest, t, MAXOPBLOCKS);
    Prepend(g, s, Check(n % 3), [LogWrite(n % 3, first + n, data)] + rest, t, MAXOPBLOCKS);
    steps := [Check(n % 3)] + ([LogWrite(n % 3, first + n, data)] + rest);
  }

  lemma RunNothing(g: Geometry, s: State)
    ensures ThriftyRun(g, s, [], s, MAXOPBLOCKS)
  {
  }

  lemma Prepend(g: Geometry, s: State, step: Step, steps: seq<Step>, t: State, k: nat)
    requires Shaped(g, s) && Enabled(g, s, step) && Thrifty(s, step, k)
    requires ThriftyRun(g, Apply(g, s, step), steps, t, k)
    ensures ThriftyRun(g, s, [step] + steps, t, k)
  {
    assert ([step] + steps)[1..] == steps;
  }

  /** Booting from a formatted disk recovers nothing; then three operations are let in. */
  lemma ThreeBegin(g: Geometry, disk: Disk, first: nat, data: Block) returns (s: State)
    requires Formatted(g, disk) && HomeFrom(g, first)
    ensures forall rest, t :: ThriftyRun(g, s, rest, t, MAXOPBLOCKS) ==>
      ThriftyRun(g, PowerOn(disk), [ReadHead, RecoverErase, Begin, Begin, Begin] + rest, t, MAXOPBLOCKS)
    ensures Filled(s, first, 0, data) && AsFormatted(g, s, disk, first)
  {
    var s0 := PowerOn(disk);
    var s1 := ReadHeadStep(g, s0);
    var s2 := EraseStep(g, s1, Idle);
    HeaderRoundTrip(View(s1, g.start), []);
    var s3 := BeginStep(s2);
    var s4 := BeginStep(s3);
    s := BeginStep(s4);
    forall rest, t | ThriftyRun(g, s, rest, t, MAXOPBLOCKS)
      ensures ThriftyRun(g, PowerOn(disk), [ReadHead, RecoverErase, Begin, Begin, Begin] + rest, t, MAXOPBLOCKS)
    {
      Prepend(g, s4, Begin, rest, t, MAXOPBLOCKS);
      Prepend(g, s3, Begin, [Begin] + rest, t, MAXOPBLOCKS);
      Prepend(g, s2, Begin, [Begin] + ([Begin] + rest), t, MAXOPBLOCKS);
      Prepend(g, s1, RecoverErase, [Begin] + ([Begin] + ([Begin] + rest)), t, MAXOPBLOCKS);
      Prepend(g, s0, ReadHead, [RecoverErase] + ([Begin] + ([Begin] + ([Begin] + rest))), t, MAXOPBLOCKS);
      assert [ReadHead] + ([RecoverErase] + ([Begin] + ([Begin] + ([Begin] + rest))))
        == [ReadHead, RecoverErase, Begin, Begin, Begin] + rest;
    }
  }

  /**
   Three operations that keep to MAXOPBLOCKS blocks each do run into the guard: they are admitted together, none has
   logged more than its ten, the third has logged only nine, and no log_write gets past the guard any more.
   */
  lemma FullReservationsReachTheGuard(g: Geometry, disk: Disk, first: nat, data: Block)
      returns (steps: seq<Step>, s: State)
    requires Formatted(g, disk) && HomeFrom(g, first)
    ensures ThriftyRun(g, PowerOn(disk), steps, s, MAXOPBLOCKS)
    ensures |s.active| == 3 && s.active[2].used == MAXOPBLOCKS - 1
    ensures forall i :: !Enabled(g, s, Check(i))
  {
    hide ThriftyRun;
    var s5 := ThreeBegin(g, disk, first, data);
    var rest;
    rest, s := Fill(g, s5, disk, first, 0, LOGSIZE - 1, data);
    steps := [ReadHead, RecoverErase, Begin, Begin, Begin] + rest;
  }

  lemma RaceLists(g: Geometry, s: State, disk: Disk, first: nat, data: Block, a: State, b: State, c: State, t: State)
    requires HomeFrom(g, first) && Lists(s, first, 28, data) && AsFormatted(g, s, disk, first) && |s.active| == 3
    requires a == CheckStep(s, 1) && b == CheckStep(a, 2)
    requires c == LogWriteStep(b, 1, first + 28, data) && t == LogWriteStep(c, 2, first + 29, data)
    ensures Shaped(g, s) && Shaped(g, a) && Shaped(g, b) && Shaped(g, c)
    ensures g.IsHome(first + 28) && g.IsHome(first + 29) && first + 28 !in b.blocks && first + 29 !in c.blocks
    ensures Lists(t, first, LOGSIZE, data) && AsFormatted(g, t, disk, first)
  {
    hide Lists, AsFormatted, Shaped;
    SameLists(g, s, a, disk, first, 28, data);
    SameLists(g, s, b, disk, first, 28, data);
    ListsShaped(g, s, disk, first, 28, data);
    ListsShaped(g, a, disk, first, 28, data);
    ListsShaped(g, b, disk, first, 28, data);
    AppendLists(g, b, disk, first, 28, data, 1);
    ListsShaped(g, c, disk, first, 29, data);
    AppendLists(g, c, disk, first, 29, data, 2);
  }

  /** Two operations pass the guard with 28 entries listed, before either appends: then 30 are. */
  lemma Race(g: Geometry, s: State, disk: Disk, first: nat, data: Block) returns (t: State)
    requires HomeFrom(g, first) && Filled(s, first, LOGSIZE - 2, data) && AsFormatted(g, s, disk, first)
    ensures Filled(t, first, LOGSIZE, data) && AsFormatted(g, t, disk, first)
    ensures forall rest, q :: ThriftyRun(g, t, rest, q, MAXOPBLOCKS) ==> ThriftyRun(g, s,
      [Check(1), Check(2), LogWrite(1, first + 28, data), LogWrite(2, first + 29, data)] + rest, q, MAXOPBLOCKS)
  {
    var a := CheckStep(s, 1);
    var b := CheckStep(a, 2);
    var c := LogWriteStep(b, 1, first + 28, data);
    t := LogWriteStep(c, 2, first + 29, data);
    RaceLists(g, s, disk, first, data, a, b, c, t);
    Turn(28);
    Turn(29);
    assert |s.blocks| == 28;
    hide Lists, AsFormatted, Shaped, ThriftyRun;
    forall rest, q | ThriftyRun(g, t, rest, q, MAXOPBLOCKS)
      ensures ThriftyRun(g, s,
        [Check(1), Check(2), LogWrite(1, first + 28, data), LogWrite(2, first + 29, data)] + rest, q, MAXOPBLOCKS)
    {
      RaceRun(g, s, a, b, c, t, first, data, rest, q);
    }
  }

  lemma RaceRun(g: Geometry, s: State, a: State, b: State, c: State, t: State, first: nat, data: Block,
          rest: seq<Step>, q: State)
    requires Shaped(g, s) && Enabled(g, s, Check(1)) && a == Apply(g, s, Check(1))
    requires Shaped(g, a) && Enabled(g, a, Check(2)) && b == Apply(g, a, Check(2))
    requires Shaped(g, b) && Enabled(g, b, LogWrite(1, first + 28, data))
    requires Thrifty(b, LogWrite(1, first + 28, data), MAXOPBLOCKS) && c == Apply(g, b, LogWrite(1, first + 28, data))
    requires Shaped(g, c) && Enabled(g, c, LogWrite(2, first + 29, data))
    requires Thrifty(c, LogWrite(2, first + 29, data), MAXOPBLOCKS) && t == Apply(g, c, LogWrite(2, first + 29, data))
    requires ThriftyRun(g, t, rest, q, MAXOPBLOCKS)
    ensures ThriftyRun(g, s,
      [Check(1), Check(2), LogWrite(1, first + 28, data), LogWrite(2, first + 29, data)] + rest, q, MAXOPBLOCKS)
  {
    hide Shaped, Enabled, Apply, ThriftyRun;
    var w1, w2 := LogWrite(1, first + 28, data), LogWrite(2, first + 29, data);
    Prepend(g, c, w2, rest, q, MAXOPBLOCKS);
    Prepend(g, b, w1, [w2] + rest, q, MAXOPBLOCKS);
    Prepend(g, a, Check(2), [w1] + ([w2] + rest), q, MAXOPBLOCKS);
    Prepend(g, s, Check(1), [Check(2)] + ([w1] + ([w2] + rest)), q, MAXOPBLOCKS);
    assert [Check(1)] + ([Check(2)] + ([w1] + ([w2] + rest))) == [Check(1), Check(2), w1, w2] + rest;
  }

  /** All three end, and the commit begins. */
  lemma AllEnd(g: Geometry, s: State, first: nat, data: Block) returns (t: State)
    requires Roomy(g, first) && Filled(s, first, LOGSIZE, data) && |s.disk| == g.nblocks
    ensures t == s.(active := [], phase := WritingLog(0))
    ensures forall rest, q :: ThriftyRun(g, t, rest, q, MAXOPBLOCKS) ==>
      ThriftyRun(g, s, [End(0), End(0), End(0)] + rest, q, MAXOPBLOCKS)
  {
    var a := EndStep(s, 0);
    assert a.active == s.active[1..];
    var b := EndStep(a, 0);
    assert b.active == s.active[2..];
    t := EndStep(b, 0);
    assert t.active == [];
    forall rest, q | ThriftyRun(g, t, rest, q, MAXOPBLOCKS)
      ensures ThriftyRun(g, s, [End(0), End(0), End(0)] + rest, q, MAXOPBLOCKS)
    {
      Prepend(g, b, End(0), rest, q, MAXOPBLOCKS);
      Prepend(g, a, End(0), [End(0)] + rest, q, MAXOPBLOCKS);
      Prepend(g, s, End(0), [End(0)] + ([End(0)] + rest), q, MAXOPBLOCKS);
      assert [End(0)] + ([End(0)] + ([End(0)] + rest)) == [End(0), End(0), End(0)] + rest;
    }
  }

  /** write_log with all LOGSIZE entries: its last write is to the block behind the log. */
  lemma {:induction false} CopyAll(g: Geometry, s: State, first: nat, data: Block, tail: nat)
      returns (steps: seq<Step>, t: State)
    requires Roomy(g, first) && Lists(s, first, LOGSIZE, data) && |s.disk| == g.nblocks
    requires s.phase == WritingLog(tail) && tail < LOGSIZE
    ensures ThriftyRun(g, s, steps, t, MAXOPBLOCKS)
    ensures |t.disk| == |s.disk| && t.disk[g.start + LOGSIZE] == data && t.disk[g.start] == s.disk[g.start]
    ensures t.updates == s.updates && t.blocks == s.blocks
    decreases LOGSIZE - tail
  {
    var u := WriteLogStep(g, s);
    assert s.blocks[tail] == first + tail;
    if tail + 1 == LOGSIZE {
      steps, t := [], u;
    } else {
      steps, t := CopyAll(g, u, first, data, tail + 1);
    }
    Prepend(g, s, WriteLogBlock, steps, t, MAXOPBLOCKS);
    steps := [WriteLogBlock] + steps;
  }

  /** The disk of s recovers to what some number of the updates so far made of disk. */
  ghost predicate CrashSafe(g: Geometry, disk: Disk, s: State) {
    exists k :: 0 <= k <= |s.updates| && Recovers(g, s.disk, Replay(disk, s.updates[..k]))
  }

  lemma {:induction false} ReplayElsewhere(disk: Disk, us: seq<Update>, h: nat)
    requires h < |disk| && forall k :: 0 <= k < |us| ==> us[k].b != h
    ensures |Replay(disk, us)| == |disk| && Replay(disk, us)[h] == disk[h]
  {
    if us != [] {
      ReplayElsewhere(disk, us[..|us| - 1], h);
    }
  }

  lemma NotCrashSafe(g: Geometry, disk: Disk, s: State, h: nat)
    requires g.IsHome(h) && g.Valid() && |disk| == |s.disk| == g.nblocks
    requires forall k :: 0 <= k < |s.updates| ==> s.updates[k].b != h
    requires Listed(s.disk[g.start]) == [] && s.disk[h] != disk[h]
    ensures !CrashSafe(g, disk, s)
  {
    forall k | 0 <= k <= |s.updates| ensures !Recovers(g, s.disk, Replay(disk, s.updates[..k])) {
      ReplayElsewhere(disk, s.updates[..k], h);
    }
  }

  /** Some other contents. */
  function Other(block: Block): Block {
    block[0 := if block[0] == 0 then 1 else 0]
  }

  /**
   The run that overruns the log: no operation adds more than MAXOPBLOCKS entries, and yet write_log overwrites the
   block behind the log, so that after a crash before the commit that block holds what no operation wrote to it.
   */
  lemma OverrunBreaksAtomicity(g: Geometry, disk: Disk) returns (steps: seq<Step>, s: State)
    requires Formatted(g, disk) && Roomy(g, g.start + g.size + 1)
    ensures ThriftyRun(g, PowerOn(disk), steps, s, MAXOPBLOCKS)
    ensures |s.disk| == |disk| == g.nblocks && |s.blocks| == g.size
    ensures s.disk[g.start + g.size] != disk[g.start + g.size]
    ensures !CrashSafe(g, disk, s)
  {
    hide ThriftyRun, Filled;
    var h := g.start + g.size;
    var first, data := h + 1, Other(disk[h]);
    var s0 := ThreeBegin(g, disk, first, data);
    var filling, s1 := Fill(g, s0, disk, first, 0, LOGSIZE - 2, data);
    var s2 := Race(g, s1, disk, first, data);
    var s3 := AllEnd(g, s2, first, data);
    FilledLists(s2, first, LOGSIZE, data);
    var copying;
    copying, s := CopyAll(g, s3, first, data, 0);
    var ending := [End(0), End(0), End(0)] + copying;
    var racing := [Check(1), Check(2), LogWrite(1, first + 28, data), LogWrite(2, first + 29, data)] + ending;
    RunConcat(g, s0, filling, s1, racing, s, MAXOPBLOCKS);
    steps := [ReadHead, RecoverErase, Begin, Begin, Begin] + (filling + racing);
    NotCrashSafe(g, disk, s, h);
  }

  lemma FilledLists(s: State, first: nat, n: nat, data: Block)
    requires Filled(s, first, n, data)
    ensures Lists(s, first, n, data)
  {
  }

  lemma {:induction false} RunConcat(g: Geometry, s: State, steps: seq<Step>, t: State, more: seq<Step>, u: State,
          k: nat)
    requires ThriftyRun(g, s, steps, t, k) && ThriftyRun(g, t, more, u, k)
    ensures ThriftyRun(g, s, steps + more, u, k)
    decreases |steps|
  {
    if steps == [] {
      assert steps + more == more;
    } else {
      RunConcat(g, Apply(g, s, steps[0]), steps[1..], t, more, u, k);
      assert (steps + more)[1..] == steps[1..] + more;
    }
  }

  lemma {:induction false} ThriftyMore(g: Geometry, s: State, steps: seq<Step>, t: State, k: nat, more: nat)
    requires ThriftyRun(g, s, steps, t, k) && k <= more
    ensures ThriftyRun(g, s, steps, t, more)
    decreases |steps|
  {
    if steps != [] {
      ThriftyMore(g, Apply(g, s, steps[0]), steps[1..], t, k, more);
    }
  }

  // ---------------------------------------------------------------- exactly how many entries are safe

  /** All runs of operations with at most k entries each are crash safe. */
  ghost predicate AlwaysCrashSafe(g: Geometry, disk: Disk, k: nat) {
    forall steps, s :: ThriftyRun(g, PowerOn(disk), steps, s, k) ==> CrashSafe(g, disk, s)
  }

  /** In all these runs every entry has its block of the log. */
  ghost predicate NeverOverruns(g: Geometry, disk: Disk, k: nat) {
    forall steps, s :: ThriftyRun(g, PowerOn(disk), steps, s, k) ==> |s.blocks| <= g.size - 1
  }

  /** With a log of LOGSIZE blocks, k entries for each operation are safe exactly if k is less than MAXOPBLOCKS. */
  lemma SafeExactly(g: Geometry, disk: Disk, k: nat)
    requires Formatted(g, disk) && Roomy(g, g.start + g.size + 1)
    ensures AlwaysCrashSafe(g, disk, k) <==> k <= MAXOPBLOCKS - 1
    ensures NeverOverruns(g, disk, k) <==> k <= MAXOPBLOCKS - 1
  {
    hide ThriftyRun, CrashSafe, Recovers;
    if k <= MAXOPBLOCKS - 1 {
      forall steps, s | ThriftyRun(g, PowerOn(disk), steps, s, k)
        ensures CrashSafe(g, disk, s) && |s.blocks| <= g.size - 1
      {
        ThriftyMore(g, PowerOn(disk), steps, s, k, MAXOPBLOCKS - 1);
        TransactionNeverTooBig(g, disk, steps, s);
        CrashAtomicity(g, disk, steps, s);
        AtomicIsSafe(g, disk, s);
      }
    } else {
      var steps, s := OverrunBreaksAtomicity(g, disk);
      ThriftyMore(g, PowerOn(disk), steps, s, MAXOPBLOCKS, k);
    }
  }

  lemma AtomicIsSafe(g: Geometry, disk: Disk, s: State)
    requires Atomic(g, disk, s.disk, s)
    ensures CrashSafe(g, disk, s)
  {
  }
}
