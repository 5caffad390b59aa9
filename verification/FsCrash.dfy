/**
 Files over the log: the calls of log_write that the file system makes are the updates of the log machine, so that after
 a crash at any moment and recovery the file system is at rest, as some whole number of its transactions left it.
 */
module FsCrash {
  import opened Blocks
  import opened FsLayout
  import opened FsInvariant
  import opened FsContents
  import opened FsCode
  import opened SetSizes
  import LogMachine
  import LogInvariant
  import LogTheorems
  import LogSpace

  // ---------------------------------------------------------------- blocks of words and blocks of bytes

  function ByteOf(w: int, j: nat): Byte
    decreases j
  {
    if j == 0 then w % 256 else ByteOf(w / 256, j - 1)
  }

  /** The bytes of a block that the log treats as words, low bytes first. */
  function BytesIn(block: Block): Data {
    seq(BSIZE, p requires 0 <= p < BSIZE => ByteOf(block[p / 4], p % 4))
  }

  function WordsIn(d: Data): Block {
    seq(WORDS, j requires 0 <= j < WORDS => LongAt(d, 4 * j))
  }

  /** No block is lost between the two. */
  lemma WordsRoundTrip(d: Data)
    ensures BytesIn(WordsIn(d)) == d
  {
    hide ByteOf, LongAt;
    forall p: nat | p < BSIZE ensures BytesIn(WordsIn(d))[p] == d[p] {
      WordByte(d, p / 4, p % 4);
    }
  }

  lemma WordByte(d: Data, j: nat, r: nat)
    requires j < WORDS && r < 4
    ensures ByteOf(LongAt(d, 4 * j), r) == d[4 * j + r]
  {
    FourBack(d[4 * j], d[4 * j + 1], d[4 * j + 2], d[4 * j + 3]);
  }

  lemma FourBack(b0: Byte, b1: Byte, b2: Byte, b3: Byte)
    ensures
      var w := b0 as int + 256 * b1 as int + 65536 * b2 as int + 16777216 * b3 as int;
      ByteOf(w, 0) == b0 && ByteOf(w, 1) == b1 && ByteOf(w, 2) == b2 && ByteOf(w, 3) == b3
  {
    var w3: int := b3;
    var w2 := b2 + 256 * w3;
    var w1 := b1 + 256 * w2;
    LowByte(b3, 0);
    LowByte(b2, w3);
    LowByte(b1, w2);
    LowByte(b0, w1);
    var w := b0 + 256 * w1;
    assert ByteOf(w, 1) == ByteOf(w1, 0) && ByteOf(w, 2) == ByteOf(w1, 1) == ByteOf(w2, 0);
    assert ByteOf(w, 3) == ByteOf(w1, 2) == ByteOf(w2, 1) == ByteOf(w3, 0);
  }

  lemma LowByte(b: Byte, q: int)
    ensures (b + 256 * q) % 256 == b && (b + 256 * q) / 256 == q
  {
  }

  function DiskOf(disk: LogMachine.Disk): (r: Disk)
    ensures |r| == |disk|
  {
    seq(|disk|, b requires 0 <= b < |disk| => BytesIn(disk[b]))
  }

  // ---------------------------------------------------------------- the history of the log and the transactions

  /** These updates are the log_write calls ws of operation op. */
  ghost predicate Makes(us: seq<LogMachine.Update>, ws: seq<Write>, op: nat) {
    && |us| == |ws|
    && forall k :: 0 <= k < |us| ==> us[k].op == op && us[k].b == ws[k].b && BytesIn(us[k].data) == ws[k].data
  }

  /** The updates are the calls of the transactions ts one after the other, each of its own operation. */
  ghost predicate History(us: seq<LogMachine.Update>, ts: seq<Transaction>, ops: seq<nat>)
    decreases |ts|
  {
    && |ts| == |ops|
    && if ts == [] then us == []
       else
         var last := |ts| - 1;
         var n := |us| - |ts[last].writes|;
         n >= 0 && Makes(us[n..], ts[last].writes, ops[last]) && History(us[..n], ts[..last], ops[..last])
  }

  lemma {:induction false} ReplayConcat(disk: LogMachine.Disk, a: seq<LogMachine.Update>, b: seq<LogMachine.Update>)
    ensures LogMachine.Replay(disk, a + b) == LogMachine.Replay(LogMachine.Replay(disk, a), b)
    decreases |b|
  {
    if b == [] {
      assert a + b == a;
    } else {
      ReplayConcat(disk, a, b[..|b| - 1]);
      assert (a + b)[..|a + b| - 1] == a + b[..|b| - 1];
    }
  }

  /** Replaying the updates of one operation is making its calls. */
  lemma {:induction false} MakesSame(disk: LogMachine.Disk, us: seq<LogMachine.Update>, ws: seq<Write>, op: nat)
    requires Makes(us, ws, op)
    ensures DiskOf(LogMachine.Replay(disk, us)) == Replayed(DiskOf(disk), ws)
    decreases |us|
  {
    if us != [] {
      var last := |us| - 1;
      MakesSame(disk, us[..last], ws[..last], op);
      var d := LogMachine.Replay(disk, us[..last]);
      if us[last].b < |d| {
        assert DiskOf(d[us[last].b := us[last].data]) == DiskOf(d)[us[last].b := ws[last].data];
      }
    }
  }

  /** Replaying the history of a chain of transactions leads to the disk that the last one leaves. */
  lemma {:induction false} HistorySame(g: Super, disk: LogMachine.Disk, us: seq<LogMachine.Update>,
          ts: seq<Transaction>, ops: seq<nat>, after: Disk)
    requires History(us, ts, ops) && Chain(g, DiskOf(disk), ts, after)
    ensures DiskOf(LogMachine.Replay(disk, us)) == after
    decreases |ts|
  {
    if ts != [] {
      hide AtRest, DiskOf;
      var last := |ts| - 1;
      var n := |us| - |ts[last].writes|;
      HistorySame(g, disk, us[..n], ts[..last], ops[..last], ts[last].before);
      MakesSame(LogMachine.Replay(disk, us[..n]), us[n..], ts[last].writes, ops[last]);
      ReplayConcat(disk, us[..n], us[n..]);
      assert us[..n] + us[n..] == us;
    }
  }

  lemma LastOps(us: seq<LogMachine.Update>, ts: seq<Transaction>, ops: seq<nat>)
    requires History(us, ts, ops) && ts != []
    ensures |ops| == |ts|
    ensures forall k :: |us| - |ts[|ts| - 1].writes| <= k < |us| ==> k >= 0 && us[k].op == ops[|ts| - 1]
  {
    var n := |us| - |ts[|ts| - 1].writes|;
    forall k | n <= k < |us| ensures us[k].op == ops[|ts| - 1] {
      assert us[k] == us[n..][k - n];
    }
  }

  /** What a log commits ends at the end of a transaction, if no operation is committed in part. */
  lemma {:induction false} WholeTransactions(us: seq<LogMachine.Update>, ts: seq<Transaction>, ops: seq<nat>, d: nat)
      returns (j: nat)
    requires History(us, ts, ops) && d <= |us|
    requires forall i, k :: 0 <= i < d <= k < |us| ==> us[i].op != us[k].op
    ensures j <= |ts| == |ops| && History(us[..d], ts[..j], ops[..j])
    decreases |ts|
  {
    if d == |us| {
      assert us[..d] == us && ts[..|ts|] == ts && ops[..|ops|] == ops;
      return |ts|;
    }
    var last := |ts| - 1;
    var n := |us| - |ts[last].writes|;
    LastOps(us, ts, ops);
    var ending, beginning := if d > 0 then us[d - 1].op else 0, us[d].op;
    assert d <= n;
    j := WholeTransactions(us[..n], ts[..last], ops[..last], d);
    assert us[..n][..d] == us[..d] && ts[..last][..j] == ts[..j] && ops[..last][..j] == ops[..j];
  }

  /** The moment after the first j transactions. */
  ghost function After(m: Moment, ts: seq<Transaction>, j: nat): Moment
    requires j <= |ts|
  {
    if j == 0 then m else ts[j - 1].after
  }

  lemma {:induction false} ChainPrefix(g: Super, m: Moment, ts: seq<Transaction>, j: nat, after: Disk)
    requires Chain(g, m.disk, ts, after) && j <= |ts| && AtRest(g, m)
    ensures Chain(g, m.disk, ts[..j], After(m, ts, j).disk) && AtRest(g, After(m, ts, j))
    decreases |ts|
  {
    hide AtRest;
    if j == |ts| {
      assert ts[..j] == ts;
    } else {
      var last := |ts| - 1;
      ChainPrefix(g, m, ts[..last], j, ts[last].before);
      assert ts[..last][..j] == ts[..j];
    }
  }

  // ---------------------------------------------------------------- the log's own blocks do not matter to the files

  /** From the inode blocks on, the two disks are the same. */
  ghost predicate SameFiles(g: Super, disk: Disk, after: Disk) {
    |after| == |disk| && forall b: nat :: g.inodestart <= b < |disk| ==> after[b] == disk[b]
  }

  lemma SameFilesTouched(g: Super, disk: Disk, after: Disk)
    requires SameFiles(g, disk, after)
    ensures OnlyTouched(disk, after, Below(g.inodestart))
  {
  }

  lemma SameFilesSound(g: Super, m: Moment, after: Disk)
    requires Sound(g, m) && SameFiles(g, m.disk, after)
    ensures Sound(g, m.(disk := after))
  {
    SoundValid(g, m);
    BlockRanges(g, 0, 0);
    SameFilesTouched(g, m.disk, after);
    BitmapKept(g, m.disk, after, m.owner, Below(g.inodestart));
    hide Used, ListsWords, OnlyTouched, Below, BitmapAgrees;
    forall i: nat | i < |m.table| ensures Maps(after, m.table[i], m.files[i]) {
      assert Maps(m.disk, m.table[i], m.files[i]);
      if Ind(m.table[i]) != 0 {
        assert HasPlace(m.owner, Ind(m.table[i]), Indirect(i));
      }
    }
  }

  /** The same inodes with the same contents, on another disk. */
  ghost predicate Restored(g: Super, m: Moment, n: Moment) {
    && AtRest(g, m) && AtRest(g, n) && n.table == m.table && n.files == m.files
    && forall i: nat :: i < g.ninodes ==> BytesOf(g, n, i) == BytesOf(g, m, i)
  }

  lemma SameFilesRest(g: Super, m: Moment, after: Disk)
    requires AtRest(g, m) && SameFiles(g, m.disk, after)
    ensures Restored(g, m, m.(disk := after))
  {
    SameFilesSound(g, m, after);
    SoundValid(g, m);
    hide Consistent, Used, InodeIn, Sized;
    forall i: nat | i < g.ninodes ensures InodeAt(g, after, i) == m.table[i] {
      BlockRanges(g, i, 0);
      assert InodeAt(g, m.disk, i) == m.table[i];
    }
    forall i: nat | i < g.ninodes ensures BytesOf(g, m.(disk := after), i) == BytesOf(g, m, i) {
      FileInRange(g, m.disk, m.table, m.files, m.owner, i);
      SizedRoom(m.table[i], m.files[i]);
      SameContents(m.disk, after, m.files[i], m.table[i].size, g.datastart);
    }
  }

  lemma SameContents(disk: Disk, after: Disk, blocks: seq<int>, size: nat, lo: int)
    requires InRange(disk, blocks) && |after| == |disk| && size <= BSIZE * |blocks|
    requires forall k: nat :: k < |blocks| ==> lo <= blocks[k]
    requires forall b: nat :: lo <= b < |disk| ==> after[b] == disk[b]
    ensures InRange(after, blocks) && Contents(after, blocks, size) == Contents(disk, blocks, size)
  {
  }

  // ---------------------------------------------------------------- files after a crash

  /** The log lies before the inode blocks of the same disk. */
  predicate BeforeFiles(l: LogMachine.Geometry, g: Super) {
    l.start + l.size <= g.inodestart && l.nblocks == g.size
  }

  /**
   The file system after a crash. The log was over a disk at rest; its updates so far are the calls of a chain of
   transactions and then of operations that have not ended. Whatever was on the disk when the power failed, recovery
   gives a file system at rest: all of its files are as they were after one of these transactions, or at the beginning.
   No transaction is there in part.
   */
  lemma FilesAfterCrash(l: LogMachine.Geometry, g: Super, disk: LogMachine.Disk, steps: seq<LogMachine.Step>,
          s: LogMachine.State, m: Moment, ts: seq<Transaction>, ops: seq<nat>, now: Disk, n: nat)
      returns (j: nat)
    requires LogTheorems.Formatted(l, disk) && LogTheorems.SafeRun(l, LogTheorems.PowerOn(disk), steps, s)
    requires BeforeFiles(l, g) && AtRest(g, m) && m.disk == DiskOf(disk)
    requires Chain(g, m.disk, ts, now) && n <= |s.updates| && History(s.updates[..n], ts, ops)
    requires forall k :: n <= k < |s.updates| ==> Runs(s.active, s.updates[k].op)
    ensures l.Valid() && |s.disk| == l.nblocks && LogMachine.GoodEntries(l, LogMachine.Listed(s.disk[l.start]))
    ensures j <= |ts| && s.durable <= n && History(s.updates[..s.durable], ts[..j], ops[..j])
    ensures Restored(g, After(m, ts, j), After(m, ts, j).(disk := DiskOf(LogTheorems.Recovered(l, s.disk))))
  {
    hide AtRest, History, Chain, Makes, LogTheorems.SafeRun, LogTheorems.Formatted, LogTheorems.PowerOn,
      LogTheorems.Recovered, LogMachine.GoodEntries, DiskOf, BytesOf, SameFiles, Runs, Restored;
    LogTheorems.CrashAtomicity(l, disk, steps, s);
    CommittedPart(s, n);
    j := WholeTransactions(s.updates[..n], ts, ops, s.durable);
    assert s.updates[..n][..s.durable] == s.updates[..s.durable];
    ChainPrefix(g, m, ts, j, now);
    HistorySame(g, disk, s.updates[..s.durable], ts[..j], ops[..j], After(m, ts, j).disk);
    HomeSame(l, g, LogTheorems.Recovered(l, s.disk), LogMachine.Replay(disk, s.updates[..s.durable]));
    SameFilesRest(g, After(m, ts, j), DiskOf(LogTheorems.Recovered(l, s.disk)));
  }

  /** The blocks of calls of log_write. */
  ghost function CallBlocks(ws: seq<Write>): set<int> {
    set k | 0 <= k < |ws| :: ws[k].b
  }

  ghost function PlanBlocks(plan: nat -> Transaction): nat -> set<int> {
    (op: nat) => CallBlocks(plan(op).writes)
  }

  /** A transaction that fits calls log_write for few enough blocks, if one block holds the map. */
  lemma FitsTheLog(g: Super, t: Transaction)
    requires Fits(g, t) && g.size <= BPB
    ensures |CallBlocks(t.writes)| <= 7
  {
    SizeOfPart(CallBlocks(t.writes), t.blocks);
  }

  /**
   The same for every interleaving in the log, whenever the guard is tested, of operations that each log only blocks
   of a transaction that fits: on a disk whose map is one block, no more is to be said of the run.
   */
  lemma FilesAfterAnyCrash(l: LogMachine.Geometry, g: Super, disk: LogMachine.Disk, steps: seq<LogMachine.Step>,
          s: LogMachine.State, m: Moment, ts: seq<Transaction>, ops: seq<nat>, now: Disk, n: nat,
          plan: nat -> Transaction)
      returns (j: nat)
    requires LogTheorems.Formatted(l, disk) && l.size >= LOGSIZE && g.size <= BPB
    requires forall op :: Fits(g, plan(op))
    requires LogSpace.KeepingRun(l, LogTheorems.PowerOn(disk), steps, s, PlanBlocks(plan))
    requires BeforeFiles(l, g) && AtRest(g, m) && m.disk == DiskOf(disk)
    requires Chain(g, m.disk, ts, now) && n <= |s.updates| && History(s.updates[..n], ts, ops)
    requires forall k :: n <= k < |s.updates| ==> Runs(s.active, s.updates[k].op)
    ensures l.Valid() && |s.disk| == l.nblocks && LogMachine.GoodEntries(l, LogMachine.Listed(s.disk[l.start]))
    ensures j <= |ts| && s.durable <= n && History(s.updates[..s.durable], ts[..j], ops[..j])
    ensures Restored(g, After(m, ts, j), After(m, ts, j).(disk := DiskOf(LogTheorems.Recovered(l, s.disk))))
  {
    hide AtRest, History, Chain, Fits, LogTheorems.Formatted, LogSpace.KeepingRun, LogTheorems.PowerOn;
    forall op ensures |CallBlocks(plan(op).writes)| <= MAXOPBLOCKS - 1 {
      FitsTheLog(g, plan(op));
    }
    LogSpace.FewBlocksAreSafe(l, disk, steps, s, PlanBlocks(plan));
    j := FilesAfterCrash(l, g, disk, steps, s, m, ts, ops, now, n);
  }

  ghost predicate Runs(active: seq<LogMachine.Op>, op: nat) {
    exists i :: 0 <= i < |active| && active[i].id == op
  }

  /** Nothing of an operation that still runs is committed. */
  lemma CommittedPart(s: LogMachine.State, n: nat)
    requires s.durable <= |s.updates| && n <= |s.updates|
    requires forall k :: n <= k < |s.updates| ==> Runs(s.active, s.updates[k].op)
    requires forall i, k :: 0 <= i < s.durable && 0 <= k < |s.active| ==> s.updates[i].op != s.active[k].id
    ensures s.durable <= n
  {
    if n < |s.updates| {
      assert Runs(s.active, s.updates[n].op);
      var i :| 0 <= i < |s.active| && s.active[i].id == s.updates[n].op;
    }
  }

  lemma HomeSame(l: LogMachine.Geometry, g: Super, a: LogMachine.Disk, b: LogMachine.Disk)
    requires LogInvariant.HomeHolds(l, a, b) && BeforeFiles(l, g)
    ensures SameFiles(g, DiskOf(b), DiskOf(a))
  {
    forall x: nat | g.inodestart <= x < |b| ensures DiskOf(a)[x] == DiskOf(b)[x] {
      assert l.IsHome(x);
    }
  }

  /** If the transactions are those of one filewrite, its file has afterwards a beginning of src written into it. */
  lemma FilewriteAfterCrash(g: Super, m: Moment, ts: seq<Transaction>, j: nat, r: Moment, i: nat, start: nat,
          src: seq<Byte>)
    requires j <= |ts| && Restored(g, After(m, ts, j), r) && AtRest(g, m) && i < g.ninodes
    requires i < |m.table| && i < |m.files| && AllPartly(g, ts, i, BytesOf(g, m, i), start, src)
    ensures Partly(g, r, i, BytesOf(g, m, i), start, src)
  {
    hide Consistent, BytesOf, Splice, InodeAt, SoundTable, Sized;
    var whole, q := BytesOf(g, m, i), After(m, ts, j);
    if j == 0 && start <= |whole| {
      SpliceNone(whole, start, src);
      var none := src[..0];
      assert BytesOf(g, r, i) == Splice(whole, start, src[..0]);
    }
    assert Partly(g, q, i, whole, start, src) || q == m;
  }
}
