/**
 What the log promises, over every run of its machine from a disk with an empty log in which no append overruns the
 log. LogSpace says exactly when none does.
 */
module LogTheorems {
  import opened Blocks
  import opened LogMachine
  import opened LogInvariant

  /** A disk as mkfs leaves it: the header block counts no entries. */
  ghost predicate Formatted(g: Geometry, disk: Disk) {
    && g.Valid()
    && |disk| == g.nblocks
    && disk[g.start][0] == 0
  }

  /** The machine is switched on over a disk. */
  ghost function PowerOn(disk: Disk): State {
    State(disk, map[], [], [], Booting, 0, disk, disk, disk, [], 0)
  }

  /** s can become t by taking the given steps in order. */
  ghost predicate Run(g: Geometry, s: State, steps: seq<Step>, t: State)
    decreases |steps|
  {
    if steps == [] then s == t
    else Shaped(g, s) && Enabled(g, s, steps[0]) && Run(g, Apply(g, s, steps[0]), steps[1..], t)
  }

  /** The same, and no append of log_write overruns the log. */
  ghost predicate SafeRun(g: Geometry, s: State, steps: seq<Step>, t: State)
    decreases |steps|
  {
    if steps == [] then s == t
    else
      && Shaped(g, s) && Enabled(g, s, steps[0]) && !Overruns(g, s, steps[0])
      && SafeRun(g, Apply(g, s, steps[0]), steps[1..], t)
  }

  lemma PowerOnGood(g: Geometry, disk: Disk)
    requires Formatted(g, disk)
    ensures Inv(g, PowerOn(disk))
  {
  }

  lemma {:induction false} RunKeeps(g: Geometry, s: State, steps: seq<Step>, t: State)
    requires Inv(g, s) && SafeRun(g, s, steps, t)
    ensures Inv(g, t)
    decreases |steps|
  {
    hide Inv;
    if steps != [] {
      StepKeeps(g, s, steps[0]);
      RunKeeps(g, Apply(g, s, steps[0]), steps[1..], t);
    }
  }

  // ---------------------------------------------------------------- what recovery computes

  /** The disk after the first k copies of install_trans, working from the disk alone. */
  ghost function Installed(g: Geometry, disk: Disk, list: seq<int>, k: nat): (r: Disk)
    requires g.Valid() && |disk| == g.nblocks && GoodEntries(g, list) && k <= |list|
    ensures |r| == |disk|
  {
    if k == 0 then disk
    else
      var d := Installed(g, disk, list, k - 1);
      d[list[k - 1] := d[g.start + k]]
  }

  /** The disk after a whole uninterrupted recovery. */
  ghost function Recovered(g: Geometry, disk: Disk): Disk
    requires g.Valid() && |disk| == g.nblocks && GoodEntries(g, Listed(disk[g.start]))
  {
    var list := Listed(disk[g.start]);
    Installed(g, disk, list, |list|)[g.start := WithHeader(disk[g.start], [])]
  }

  /** Block b is one of the first k entries. */
  predicate Among(list: seq<int>, k: nat, b: int)
    requires k <= |list|
  {
    exists i :: 0 <= i < k && list[i] == b
  }

  /** Copying the first k entries settles those home blocks and touches nothing else. */
  lemma {:induction false} InstalledMeaning(g: Geometry, disk: Disk, list: seq<int>, k: nat, d: Disk)
    requires g.Valid() && |disk| == |d| == g.nblocks && GoodEntries(g, list) && k <= |list|
    requires SlotsHold(g, disk, list, |list|, d)
    ensures
      var r := Installed(g, disk, list, k);
      && (forall b: nat :: b < g.nblocks && !Among(list, k, b) ==> r[b] == disk[b])
      && (forall i :: 0 <= i < k ==> r[list[i]] == d[list[i]])
  {
    if k != 0 {
      InstalledMeaning(g, disk, list, k - 1, d);
      assert !Among(list, k - 1, g.start + k);
    }
  }

  /** Wherever the power fails, the disk alone determines the committed contents. */
  lemma RecoveredIsCommitted(g: Geometry, s: State)
    requires Inv(g, s)
    ensures g.Valid() && |s.disk| == g.nblocks && GoodEntries(g, Listed(s.disk[g.start]))
    ensures HomeHolds(g, Recovered(g, s.disk), s.committed)
  {
    CrashStores(g, s.disk, s.cache, s.blocks, s.phase, s.latest, s.committed);
    var list := Listed(s.disk[g.start]);
    InstalledMeaning(g, s.disk, list, |list|, s.committed);
    var r := Installed(g, s.disk, list, |list|);
    forall b: nat | g.IsHome(b) ensures r[b] == s.committed[b] {
      if Among(list, |list|, b) {
        var i :| 0 <= i < |list| && list[i] == b;
      }
    }
  }

  // ---------------------------------------------------------------- crash atomicity

  /** Recovery from this image, however late and with nothing but the image, gives these home blocks. */
  ghost predicate Recovers(g: Geometry, image: Disk, home: Disk) {
    && g.Valid() && |image| == g.nblocks && GoodEntries(g, Listed(image[g.start]))
    && HomeHolds(g, Recovered(g, image), home)
  }

  /**
   An image of a run from disk recovers to whole operations: those that the machine state s, whose disk it is, has
   committed.
   */
  ghost predicate Atomic(g: Geometry, disk: Disk, image: Disk, s: State) {
    && s.disk == image
    && s.durable <= |s.updates|
    && Recovers(g, image, Replay(disk, s.updates[..s.durable]))
    && (forall i, j :: 0 <= i < s.durable <= j < |s.updates| ==> s.updates[i].op != s.updates[j].op)
    && (forall i, k :: 0 <= i < s.durable && 0 <= k < |s.active| ==> s.updates[i].op != s.active[k].id)
  }

  /**
   Crash atomicity. After any run in which no append overruns the log, whatever the disk holds at that moment,
   recovery from it leaves every home block exactly as a prefix of the logged changes made it; and the prefix
   contains every operation whole or not at all, and none that is still running.
   */
  lemma CrashAtomicity(g: Geometry, disk: Disk, steps: seq<Step>, s: State)
    requires Formatted(g, disk) && SafeRun(g, PowerOn(disk), steps, s)
    ensures g.Valid() && |s.disk| == g.nblocks && GoodEntries(g, Listed(s.disk[g.start]))
    ensures s.durable <= |s.updates|
    ensures HomeHolds(g, Recovered(g, s.disk), Replay(disk, s.updates[..s.durable]))
    ensures forall i, j :: 0 <= i < s.durable <= j < |s.updates| ==> s.updates[i].op != s.updates[j].op
    ensures forall i, k :: 0 <= i < s.durable && 0 <= k < |s.active| ==> s.updates[i].op != s.active[k].id
  {
    PowerOnGood(g, disk);
    RunKeeps(g, PowerOn(disk), steps, s);
    RecoveredIsCommitted(g, s);
    InitConstant(g, PowerOn(disk), steps, s);
  }

  lemma {:induction false} InitConstant(g: Geometry, s: State, steps: seq<Step>, t: State)
    requires SafeRun(g, s, steps, t)
    ensures t.init == s.init
    decreases |steps|
  {
    if steps != [] {
      InitConstant(g, Apply(g, s, steps[0]), steps[1..], t);
    }
  }

  predicate RecoveryStep(step: Step) {
    step.Crash? || step.ReadHead? || step.RecoverBlock? || step.RecoverErase? || step.Bread? || step.Evict?
  }

  /** Recovery appends nothing. */
  lemma {:induction false} RecoveryIsSafe(g: Geometry, s: State, steps: seq<Step>, t: State)
    requires forall i :: 0 <= i < |steps| ==> RecoveryStep(steps[i])
    requires Run(g, s, steps, t)
    ensures SafeRun(g, s, steps, t)
    decreases |steps|
  {
    if steps != [] {
      assert RecoveryStep(steps[0]);
      forall i | 0 <= i < |steps[1..]| ensures RecoveryStep(steps[1..][i]) {
        assert steps[1..][i] == steps[i + 1];
      }
      RecoveryIsSafe(g, Apply(g, s, steps[0]), steps[1..], t);
    }
  }

  /** While only recovery runs, however often it is cut short, the history does not move. */
  lemma {:induction false} RecoveryKeepsHistory(g: Geometry, s: State, steps: seq<Step>, t: State)
    requires Inv(g, s) && s.durable == |s.updates| && s.active == []
    requires s.phase.Booting? || s.phase.Recovering? || (s.phase == Idle && s.blocks == [])
    requires forall i :: 0 <= i < |steps| ==> RecoveryStep(steps[i])
    requires Run(g, s, steps, t)
    ensures t.updates == s.updates && t.durable == s.durable && t.committed == s.committed && t.init == s.init
    ensures t.phase == Idle ==> t.blocks == []
    decreases |steps|
  {
    hide Inv;
    if steps != [] {
      assert RecoveryStep(steps[0]);
      StepKeeps(g, s, steps[0]);
      forall i | 0 <= i < |steps[1..]| ensures RecoveryStep(steps[1..][i]) {
        assert steps[1..][i] == steps[i + 1];
      }
      RecoveryKeepsHistory(g, Apply(g, s, steps[0]), steps[1..], t);
    }
  }

  /**
   Recovery may be restarted any number of times: when it at last completes, the home blocks hold exactly the
   contents committed before the first crash, and the log is empty.
   */
  lemma RecoveryIsRestartable(g: Geometry, s: State, steps: seq<Step>, t: State)
    requires Inv(g, s)
    requires forall i :: 0 <= i < |steps| ==> RecoveryStep(steps[i])
    requires Run(g, CrashStep(s), steps, t) && t.phase == Idle
    ensures HomeHolds(g, t.disk, Replay(s.init, s.updates[..s.durable]))
    ensures Listed(t.disk[g.start]) == []
    ensures t.updates == s.updates[..s.durable]
    ensures forall b: nat :: g.IsHome(b) ==> View(t, b) == Replay(s.init, s.updates[..s.durable])[b]
  {
    StorageShaped(g, s);
    StepKeeps(g, s, Crash);
    RecoveryKeepsHistory(g, CrashStep(s), steps, t);
    RecoveryIsSafe(g, CrashStep(s), steps, t);
    RunKeeps(g, CrashStep(s), steps, t);
    assert t.updates[..t.durable] == t.updates;
    ViewIsLatest(g, t);
  }

  lemma StorageShaped(g: Geometry, s: State)
    requires Inv(g, s)
    ensures Shaped(g, s)
  {
  }

  /** Operations read their own and each other's changes at once, committed or not. */
  lemma ViewIsLatest(g: Geometry, s: State)
    requires Inv(g, s) && !s.phase.Booting? && !s.phase.Recovering?
    ensures forall b: nat :: g.IsHome(b) ==> View(s, b) == Replay(s.init, s.updates)[b]
  {
    forall b: nat | g.IsHome(b) ensures View(s, b) == s.latest[b] {
      assert s.disk[b] == s.latest[b] || Dirty(s.cache, b);
    }
  }

  // ---------------------------------------------------------------- durability

  /** Committed changes are never lost or reordered, whatever happens later. */
  lemma {:induction false} DurableForever(g: Geometry, s: State, steps: seq<Step>, t: State)
    requires Inv(g, s) && SafeRun(g, s, steps, t)
    ensures s.durable <= |s.updates| && s.durable <= t.durable <= |t.updates|
    ensures t.updates[..s.durable] == s.updates[..s.durable]
    decreases |steps|
  {
    hide Inv, Apply;
    DurableBound(g, s);
    if steps == [] {
    } else {
      var u := Apply(g, s, steps[0]);
      StepKeeps(g, s, steps[0]);
      DurableStep(g, s, steps[0]);
      DurableForever(g, u, steps[1..], t);
      assert t.updates[..s.durable] == t.updates[..u.durable][..s.durable];
      assert u.updates[..s.durable] == u.updates[..u.durable][..s.durable];
    }
  }

  lemma DurableBound(g: Geometry, s: State)
    requires Inv(g, s)
    ensures s.durable <= |s.updates|
  {
  }

  lemma DurableStep(g: Geometry, s: State, step: Step)
    requires Inv(g, s) && Shaped(g, s) && Enabled(g, s, step)
    ensures s.durable <= |s.updates|
    ensures
      var t := Apply(g, s, step);
      s.durable <= t.durable <= |t.updates| && t.updates[..s.durable] == s.updates[..s.durable]
  {
    hide StorageInv, WholeOps;
  }

  /** When the end_op that ran the commit returns, everything logged so far is durable. */
  lemma CommitMakesDurable(g: Geometry, s: State)
    requires Inv(g, s) && Enabled(g, s, Finish)
    ensures s.durable == |s.updates|
    ensures HomeHolds(g, Recovered(g, s.disk), Replay(s.init, s.updates))
  {
    assert s.updates[..|s.updates|] == s.updates;
    RecoveredIsCommitted(g, s);
  }

  // ---------------------------------------------------------------- no operation meets a commit

  /** No operation is outstanding while a commit or recovery runs; so end_op never finds log.committing set. */
  lemma CommittingPanicUnreachable(g: Geometry, disk: Disk, steps: seq<Step>, s: State)
    requires Formatted(g, disk) && SafeRun(g, PowerOn(disk), steps, s)
    ensures |s.active| > 0 ==> s.phase == Idle
    ensures forall i: nat :: i < |s.active| && !s.active[i].cleared ==> Enabled(g, s, End(i))
  {
    PowerOnGood(g, disk);
    RunKeeps(g, PowerOn(disk), steps, s);
  }

  /**
   Group commit. Whatever the operations under way have logged, begin_op lets another one in among them exactly as long
   as the entries and one full reservation for each are within LOGSIZE; and with none under way, whenever no commit or
   recovery is.
   */
  lemma JoinsExactly(g: Geometry, disk: Disk, steps: seq<Step>, s: State)
    requires Formatted(g, disk) && SafeRun(g, PowerOn(disk), steps, s)
    ensures s.active != [] ==>
      (Enabled(g, s, Begin) <==> |s.blocks| + |s.active| * MAXOPBLOCKS + MAXOPBLOCKS <= LOGSIZE)
    ensures s.active == [] ==> (Enabled(g, s, Begin) <==> s.phase == Idle)
  {
    PowerOnGood(g, disk);
    RunKeeps(g, PowerOn(disk), steps, s);
  }

  /** An operation that has logged all that it may, alone since the last commit, still lets a second one in. */
  lemma SecondJoins(g: Geometry, disk: Disk, steps: seq<Step>, s: State)
    requires Formatted(g, disk) && SafeRun(g, PowerOn(disk), steps, s)
    requires |s.active| == 1 && |s.blocks| == s.active[0].used <= MAXOPBLOCKS
    ensures Enabled(g, s, Begin)
    ensures |BeginStep(s).active| == 2 && BeginStep(s).active[0] == s.active[0] && BeginStep(s).blocks == s.blocks
  {
    JoinsExactly(g, disk, steps, s);
  }

  /** begin_op waits only while somebody who will wake it is at work: an operation, a commit or recovery. */
  lemma WaitingBeginHasWaker(g: Geometry, disk: Disk, steps: seq<Step>, s: State)
    requires Formatted(g, disk) && SafeRun(g, PowerOn(disk), steps, s)
    requires !Enabled(g, s, Begin)
    ensures |s.active| > 0 || s.phase != Idle
  {
    PowerOnGood(g, disk);
    RunKeeps(g, PowerOn(disk), steps, s);
  }
}
