/**
 The process table of proc.c on several CPUs: fork, exit, wait, sleep, wakeup, kill, yield and the scheduler.

 Every method is a stretch of code of one CPU between two points where another CPU may come in: taking or giving up
 ptable.lock, or swtch, across which the lock is held. A run of the kernel is a sequence of these calls in any order.

 fork stores to its new entry without the lock (ForkStack, ForkFail, ForkParent), so these calls may fall inside a
 stretch of another CPU that holds it. They commute with every part of such a stretch. The entry is an EMBRYO before
 and an EMBRYO or UNUSED afterwards, which no loop under the lock treats differently, except that of allocproc, which
 finds the entry free or not as if the store came later or earlier. Its parent is null or the process that is in fork;
 that one is not in exit or wait, so the tests p->parent == curproc there fail before and after the store. Nobody else
 touches the stack of an EMBRYO. Afterwards the state is the same whichever came first.
 */
module Proc {

  const NPROC: nat := 64

  datatype ProcState = Unused | Embryo | Sleeping | Runnable | Running | Zombie

  /** p->chan. wait sleeps on the address of its own table entry. */
  datatype Chan = Nowhere | OfProc(p: int) | OfOther(addr: nat)

  /** Where a process goes on when swtch comes back to it; Out is outside of the code under ptable.lock. */
  datatype Resume = Out | AtForkret | AtYield | AtSleep | AtWait

  predicate Live(s: ProcState) {
    s.Sleeping? || s.Runnable? || s.Running?
  }

  // ---------------------------------------------------------------- the parts of the invariant

  /** A process runs on one CPU at most, and ptable.lock is with the CPU that is between two processes. */
  ghost predicate Cpus(st: seq<ProcState>, at: seq<Resume>, lock: int, proc: seq<int>, on: seq<int>, cpuOf: seq<int>) {
    && |st| == |at| == |cpuOf| == NPROC && |on| == |proc| && -1 <= lock < |on|
    && (forall c: nat :: c < |on| && on[c] != -1 ==> 0 <= on[c] < NPROC && cpuOf[on[c]] == c && proc[c] == on[c])
    && (forall c: nat :: c < |on| && on[c] == -1 && proc[c] != -1 ==> lock == c)
    && (forall p: nat :: p < NPROC ==> -1 <= cpuOf[p] < |on| && (cpuOf[p] != -1 ==> on[cpuOf[p]] == p))
    && (forall p: nat :: p < NPROC && st[p].Running? ==> cpuOf[p] != -1)
    && (forall p: nat :: p < NPROC && cpuOf[p] != -1 && (!st[p].Running? || !at[p].Out?) ==> lock == cpuOf[p])
    && (forall p: nat :: p < NPROC && cpuOf[p] != -1 && st[p].Running? && at[p].Out? ==> lock != cpuOf[p])
    && (forall p: nat :: p < NPROC && cpuOf[p] != -1 ==> Live(st[p]) || st[p].Zombie?)
    && (forall p: nat :: p < NPROC && (st[p].Runnable? || st[p].Sleeping?) ==> !at[p].Out?)
  }

  /** Parents are alive, init among them, and table entries that are not in use have none. */
  ghost predicate Family(st: seq<ProcState>, parent: seq<int>, init: nat) {
    && |st| == |parent| == NPROC && init < NPROC && Live(st[init])
    && (forall q: nat :: q < NPROC && parent[q] != -1 ==> 0 <= parent[q] < NPROC && Live(st[parent[q]]))
    && (forall q: nat :: q < NPROC && st[q].Unused? ==> parent[q] == -1)
    && (forall q: nat :: q < NPROC ==> parent[q] != q)
    && parent[init] == -1
  }

  /** No process sleeps in wait while it has a ZOMBIE child. */
  ghost predicate NoLostExit(st: seq<ProcState>, parent: seq<int>, at: seq<Resume>, chan: seq<Chan>) {
    && |st| == |parent| == |at| == |chan| == NPROC
    && (forall p: nat :: p < NPROC && st[p].Sleeping? && at[p].AtWait? ==> chan[p] == OfProc(p))
    && (forall q: nat :: q < NPROC && st[q].Zombie? && 0 <= parent[q] < NPROC ==>
      !(st[parent[q]].Sleeping? && at[parent[q]].AtWait?))
  }

  /** A process that has been started has its kernel stack until wait frees it. */
  ghost predicate Stacks(st: seq<ProcState>, kstack: seq<bool>) {
    && |st| == |kstack| == NPROC
    && forall p: nat :: p < NPROC && (Live(st[p]) || st[p].Zombie?) ==> kstack[p]
  }

  /** Entries in use have a pid of their own; an unused one has none, or that of a fork that failed. */
  ghost predicate Pids(st: seq<ProcState>, pid: seq<int>, nextpid: int) {
    && |st| == |pid| == NPROC && nextpid > 0
    && (forall p: nat :: p < NPROC ==> 0 <= pid[p] < nextpid)
    && (forall p: nat :: p < NPROC && !st[p].Unused? ==> pid[p] != 0)
    && (forall p: nat, q: nat :: p < NPROC && q < NPROC && pid[p] == pid[q] != 0 ==> p == q)
  }

  /** All marked processes are RUNNABLE and not yet passed. */
  ghost predicate Ahead(row: seq<bool>, st: seq<ProcState>, place: nat) {
    && |row| == |st| == NPROC
    && forall q: nat :: q < NPROC && row[q] ==> place <= q && st[q].Runnable?
  }

  /**
   The scans of the schedulers. place[c] is how far CPU c has come in the table, and waits[c] marks the processes that
   were RUNNABLE when its scan began and that no CPU has run since: all of them are still ahead of it.
   */
  ghost predicate Fair(st: seq<ProcState>, proc: seq<int>, place: seq<nat>, waits: seq<seq<bool>>) {
    && |place| == |waits| == |proc|
    && (forall c: nat :: c < |waits| ==> Ahead(waits[c], st, place[c]))
    && (forall c: nat :: c < |proc| && proc[c] != -1 ==>
          proc[c] == place[c] < NPROC && |waits[c]| == NPROC && !waits[c][place[c]])
  }

  lemma FairKept(st: seq<ProcState>, st': seq<ProcState>, proc: seq<int>, place: seq<nat>, waits: seq<seq<bool>>)
    requires Fair(st, proc, place, waits) && |st'| == |st|
    requires forall q: nat :: q < |st| && st[q].Runnable? ==> st'[q].Runnable?
    ensures Fair(st', proc, place, waits)
  {
    forall c: nat | c < |waits| ensures Ahead(waits[c], st', place[c]) {
      assert Ahead(waits[c], st, place[c]);
    }
  }

  lemma FairOne(st: seq<ProcState>, p: nat, s: ProcState, proc: seq<int>, place: seq<nat>, waits: seq<seq<bool>>)
    requires Fair(st, proc, place, waits) && p < |st| && (st[p].Runnable? ==> s.Runnable?)
    ensures Fair(st[p := s], proc, place, waits)
  {
    hide Fair;
    FairKept(st, st[p := s], proc, place, waits);
  }

  /** Process p has been run: it waits for no scan any more. */
  function Served(waits: seq<seq<bool>>, p: nat): (r: seq<seq<bool>>)
    ensures |r| == |waits|
  {
    seq(|waits|, c requires 0 <= c < |waits| => if p < |waits[c]| then waits[c][p := false] else waits[c])
  }

  lemma FairRun(st: seq<ProcState>, proc: seq<int>, place: seq<nat>, waits: seq<seq<bool>>, c: nat, p: nat)
    requires Fair(st, proc, place, waits) && c < |proc| && p < NPROC == |st| && place[c] <= p
    requires forall q: nat :: place[c] <= q < p ==> !st[q].Runnable?
    ensures |place| == |waits| == |proc|
    ensures Fair(st[p := Running], proc[c := p], place[c := p], Served(waits, p))
  {
    var waits' := Served(waits, p);
    forall d: nat | d < |waits| ensures Ahead(waits'[d], st[p := Running], place[c := p][d]) {
      assert Ahead(waits[d], st, place[d]);
    }
  }

  /** A scan begins. */
  function Waiting(st: seq<ProcState>): (r: seq<bool>)
    ensures |r| == |st|
  {
    seq(|st|, q requires 0 <= q < |st| => st[q].Runnable?)
  }

  lemma FairBegin(st: seq<ProcState>, proc: seq<int>, place: seq<nat>, waits: seq<seq<bool>>, c: nat)
    requires Fair(st, proc, place, waits) && c < |proc| && proc[c] == -1 && |st| == NPROC
    ensures Fair(st, proc, place[c := 0], waits[c := Waiting(st)])
  {
    var waits', place' := waits[c := Waiting(st)], place[c := 0];
    forall d: nat | d < |waits'| ensures Ahead(waits'[d], st, place'[d]) {
      assert Ahead(waits[d], st, place[d]);
    }
  }

  /** The scan goes on to place n, having found nobody RUNNABLE, or only the process that it has run. */
  lemma FairOn(st: seq<ProcState>, proc: seq<int>, place: seq<nat>, waits: seq<seq<bool>>, c: nat, n: nat)
    requires Fair(st, proc, place, waits) && c < |proc| && place[c] <= n <= NPROC == |st|
    requires if proc[c] == -1 then forall q: nat :: place[c] <= q < n ==> !st[q].Runnable? else n == place[c] + 1
    ensures Fair(st, proc[c := -1], place[c := n], waits)
  {
    forall d: nat | d < |waits| ensures Ahead(waits[d], st, place[c := n][d]) {
      assert Ahead(waits[d], st, place[d]);
    }
  }

  /** wakeup1 */
  function Woken(st: seq<ProcState>, chan: seq<Chan>, ch: Chan): (r: seq<ProcState>)
    requires |st| == |chan|
    ensures |r| == |st|
  {
    seq(|st|, p requires 0 <= p < |st| => if st[p].Sleeping? && chan[p] == ch then Runnable else st[p])
  }

  /** The children of p go to init. */
  function Adopted(parent: seq<int>, p: int, init: int): (r: seq<int>)
    ensures |r| == |parent|
  {
    seq(|parent|, q requires 0 <= q < |parent| => if parent[q] == p then init else parent[q])
  }

  class Ptable {
    const init: nat
    var st: seq<ProcState>
    var chan: seq<Chan>
    var parent: seq<int>       // -1 is a null pointer
    var killed: seq<bool>
    var pid: seq<int>
    var nextpid: int
    var kstack: seq<bool>      // p->kstack is allocated
    var lock: int              // the CPU that holds ptable.lock, or -1
    var proc: seq<int>         // c->proc, or -1
    ghost var on: seq<int>     // the process on whose kernel stack CPU c executes; -1 is the scheduler's stack
    ghost var at: seq<Resume>
    ghost var cpuOf: seq<int>  // the inverse of on
    var place: seq<nat>        // p of the scheduler's loop on each CPU, as a table index
    ghost var waits: seq<seq<bool>>

    ghost predicate Valid()
      reads this
    {
      && Cpus(st, at, lock, proc, on, cpuOf)
      && Family(st, parent, init)
      && NoLostExit(st, parent, at, chan)
      && Stacks(st, kstack)
      && |killed| == NPROC
      && Pids(st, pid, nextpid)
      && Fair(st, proc, place, waits)
    }

    /** CPU c executes process p outside of the code under ptable.lock. */
    ghost predicate Executes(c: nat, p: nat)
      reads this
    {
      && c < |on| && p < NPROC && |st| == |at| == NPROC
      && on[c] == p && st[p].Running? && at[p].Out?
    }

    /** After userinit: init alone is there, and every CPU is in its scheduler. */
    constructor (cpus: nat)
      ensures Valid() && lock == -1 && |on| == cpus && forall c: nat :: c < cpus ==> on[c] == -1
      ensures init == 0 && st[0].Runnable? && pid[0] == 1 && nextpid == 2
      ensures forall p: nat :: 0 < p < NPROC ==> st[p].Unused? && pid[p] == 0 && !killed[p]
    {
      init := 0;
      st := seq(NPROC, p => if p == 0 then Runnable else Unused);
      chan, parent, killed := seq(NPROC, _ => Nowhere), seq(NPROC, _ => -1), seq(NPROC, _ => false);
      kstack := seq(NPROC, p => p == 0);
      pid, nextpid := seq(NPROC, p => if p == 0 then 1 else 0), 2;
      lock, proc := -1, seq(cpus, _ => -1);
      on, cpuOf, at := seq(cpus, _ => -1), seq(NPROC, _ => -1), seq(NPROC, _ => AtForkret);
      place, waits := seq(cpus, _ => NPROC), seq(cpus, _ => seq(NPROC, _ => false));
    }

    /**
     What holds at every moment of every run: a process that sleeps in wait has no ZOMBIE child; no process runs on
     two CPUs; an exited process has no children left; and a ZOMBIE that is still on a CPU has ptable.lock with it.
     */
    lemma AlwaysSafe(p: nat, q: nat, c: nat, d: nat)
      requires Valid() && p < NPROC && q < NPROC && c < |on| && d < |on|
      ensures st[p].Sleeping? && at[p].AtWait? && parent[q] == p ==> !st[q].Zombie?
      ensures on[c] == on[d] != -1 ==> c == d
      ensures st[p].Zombie? ==> parent[q] != p
      ensures on[c] == p && !st[p].Running? ==> lock == c
    {
      assert on[c] != -1 ==> cpuOf[on[c]] == c;
      assert on[d] != -1 ==> cpuOf[on[d]] == d;
    }

    // ------------------------------------------------------------ sleep and wakeup

    /** wakeup1, with ptable.lock held */
    method Wakeup1(ch: Chan)
      requires |st| == |chan| == NPROC
      modifies `st
      ensures st == Woken(old(st), chan, ch)
    {
      var p := 0;
      while p < NPROC
        invariant p <= NPROC == |st| == |old(st)|
        invariant forall q: nat :: q < p ==> st[q] == Woken(old(st), chan, ch)[q]
        invariant forall q: nat :: p <= q < NPROC ==> st[q] == old(st)[q]
      {
        if st[p].Sleeping? && chan[p] == ch {
          st := st[p := Runnable];
        }
        p := p + 1;
      }
    }

    /** wakeup */
    method Wakeup(ch: Chan)
      requires Valid() && lock == -1
      modifies `st
      ensures Valid() && st == Woken(old(st), chan, ch)
    {
      WokenAll(st, parent, init, at, chan, kstack, pid, nextpid, ch);
      WokenAllCpus(st, at, lock, proc, on, cpuOf, chan, ch);
      FairKept(st, Woken(st, chan, ch), proc, place, waits);
      hide Cpus, Family, NoLostExit, Stacks, Pids, Fair, Woken;
      Wakeup1(ch);
    }

    /**
     kill of process n: the first entry with that pid, which is the process's own if there is one. If there is none the
     answer is -1, unless some UNUSED entry still has that pid, as all entries never used have for n == 0.
     */
    method Kill(n: int) returns (r: int, ghost p: nat)
      requires Valid() && lock == -1
      modifies `st, `killed
      ensures Valid() && p <= NPROC && (forall q: nat :: q < p ==> pid[q] != n)
      ensures r == if p == NPROC then -1 else 0
      ensures p == NPROC ==> st == old(st) && killed == old(killed)
      ensures p < NPROC ==>
        && pid[p] == n && killed == old(killed)[p := true]
        && st == (if old(st)[p].Sleeping? then old(st)[p := Runnable] else old(st))
        && (old(st)[p].Unused? <==> forall q: nat :: q < NPROC && !old(st)[q].Unused? ==> pid[q] != n)
    {
      PidsUse(st, pid, nextpid);
      Shapes(st, parent, init, at, chan);
      hide Cpus, Family, NoLostExit, Stacks, Pids, Fair;
      var k := 0;
      while k < NPROC
        invariant k <= NPROC && forall q: nat :: q < k ==> pid[q] != n
      {
        if pid[k] == n {
          killed := killed[k := true];
          if st[k].Sleeping? {
            WokenCpus(st, at, lock, proc, on, cpuOf, k);
            WokenRest(st, parent, init, at, chan, kstack, pid, nextpid, k);
            FairOne(st, k, Runnable, proc, place, waits);
            st := st[k := Runnable];
          }
          return 0, k;
        }
        k := k + 1;
      }
      return -1, NPROC;
    }

    /** sleep with a lock other than ptable.lock, up to sched: from here on no wakeup is missed. */
    method Sleep(c: nat, ghost p: nat, ch: Chan)
      requires Valid() && lock == -1 && Executes(c, p)
      modifies `st, `chan, `lock, `at
      ensures Valid() && lock == c
      ensures st == old(st)[p := Sleeping] && chan == old(chan)[p := ch] && at == old(at)[p := AtSleep]
    {
      LeavesCpus(st, at, proc, on, cpuOf, c, p, Sleeping, AtSleep);
      LeavesRest(st, parent, init, at, chan, kstack, pid, nextpid, p, Sleeping, AtSleep, ch);
      FairOne(st, p, Sleeping, proc, place, waits);
      hide Cpus, Family, NoLostExit, Stacks, Pids, Fair;
      lock := c;
      chan := chan[proc[c] := ch];
      st := st[proc[c] := Sleeping];
      at := at[p := AtSleep];
    }

    /** yield up to sched */
    method Yield(c: nat, ghost p: nat)
      requires Valid() && lock == -1 && Executes(c, p)
      modifies `st, `lock, `at
      ensures Valid() && lock == c && st == old(st)[p := Runnable] && at == old(at)[p := AtYield]
    {
      LeavesCpus(st, at, proc, on, cpuOf, c, p, Runnable, AtYield);
      LeavesRest(st, parent, init, at, chan, kstack, pid, nextpid, p, Runnable, AtYield, chan[p]);
      FairOne(st, p, Runnable, proc, place, waits);
      hide Cpus, Family, NoLostExit, Stacks, Pids, Fair;
      assert chan[p := chan[p]] == chan;
      lock := c;
      st := st[proc[c] := Runnable];
      at := at[p := AtYield];
    }

    // ------------------------------------------------------------ sched and scheduler

    /** sched: swtch to the scheduler's stack. The lock stays with the CPU. */
    method Sched(c: nat, ghost p: nat)
      requires Valid() && c < |on| && lock == c && p < NPROC && on[c] == p && !st[p].Running?
      modifies `on, `cpuOf
      ensures Valid() && on == old(on)[c := -1] && cpuOf == old(cpuOf)[p := -1]
    {
      on, cpuOf := on[c := -1], cpuOf[p := -1];
    }

    /** The scheduler takes ptable.lock and begins a scan: whoever is RUNNABLE now is to be run before it ends. */
    method SchedulerLock(c: nat)
      requires Valid() && c < |on| && on[c] == -1 && lock == -1
      modifies `lock, `place, `waits
      ensures Valid() && lock == c && place == old(place)[c := 0]
      ensures c < |old(waits)| && waits == old(waits)[c := Waiting(st)]
    {
      FairBegin(st, proc, place, waits, c);
      hide Fair;
      lock := c;
      place, waits := place[c := 0], waits[c := Waiting(st)];
    }

    /** The scheduler after swtch has come back to it: on to the next entry. */
    method SchedulerBack(c: nat)
      requires Valid() && c < |on| && on[c] == -1 && lock == c && proc[c] != -1
      modifies `proc, `place
      ensures Valid() && proc == old(proc)[c := -1] && place == old(place)[c := old(proc)[c] + 1]
    {
      FairOn(st, proc, place, waits, c, place[c] + 1);
      hide Fair;
      proc := proc[c := -1];
      place := place[c := place[c] + 1];
    }

    /** The scheduler's loop from its place on, until it switches to a process or reaches the end of the table. */
    method Schedule(c: nat) returns (p: nat)
      requires Valid() && c < |on| && on[c] == -1 && lock == c && proc[c] == -1 && place[c] <= NPROC
      modifies `st, `proc, `on, `cpuOf, `place, `waits
      ensures Valid() && old(place)[c] <= p <= NPROC && place == old(place)[c := p]
      ensures forall q: nat :: old(place)[c] <= q < p ==> !old(st)[q].Runnable?
      ensures p == NPROC ==>
        st == old(st) && proc == old(proc) && on == old(on) && cpuOf == old(cpuOf) && waits == old(waits)
      ensures p < NPROC ==>
        && old(st)[p].Runnable? && old(cpuOf)[p] == -1
        && st == old(st)[p := Running] && proc == old(proc)[c := p] && on == old(on)[c := p]
        && cpuOf == old(cpuOf)[p := c] && waits == Served(old(waits), p)
    {
      p := place[c];
      while p < NPROC && !st[p].Runnable?
        invariant place[c] <= p <= NPROC
        invariant forall q: nat :: place[c] <= q < p ==> !st[q].Runnable?
      {
        p := p + 1;
      }
      if p < NPROC {
        SwitchTo(c, p);
      } else {
        FairOn(st, proc, place, waits, c, p);
        assert proc[c := -1] == proc;
        place := place[c := p];
      }
    }

    /** The scheduler runs process p: swtch to its kernel stack. */
    method SwitchTo(c: nat, p: nat)
      requires Valid() && c < |on| && on[c] == -1 && lock == c && proc[c] == -1 && p < NPROC && st[p].Runnable?
      requires place[c] <= p && forall q: nat :: place[c] <= q < p ==> !st[q].Runnable?
      modifies `st, `proc, `on, `cpuOf, `place, `waits
      ensures Valid() && old(cpuOf)[p] == -1
      ensures st == old(st)[p := Running] && proc == old(proc)[c := p] && on == old(on)[c := p]
      ensures cpuOf == old(cpuOf)[p := c] && place == old(place)[c := p] && waits == Served(old(waits), p)
    {
      hide Fair, Served, Cpus, Family, NoLostExit, Stacks, Pids;
      OffCpu(st, at, lock, proc, on, cpuOf, c, p);
      SwitchedCpus(st, at, proc, on, cpuOf, c, p);
      SwitchedRest(st, parent, init, at, chan, kstack, pid, nextpid, p);
      FairRun(st, proc, place, waits, c, p);
      proc := proc[c := p];
      st := st[p := Running];
      on, cpuOf := on[c := p], cpuOf[p := c];
      place, waits := place[c := p], Served(waits, p);
    }

    /** The end of a scan. Nobody has been passed over: all that were RUNNABLE when it began have been run since. */
    method SchedulerUnlock(c: nat)
      requires Valid() && c < |on| && on[c] == -1 && lock == c && proc[c] == -1 && place[c] == NPROC
      modifies `lock
      ensures Valid() && lock == -1
      ensures c < |waits| && |waits[c]| == NPROC && forall q: nat :: q < NPROC ==> !waits[c][q]
    {
      assert Ahead(waits[c], st, place[c]);
      lock := -1;
    }

    /** A process resumed in yield, in sleep or in forkret gives up the lock. */
    method Resumed(c: nat, inSleep: bool, ghost p: nat)
      requires Valid() && c < |on| && lock == c && p < NPROC && on[c] == p && st[p].Running? && !at[p].Out?
        && !at[p].AtWait?
      requires inSleep <==> at[p].AtSleep?
      modifies `lock, `chan, `at
      ensures Valid() && lock == -1 && Executes(c, p)
      ensures chan == if old(at)[p].AtSleep? then old(chan)[p := Nowhere] else old(chan)
    {
      hide Cpus, Family, NoLostExit, Stacks, Pids, Fair;
      ResumedCpus(st, at, proc, on, cpuOf, c, p);
      ResumedRest(st, parent, at, chan, p);
      if inSleep {
        chan := chan[proc[c] := Nowhere];
      }
      at := at[p := Out];
      lock := -1;
    }

    // ------------------------------------------------------------ fork

    /** allocproc up to its release: an unused entry becomes EMBRYO; NPROC stands for none. */
    method Allocproc() returns (np: nat)
      requires Valid() && lock == -1
      modifies `st, `at, `pid, `nextpid
      ensures Valid() && np <= NPROC
      ensures np == NPROC ==>
        st == old(st) && at == old(at) && pid == old(pid) && forall q: nat :: q < NPROC ==> !st[q].Unused?
      ensures np < NPROC ==>
        && old(st)[np].Unused? && (forall q: nat :: q < np ==> !old(st)[q].Unused?)
        && st == old(st)[np := Embryo] && at == old(at)[np := AtForkret]
        && pid == old(pid)[np := old(nextpid)] && forall q: nat :: q < NPROC ==> old(pid)[q] != pid[np]
    {
      hide Cpus, Family, NoLostExit, Stacks, Pids, Fair;
      Shapes(st, parent, init, at, chan);
      PidsShape(st, pid, nextpid);
      np := 0;
      while np < NPROC && !st[np].Unused?
        invariant np <= NPROC
        invariant forall q: nat :: q < np ==> !st[q].Unused?
      {
        np := np + 1;
      }
      if np < NPROC {
        EmbryoCpus(st, at, lock, proc, on, cpuOf, np);
        EmbryoRest(st, parent, init, at, chan, kstack, pid, nextpid, np);
        FairOne(st, np, Embryo, proc, place, waits);
        st := st[np := Embryo];
        at := at[np := AtForkret];
        pid := pid[np := nextpid];
        nextpid := nextpid + 1;
      }
    }

    /** The new process gets its kernel stack. No lock is held. */
    method ForkStack(np: nat)
      requires Valid() && np < NPROC && st[np].Embryo?
      modifies `kstack
      ensures Valid() && kstack == old(kstack)[np := true]
    {
      kstack := kstack[np := true];
    }

    /** Memory has run out: the entry is unused again. No lock is held. */
    method ForkFail(np: nat)
      requires Valid() && np < NPROC && st[np].Embryo? && parent[np] == -1
      modifies `st, `kstack
      ensures Valid() && st == old(st)[np := Unused] && kstack == old(kstack)[np := false]
    {
      hide Cpus;
      EmbryoOffCpu(st, at, lock, proc, on, cpuOf, np, Unused);
      FairOne(st, np, Unused, proc, place, waits);
      kstack := kstack[np := false];
      st := st[np := Unused];
    }

    /** np->parent = curproc. No lock is held. */
    method ForkParent(c: nat, p: nat, np: nat)
      requires Valid() && Executes(c, p) && np < NPROC && st[np].Embryo? && parent[np] == -1
      modifies `parent
      ensures Valid() && parent == old(parent)[np := p]
    {
      parent := parent[np := p];
    }

    /** The new process may run. */
    method ForkRun(np: nat)
      requires Valid() && lock == -1 && np < NPROC && st[np].Embryo? && kstack[np] && at[np].AtForkret?
      modifies `st
      ensures Valid() && st == old(st)[np := Runnable]
    {
      hide Cpus;
      EmbryoOffCpu(st, at, lock, proc, on, cpuOf, np, Runnable);
      FairOne(st, np, Runnable, proc, place, waits);
      st := st[np := Runnable];
    }

    // ------------------------------------------------------------ exit and wait

    /**
     exit, from taking ptable.lock to sched; the answer is whether it panics. Afterwards the process is a ZOMBIE, its
     children are init's, and neither its parent nor, if one of them is a ZOMBIE, init sleeps in wait.
     */
    method Exit(c: nat, p: nat) returns (panic: bool)
      requires Valid() && lock == -1 && Executes(c, p)
      modifies `st, `parent, `lock
      ensures Valid() && (panic <==> p == init)
      ensures panic ==> st == old(st) && parent == old(parent) && lock == -1
      ensures !panic ==>
        && lock == c && st[p].Zombie?
        && parent == Adopted(old(parent), p, init) && (forall q: nat :: q < NPROC ==> parent[q] != p)
        && (forall q: nat :: q < NPROC && q != p ==> st[q] == old(st)[q] || (old(st)[q].Sleeping? && st[q].Runnable?))
        && (forall q: nat :: q < NPROC && q != p && chan[q] != OfProc(parent[p]) && chan[q] != OfProc(init) ==>
          st[q] == old(st)[q])
    {
      hide Cpus, Family, NoLostExit, Stacks, Woken, Adopted, Pids, Fair;
      if p == init {
        return true;
      }
      Shapes(st, parent, init, at, chan);
      ghost var st0, parent0 := st, parent;
      lock := c;
      Wakeup1(OfProc(parent[p]));
      ghost var st1 := st;
      Reparent(p);
      Exited(st0, st1, st, at, chan, parent0, parent, kstack, p, init);
      OnlyWoken(st0, st1, st, chan, OfProc(parent0[p]), OfProc(init));
      NoChild(parent0, p, init);
      ExitCpus(st0, st, at, proc, on, cpuOf, c, p);
      PidsKept(st0, st[p := Zombie], pid, nextpid);
      FairKept(st0, st, proc, place, waits);
      FairOne(st, p, Zombie, proc, place, waits);
      st := st[p := Zombie];
      panic := false;
    }

    /** The loop of exit: init becomes the parent of every child of p. */
    method Reparent(p: nat)
      requires |st| == |parent| == |chan| == NPROC
      modifies `st, `parent
      ensures parent == Adopted(old(parent), p, init)
      ensures st == old(st) || st == Woken(old(st), chan, OfProc(init))
      ensures forall r: nat :: r < NPROC && old(parent)[r] == p && old(st)[r].Zombie? ==>
        st == Woken(old(st), chan, OfProc(init))
    {
      ghost var st1, parent0 := st, parent;
      var q := 0;
      while q < NPROC
        invariant q <= NPROC == |st| == |parent| == |parent0|
        invariant forall r: nat :: r < q ==> parent[r] == Adopted(parent0, p, init)[r]
        invariant forall r: nat :: q <= r < NPROC ==> parent[r] == parent0[r]
        invariant st == st1 || st == Woken(st1, chan, OfProc(init))
        invariant forall r: nat :: r < q && parent0[r] == p && st1[r].Zombie? ==> st == Woken(st1, chan, OfProc(init))
      {
        if parent[q] == p {
          parent := parent[q := init];
          if st[q].Zombie? {
            WokenTwice(st1, chan, OfProc(init));
            Wakeup1(OfProc(init));
          }
        }
        q := q + 1;
      }
      assert parent == Adopted(parent0, p, init);
    }

    /**
     One turn of the outer loop of wait, by a process that comes in or has been woken with the lock held. It takes the
     first ZOMBIE child, which is on no CPU, and frees its stack and its entry; or it gives up, having no child or
     being killed; or it goes to sleep, and then none of its children is a ZOMBIE.
     */
    method WaitTurn(c: nat, p: nat, woken: bool) returns (r: WaitResult)
      requires Valid() && c < |on| && p < NPROC && on[c] == p && st[p].Running?
      requires if woken then at[p].AtWait? && lock == c else at[p].Out? && lock == -1
      modifies `st, `chan, `parent, `killed, `kstack, `pid, `lock, `at
      ensures Valid()
      ensures r.Reaped? ==>
        && r.child < NPROC && old(parent)[r.child] == p && old(st)[r.child].Zombie?
        && (forall q: nat :: q < r.child ==> !(old(parent)[q] == p && old(st)[q].Zombie?))
        && (forall d: nat :: d < |on| ==> on[d] != r.child)
        && kstack == old(kstack)[r.child := false] && st == old(st)[r.child := Unused]
        && parent == old(parent)[r.child := -1] && killed == old(killed)[r.child := false]
        && r.pid == old(pid)[r.child] != 0 && pid == old(pid)[r.child := 0]
        && lock == -1 && Executes(c, p)
      ensures !r.Reaped? ==> forall q: nat :: q < NPROC ==> !(old(parent)[q] == p && old(st)[q].Zombie?)
      ensures !r.Reaped? ==> parent == old(parent) && kstack == old(kstack) && killed == old(killed) && pid == old(pid)
      ensures r.Nothing? ==>
        st == old(st) && lock == -1 && Executes(c, p) && (killed[p] || forall q: nat :: q < NPROC ==> parent[q] != p)
      ensures r.Waits? ==>
        && lock == c && st == old(st)[p := Sleeping] && chan[p] == OfProc(p) && at == old(at)[p := AtWait]
        && !killed[p] && exists q: nat :: q < NPROC && parent[q] == p
    {
      hide Cpus, Family, NoLostExit, Stacks, Pids, Fair;
      EnterWait(c, p, woken);
      Shapes(st, parent, init, at, chan);
      var haveKids := false;
      var q := 0;
      while q < NPROC
        invariant q <= NPROC
        invariant forall r: nat :: r < q ==> !(parent[r] == p && st[r].Zombie?)
        invariant haveKids ==> exists r: nat :: r < NPROC && parent[r] == p
        invariant !haveKids ==> forall r: nat :: r < q ==> parent[r] != p
      {
        if parent[q] == p {
          haveKids := true;
          if st[q].Zombie? {
            PidOf(st, pid, nextpid, q);
            var n := pid[q];
            Reap(c, p, q);
            return Reaped(q, n);
          }
        }
        q := q + 1;
      }
      if !haveKids || killed[p] {
        LeaveWait(c, p);
        return Nothing;
      }
      SleepInWait(c, p);
      r := Waits;
    }

    /** wait takes ptable.lock, or comes back from its sleep with it. */
    method EnterWait(c: nat, p: nat, woken: bool)
      requires Valid() && c < |on| && p < NPROC && on[c] == p && st[p].Running?
      requires if woken then at[p].AtWait? && lock == c else at[p].Out? && lock == -1
      modifies `chan, `lock, `at
      ensures Inside(c, p)
      ensures at == old(at)[p := AtWait]
    {
      EnteredCpus(st, at, lock, proc, on, cpuOf, c, p);
      EnteredRest(st, parent, at, chan, p);
      hide Cpus, Family, NoLostExit, Stacks, Pids, Fair;
      lock, at := c, at[p := AtWait];
      if woken {
        chan := chan[p := Nowhere];
      }
    }

    method LeaveWait(c: nat, p: nat)
      requires Inside(c, p)
      modifies `lock, `at
      ensures Valid() && lock == -1 && Executes(c, p)
    {
      lock, at := -1, at[p := Out];
    }

    method SleepInWait(c: nat, p: nat)
      requires Inside(c, p)
      requires forall q: nat :: q < NPROC ==> !(parent[q] == p && st[q].Zombie?)
      modifies `st, `chan
      ensures Valid() && st == old(st)[p := Sleeping] && chan == old(chan)[p := OfProc(p)]
    {
      InWaitCpus(st, at, proc, on, cpuOf, c, p);
      InWaitRest(st, parent, init, at, chan, kstack, pid, nextpid, p);
      FairOne(st, p, Sleeping, proc, place, waits);
      hide Cpus, Family, NoLostExit, Stacks, Pids, Fair;
      chan := chan[p := OfProc(p)];
      st := st[p := Sleeping];
    }

    /** The ZOMBIE child in entry q goes, and wait gives up the lock. */
    method Reap(c: nat, p: nat, q: nat)
      requires Inside(c, p) && q < NPROC && parent[q] == p && st[q].Zombie?
      modifies `st, `parent, `killed, `kstack, `pid, `lock, `at
      ensures Valid() && lock == -1 && Executes(c, p)
      ensures forall d: nat :: d < |on| ==> on[d] != q
      ensures kstack == old(kstack)[q := false] && st == old(st)[q := Unused] && parent == old(parent)[q := -1]
      ensures killed == old(killed)[q := false] && pid == old(pid)[q := 0]
    {
      hide Cpus, Family, NoLostExit, Stacks, Pids, Fair;
      ReapShapes(st, at, chan, parent, kstack, pid, nextpid, q);
      ZombieOffCpu(st, at, lock, proc, on, cpuOf, c, p, q);
      ReapedCpus(st, at, proc, on, cpuOf, c, p, q);
      FairOne(st, q, Unused, proc, place, waits);
      ReapedRest(st, at, chan, parent, kstack, init, p, q);
      kstack := kstack[q := false];
      pid := pid[q := 0];
      parent := parent[q := -1];
      killed := killed[q := false];
      st := st[q := Unused];
      lock, at := -1, at[p := Out];
    }

    /** CPU c executes process p in the code of wait, with the lock. */
    ghost predicate Inside(c: nat, p: nat)
      reads this
    {
      && Valid() && lock == c && c < |on| && p < NPROC && |st| == |at| == NPROC
      && on[c] == p && st[p].Running? && at[p].AtWait?
    }
  }

  /**
   kill looks at UNUSED entries too, and nothing clears the mark before the entry is used again: after kill(0) the next
   process is killed from the start.
   */
  method KilledBeforeBirth() returns (t: Ptable, np: nat)
    ensures fresh(t) && t.Valid() && np < NPROC && t.st[np].Embryo? && t.killed[np]
  {
    t := new Ptable(1);
    assert t.pid[1] == 0;
    var r;
    ghost var p;
    r, p := t.Kill(0);
    assert p == 1;
    assert t.st[1].Unused? && t.st[0].Runnable?;
    np := t.Allocproc();
  }

  /** While another process holds the lock a ZOMBIE is on no CPU: its swtch is behind it. */
  lemma ZombieOffCpu(st: seq<ProcState>, at: seq<Resume>, lock: int, proc: seq<int>, on: seq<int>, cpuOf: seq<int>,
          c: nat, p: nat, q: nat)
    requires Cpus(st, at, lock, proc, on, cpuOf) && lock == c < |on| && p < NPROC && on[c] == p && st[p].Running?
    requires q < NPROC && st[q].Zombie?
    ensures cpuOf[q] == -1 && forall d: nat :: d < |on| ==> on[d] != q
  {
  }

  /** An EMBRYO is on no CPU, and may be given up or let run. */
  lemma EmbryoOffCpu(st: seq<ProcState>, at: seq<Resume>, lock: int, proc: seq<int>, on: seq<int>, cpuOf: seq<int>,
                     p: nat, s: ProcState)
    requires Cpus(st, at, lock, proc, on, cpuOf) && p < NPROC && st[p].Embryo?
    requires s.Unused? || (s.Runnable? && !at[p].Out?)
    ensures Cpus(st[p := s], at, lock, proc, on, cpuOf)
  {
  }

  /** The entry of a ZOMBIE that is on no CPU is cleared, and the process that waited leaves with the lock free. */
  lemma ReapedCpus(st: seq<ProcState>, at: seq<Resume>, proc: seq<int>, on: seq<int>, cpuOf: seq<int>,
                   c: nat, p: nat, q: nat)
    requires Cpus(st, at, c, proc, on, cpuOf) && c < |on| && p < NPROC && q < NPROC && on[c] == p && st[p].Running?
    requires st[q].Zombie? && cpuOf[q] == -1
    ensures Cpus(st[q := Unused], at[p := Out], -1, proc, on, cpuOf)
  {
  }

  lemma ReapShapes(st: seq<ProcState>, at: seq<Resume>, chan: seq<Chan>, parent: seq<int>, kstack: seq<bool>,
                   pid: seq<int>, nextpid: int, q: nat)
    requires NoLostExit(st, parent, at, chan) && Stacks(st, kstack) && Pids(st, pid, nextpid) && q < NPROC
    ensures |st| == |at| == |parent| == |kstack| == |pid| == NPROC
    ensures Pids(st[q := Unused], pid[q := 0], nextpid)
  {
  }

  lemma ReapedRest(st: seq<ProcState>, at: seq<Resume>, chan: seq<Chan>, parent: seq<int>, kstack: seq<bool>,
                   init: nat, p: nat, q: nat)
    requires Family(st, parent, init) && NoLostExit(st, parent, at, chan) && Stacks(st, kstack)
    requires p < NPROC && q < NPROC && st[p].Running? && st[q].Zombie?
    ensures Family(st[q := Unused], parent[q := -1], init)
    ensures NoLostExit(st[q := Unused], parent[q := -1], at[p := Out], chan)
    ensures Stacks(st[q := Unused], kstack[q := false])
  {
  }

  /** How a turn of wait ends; Nothing is -1. */
  datatype WaitResult = Reaped(child: nat, pid: int) | Nothing | Waits

  lemma Shapes(st: seq<ProcState>, parent: seq<int>, init: nat, at: seq<Resume>, chan: seq<Chan>)
    requires Family(st, parent, init) && NoLostExit(st, parent, at, chan)
    ensures |st| == |parent| == |at| == |chan| == NPROC && parent[init] == -1 && init < NPROC
    ensures forall q: nat :: q < NPROC ==> parent[q] != q
  {
  }

  lemma PidsKept(st: seq<ProcState>, st': seq<ProcState>, pid: seq<int>, nextpid: int)
    requires Pids(st, pid, nextpid) && |st'| == |st|
    requires forall q: nat :: q < |st| && !st'[q].Unused? ==> !st[q].Unused?
    ensures Pids(st', pid, nextpid)
  {
  }

  lemma PidsShape(st: seq<ProcState>, pid: seq<int>, nextpid: int)
    requires Pids(st, pid, nextpid)
    ensures |pid| == |st| && forall q: nat :: q < |pid| ==> pid[q] < nextpid
  {
  }

  lemma PidsUse(st: seq<ProcState>, pid: seq<int>, nextpid: int)
    requires Pids(st, pid, nextpid)
    ensures |pid| == |st|
    ensures forall p: nat :: p < NPROC && !st[p].Unused? ==> pid[p] != 0
    ensures forall p: nat, q: nat :: p < NPROC && q < NPROC && pid[p] == pid[q] != 0 ==> p == q
  {
  }

  lemma SwitchedCpus(st: seq<ProcState>, at: seq<Resume>, proc: seq<int>, on: seq<int>, cpuOf: seq<int>, c: nat, p: nat)
    requires Cpus(st, at, c, proc, on, cpuOf) && c < |on| && on[c] == -1 && proc[c] == -1 && p < NPROC
    requires st[p].Runnable? && cpuOf[p] == -1
    ensures Cpus(st[p := Running], at, c, proc[c := p], on[c := p], cpuOf[p := c])
    ensures |proc| == |on| && |st| == |cpuOf| == NPROC
  {
  }

  lemma SwitchedRest(st: seq<ProcState>, parent: seq<int>, init: nat, at: seq<Resume>, chan: seq<Chan>,
          kstack: seq<bool>, pid: seq<int>, nextpid: int, p: nat)
    requires Family(st, parent, init) && NoLostExit(st, parent, at, chan) && Stacks(st, kstack)
    requires Pids(st, pid, nextpid) && p < NPROC && st[p].Runnable?
    ensures Family(st[p := Running], parent, init) && NoLostExit(st[p := Running], parent, at, chan)
    ensures Stacks(st[p := Running], kstack) && Pids(st[p := Running], pid, nextpid)
  {
  }

  lemma WokenAll(st: seq<ProcState>, parent: seq<int>, init: nat, at: seq<Resume>, chan: seq<Chan>,
          kstack: seq<bool>, pid: seq<int>, nextpid: int, ch: Chan)
    requires Family(st, parent, init) && NoLostExit(st, parent, at, chan) && Stacks(st, kstack)
    requires Pids(st, pid, nextpid)
    ensures |st| == |chan| == NPROC
    ensures
      var after := Woken(st, chan, ch);
      Family(after, parent, init) && NoLostExit(after, parent, at, chan) && Stacks(after, kstack)
      && Pids(after, pid, nextpid)
  {
  }

  lemma WokenAllCpus(st: seq<ProcState>, at: seq<Resume>, lock: int, proc: seq<int>, on: seq<int>, cpuOf: seq<int>,
          chan: seq<Chan>, ch: Chan)
    requires Cpus(st, at, lock, proc, on, cpuOf) && |chan| == |st|
    ensures Cpus(Woken(st, chan, ch), at, lock, proc, on, cpuOf)
  {
  }

  lemma ResumedCpus(st: seq<ProcState>, at: seq<Resume>, proc: seq<int>, on: seq<int>, cpuOf: seq<int>, c: nat, p: nat)
    requires Cpus(st, at, c, proc, on, cpuOf) && c < |on| && on[c] == p && p < NPROC && st[p].Running?
    ensures Cpus(st, at[p := Out], -1, proc, on, cpuOf) && |proc| == |on| && proc[c] == p
  {
  }

  lemma ResumedRest(st: seq<ProcState>, parent: seq<int>, at: seq<Resume>, chan: seq<Chan>, p: nat)
    requires NoLostExit(st, parent, at, chan) && p < NPROC && st[p].Running?
    ensures |st| == |at| == |chan| == NPROC && NoLostExit(st, parent, at[p := Out], chan)
    ensures NoLostExit(st, parent, at[p := Out], chan[p := Nowhere])
  {
  }

  lemma EnteredCpus(st: seq<ProcState>, at: seq<Resume>, lock: int, proc: seq<int>, on: seq<int>, cpuOf: seq<int>,
          c: nat, p: nat)
    requires Cpus(st, at, lock, proc, on, cpuOf) && c < |on| && on[c] == p && p < NPROC && st[p].Running?
    requires if at[p].Out? then lock == -1 else lock == c
    ensures Cpus(st, at[p := AtWait], c, proc, on, cpuOf)
  {
  }

  lemma EnteredRest(st: seq<ProcState>, parent: seq<int>, at: seq<Resume>, chan: seq<Chan>, p: nat)
    requires NoLostExit(st, parent, at, chan) && p < NPROC && st[p].Running?
    ensures |chan| == NPROC && NoLostExit(st, parent, at[p := AtWait], chan)
    ensures NoLostExit(st, parent, at[p := AtWait], chan[p := Nowhere])
  {
  }

  lemma InWaitCpus(st: seq<ProcState>, at: seq<Resume>, proc: seq<int>, on: seq<int>, cpuOf: seq<int>, c: nat, p: nat)
    requires Cpus(st, at, c, proc, on, cpuOf) && c < |on| && on[c] == p && p < NPROC && st[p].Running? && at[p].AtWait?
    ensures Cpus(st[p := Sleeping], at, c, proc, on, cpuOf)
  {
  }

  lemma InWaitRest(st: seq<ProcState>, parent: seq<int>, init: nat, at: seq<Resume>, chan: seq<Chan>,
          kstack: seq<bool>, pid: seq<int>, nextpid: int, p: nat)
    requires Family(st, parent, init) && NoLostExit(st, parent, at, chan) && Stacks(st, kstack)
    requires Pids(st, pid, nextpid) && p < NPROC && st[p].Running?
    requires forall q: nat :: q < NPROC ==> !(parent[q] == p && st[q].Zombie?)
    ensures Family(st[p := Sleeping], parent, init)
    ensures NoLostExit(st[p := Sleeping], parent, at, chan[p := OfProc(p)])
    ensures Stacks(st[p := Sleeping], kstack) && Pids(st[p := Sleeping], pid, nextpid)
  {
  }

  lemma WokenCpus(st: seq<ProcState>, at: seq<Resume>, lock: int, proc: seq<int>, on: seq<int>, cpuOf: seq<int>, p: nat)
    requires Cpus(st, at, lock, proc, on, cpuOf) && p < NPROC && st[p].Sleeping?
    ensures Cpus(st[p := Runnable], at, lock, proc, on, cpuOf)
  {
  }

  lemma WokenRest(st: seq<ProcState>, parent: seq<int>, init: nat, at: seq<Resume>, chan: seq<Chan>,
          kstack: seq<bool>, pid: seq<int>, nextpid: int, p: nat)
    requires Family(st, parent, init) && NoLostExit(st, parent, at, chan) && Stacks(st, kstack)
    requires Pids(st, pid, nextpid) && p < NPROC && st[p].Sleeping?
    ensures Family(st[p := Runnable], parent, init) && NoLostExit(st[p := Runnable], parent, at, chan)
    ensures Stacks(st[p := Runnable], kstack) && Pids(st[p := Runnable], pid, nextpid)
  {
  }

  /** The process on CPU c takes ptable.lock and changes its state, to leave the CPU. */
  lemma LeavesCpus(st: seq<ProcState>, at: seq<Resume>, proc: seq<int>, on: seq<int>, cpuOf: seq<int>, c: nat, p: nat,
          s: ProcState, r: Resume)
    requires Cpus(st, at, -1, proc, on, cpuOf) && c < |on| && p < NPROC && on[c] == p && st[p].Running? && at[p].Out?
    requires (s.Sleeping? || s.Runnable?) && !r.Out?
    ensures Cpus(st[p := s], at[p := r], c, proc, on, cpuOf) && |proc| == |on| && proc[c] == p
  {
  }

  lemma LeavesRest(st: seq<ProcState>, parent: seq<int>, init: nat, at: seq<Resume>, chan: seq<Chan>,
          kstack: seq<bool>, pid: seq<int>, nextpid: int, p: nat, s: ProcState, r: Resume, ch: Chan)
    requires Family(st, parent, init) && NoLostExit(st, parent, at, chan) && Stacks(st, kstack)
    requires Pids(st, pid, nextpid) && p < NPROC && st[p].Running?
    requires (s.Sleeping? || s.Runnable?) && !r.AtWait?
    ensures Family(st[p := s], parent, init) && NoLostExit(st[p := s], parent, at[p := r], chan[p := ch])
    ensures Stacks(st[p := s], kstack) && Pids(st[p := s], pid, nextpid)
    ensures |chan| == NPROC
  {
  }

  lemma EmbryoCpus(st: seq<ProcState>, at: seq<Resume>, lock: int, proc: seq<int>, on: seq<int>, cpuOf: seq<int>,
          np: nat)
    requires Cpus(st, at, lock, proc, on, cpuOf) && np < NPROC && st[np].Unused?
    ensures Cpus(st[np := Embryo], at[np := AtForkret], lock, proc, on, cpuOf)
  {
  }

  lemma EmbryoRest(st: seq<ProcState>, parent: seq<int>, init: nat, at: seq<Resume>, chan: seq<Chan>,
          kstack: seq<bool>, pid: seq<int>, nextpid: int, np: nat)
    requires Family(st, parent, init) && NoLostExit(st, parent, at, chan) && Stacks(st, kstack)
    requires Pids(st, pid, nextpid) && np < NPROC && st[np].Unused?
    ensures Family(st[np := Embryo], parent, init) && NoLostExit(st[np := Embryo], parent, at[np := AtForkret], chan)
    ensures Stacks(st[np := Embryo], kstack) && Pids(st[np := Embryo], pid[np := nextpid], nextpid + 1)
  {
  }

  lemma PidOf(st: seq<ProcState>, pid: seq<int>, nextpid: int, q: nat)
    requires Pids(st, pid, nextpid) && q < |st| && !st[q].Unused?
    ensures |pid| == |st| && pid[q] != 0
  {
  }

  lemma OnlyWoken(st0: seq<ProcState>, st1: seq<ProcState>, st2: seq<ProcState>, chan: seq<Chan>, a: Chan, b: Chan)
    requires |st0| == |chan| && st1 == Woken(st0, chan, a) && (st2 == st1 || st2 == Woken(st1, chan, b))
    ensures |st2| == |st0|
    ensures forall q: nat :: q < |st0| ==>
      st2[q] == st0[q] || (st0[q].Sleeping? && st2[q].Runnable? && (chan[q] == a || chan[q] == b))
  {
  }

  lemma NoChild(parent: seq<int>, p: nat, init: nat)
    requires p != init && p < |parent| && forall q: nat :: q < |parent| ==> parent[q] != q
    ensures forall q: nat :: q < |parent| ==> Adopted(parent, p, init)[q] != p
    ensures Adopted(parent, p, init)[p] == parent[p]
  {
  }

  lemma WokenTwice(st: seq<ProcState>, chan: seq<Chan>, ch: Chan)
    requires |st| == |chan|
    ensures Woken(Woken(st, chan, ch), chan, ch) == Woken(st, chan, ch)
  {
  }

  /** What exit has done to the table when it sets its own state. */
  lemma Exited(st0: seq<ProcState>, st1: seq<ProcState>, st2: seq<ProcState>, at: seq<Resume>, chan: seq<Chan>,
               parent: seq<int>, parent': seq<int>, kstack: seq<bool>, p: nat, init: nat)
    requires Family(st0, parent, init) && NoLostExit(st0, parent, at, chan) && Stacks(st0, kstack)
    requires p < NPROC && st0[p].Running? && p != init
    requires st1 == Woken(st0, chan, OfProc(parent[p])) && parent' == Adopted(parent, p, init)
    requires st2 == st1 || st2 == Woken(st1, chan, OfProc(init))
    requires forall r: nat :: r < NPROC && parent[r] == p && st1[r].Zombie? ==> st2 == Woken(st1, chan, OfProc(init))
    ensures Family(st2[p := Zombie], parent', init)
    ensures NoLostExit(st2[p := Zombie], parent', at, chan)
    ensures Stacks(st2[p := Zombie], kstack)
  {
  }

  lemma ExitCpus(st: seq<ProcState>, st2: seq<ProcState>, at: seq<Resume>, proc: seq<int>, on: seq<int>,
          cpuOf: seq<int>, c: nat, p: nat)
    requires Cpus(st, at, -1, proc, on, cpuOf) && c < |on| && p < NPROC && on[c] == p && st[p].Running? && at[p].Out?
    requires |st2| == NPROC && forall q: nat :: q < NPROC ==> st2[q] == st[q] || (st[q].Sleeping? && st2[q].Runnable?)
    ensures Cpus(st2[p := Zombie], at, c, proc, on, cpuOf)
  {
  }

  /** A runnable process is on no CPU while another CPU's scheduler has the lock. */
  lemma OffCpu(st: seq<ProcState>, at: seq<Resume>, lock: int, proc: seq<int>, on: seq<int>, cpuOf: seq<int>, c: nat,
          p: nat)
    requires Cpus(st, at, lock, proc, on, cpuOf) && c < |on| && lock == c && on[c] == -1 && p < NPROC && st[p].Runnable?
    ensures cpuOf[p] == -1
  {
  }
}
