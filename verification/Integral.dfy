/**
 The trapezoid integration of the assignment, over exact reals and any function: the threaded version of
 thread.c computes the same number as the serial one of serial.c.
 */
module Integral {

  const THREADS: nat := 7

  type MathFunc = real -> real

  // ---------------------------------------------------------------- the serial form

  /** The k-th edge of a row of cells of width dx. */
  function Edge(start: real, dx: real, k: nat): real {
    start + k as real * dx
  }

  /** The sum of k mean values on cells of width dx, from start on. */
  function CellSum(f: MathFunc, start: real, dx: real, k: nat): real
  {
    if k == 0 then 0.0
    else CellSum(f, start, dx, k - 1) + (f(Edge(start, dx, k - 1)) + f(Edge(start, dx, k))) / 2.0
  }

  /** The trapezoid rule with the given number of steps. */
  function Trapezoid(f: MathFunc, start: real, end: real, steps: nat): real
    requires steps >= 1
  {
    var dx := (end - start) / steps as real;
    CellSum(f, start, dx, steps) * dx
  }

  /** serial.c's integrateTrap. */
  method IntegrateTrap(f: MathFunc, rangeStart: real, rangeEnd: real, numSteps: nat) returns (area: real)
    requires numSteps >= 1
    ensures area == Trapezoid(f, rangeStart, rangeEnd, numSteps)
  {
    var rangeSize := rangeEnd - rangeStart;
    var dx := rangeSize / numSteps as real;
    var sum := 0.0;
    for i := 0 to numSteps
      invariant sum == CellSum(f, rangeStart, dx, i)
    {
      var smallx := rangeStart + i as real * dx;
      var bigx := rangeStart + (i + 1) as real * dx;
      assert smallx == Edge(rangeStart, dx, i) && bigx == Edge(rangeStart, dx, i + 1);
      sum := sum + (f(smallx) + f(bigx)) / 2.0;
    }
    area := sum * dx;
  }

  // ---------------------------------------------------------------- adjacent ranges

  lemma {:induction false} CellSumSplit(f: MathFunc, start: real, dx: real, m: nat, k: nat)
    ensures CellSum(f, start, dx, m + k) == CellSum(f, start, dx, m) + CellSum(f, Edge(start, dx, m), dx, k)
  {
    hide Edge;
    if k != 0 {
      CellSumSplit(f, start, dx, m, k - 1);
      EdgeShift(start, dx, m, k - 1);
      EdgeShift(start, dx, m, k);
    }
  }

  lemma EdgeShift(start: real, dx: real, m: nat, k: nat)
    ensures Edge(Edge(start, dx, m), dx, k) == Edge(start, dx, m + k)
  {
  }

  // ---------------------------------------------------------------- the slices of main

  /** size_t steps of slice i. */
  function Steps(numSteps: nat, i: nat): nat {
    numSteps / THREADS + if i < numSteps % THREADS then 1 else 0
  }

  /** Steps of the slices before slice i. */
  function StepsBefore(numSteps: nat, i: nat): nat {
    if i == 0 then 0 else StepsBefore(numSteps, i - 1) + Steps(numSteps, i - 1)
  }

  /** Every slice has a step to take, so no thread divides by zero, exactly when there are THREADS steps or more. */
  lemma SlicesHaveSteps(numSteps: nat)
    ensures (forall i: nat :: i < THREADS ==> Steps(numSteps, i) >= 1) <==> numSteps >= THREADS
  {
    if numSteps < THREADS {
      assert Steps(numSteps, THREADS - 1) == 0;
    }
  }

  /** The slices together take every step once. */
  lemma StepsAddUp(numSteps: nat)
    ensures StepsBefore(numSteps, THREADS) == numSteps
  {
    var q, r := numSteps / THREADS, numSteps % THREADS;
    StepsBeforeClosed(numSteps, THREADS);
    assert numSteps == THREADS * q + r;
  }

  lemma {:induction false} StepsBeforeClosed(numSteps: nat, i: nat)
    ensures StepsBefore(numSteps, i)
      == i * (numSteps / THREADS) + if i < numSteps % THREADS then i else numSteps % THREADS
  {
    if i != 0 {
      StepsBeforeClosed(numSteps, i - 1);
      assert i * (numSteps / THREADS) == (i - 1) * (numSteps / THREADS) + numSteps / THREADS;
    }
  }

  /** The width of one cell of the whole range. */
  function Width(rangeStart: real, rangeEnd: real, numSteps: nat): real
    requires numSteps >= 1
  {
    (rangeEnd - rangeStart) / numSteps as real
  }

  /** ThreadArgs_t */
  datatype ThreadArgs = ThreadArgs(start: real, end: real, steps: nat)

  /** Slice i begins where the serial rule has its StepsBefore-th cell edge, and its cells have the same width. */
  ghost predicate SliceOk(rangeStart: real, rangeEnd: real, numSteps: nat, i: nat, a: ThreadArgs)
    requires numSteps >= 1
  {
    var dx := Width(rangeStart, rangeEnd, numSteps);
    && a.steps == Steps(numSteps, i)
    && a.start == Edge(rangeStart, dx, StepsBefore(numSteps, i))
    && a.end == Edge(rangeStart, dx, StepsBefore(numSteps, i + 1))
  }

  lemma SliceEnd(start: real, total: real, steps: nat, numSteps: nat)
    requires numSteps >= 1
    ensures start + total * steps as real / numSteps as real == Edge(start, total / numSteps as real, steps)
  {
  }

  lemma LastEdge(rangeStart: real, rangeEnd: real, numSteps: nat)
    requires numSteps >= 1
    ensures Edge(rangeStart, Width(rangeStart, rangeEnd, numSteps), numSteps) == rangeEnd
    ensures Edge(rangeStart, Width(rangeStart, rangeEnd, numSteps), 0) == rangeStart
  {
  }

  /** main's loop over the threads: consecutive slices, from the start of the range to its end. */
  method MakeSlices(rangeStart: real, rangeEnd: real, numSteps: nat) returns (args: seq<ThreadArgs>)
    requires numSteps >= 1
    ensures |args| == THREADS
    ensures forall i :: 0 <= i < THREADS ==> SliceOk(rangeStart, rangeEnd, numSteps, i, args[i])
    ensures args[0].start == rangeStart && args[THREADS - 1].end == rangeEnd
    ensures forall i :: 0 <= i < THREADS - 1 ==> args[i].end == args[i + 1].start
  {
    hide Edge, Width, Steps;
    var totalRange := rangeEnd - rangeStart;
    var baseSteps := numSteps / THREADS;
    var remainderSteps := numSteps % THREADS;
    var currentStart := rangeStart;
    ghost var dx := Width(rangeStart, rangeEnd, numSteps);
    LastEdge(rangeStart, rangeEnd, numSteps);
    args := [];
    for i := 0 to THREADS
      invariant |args| == i
      invariant currentStart == Edge(rangeStart, dx, StepsBefore(numSteps, i))
      invariant forall j :: 0 <= j < i ==> SliceOk(rangeStart, rangeEnd, numSteps, j, args[j])
    {
      var steps := baseSteps + if i < remainderSteps then 1 else 0;
      var currentEnd := currentStart + totalRange * steps as real / numSteps as real;
      NextSlice(rangeStart, rangeEnd, numSteps, i, steps, totalRange, currentStart, currentEnd);
      args := args + [ThreadArgs(currentStart, currentEnd, steps)];
      currentStart := currentEnd;
    }
    StepsAddUp(numSteps);
  }

  lemma NextSlice(rangeStart: real, rangeEnd: real, numSteps: nat, i: nat, steps: nat, totalRange: real,
          currentStart: real, currentEnd: real)
    requires numSteps >= 1 && totalRange == rangeEnd - rangeStart
    requires steps == numSteps / THREADS + if i < numSteps % THREADS then 1 else 0
    requires currentStart == Edge(rangeStart, Width(rangeStart, rangeEnd, numSteps), StepsBefore(numSteps, i))
    requires currentEnd == currentStart + totalRange * steps as real / numSteps as real
    ensures steps == Steps(numSteps, i)
    ensures currentEnd == Edge(rangeStart, Width(rangeStart, rangeEnd, numSteps), StepsBefore(numSteps, i + 1))
  {
    hide Edge;
    var dx := Width(rangeStart, rangeEnd, numSteps);
    SliceEnd(currentStart, totalRange, steps, numSteps);
    assert dx == totalRange / numSteps as real;
    EdgeShift(rangeStart, dx, StepsBefore(numSteps, i), steps);
  }

  // ---------------------------------------------------------------- the threads

  /** A slice's trapezoid sum is its share of the serial cells. */
  lemma SliceArea(f: MathFunc, rangeStart: real, rangeEnd: real, numSteps: nat, i: nat, a: ThreadArgs)
    requires numSteps >= THREADS && i < THREADS && SliceOk(rangeStart, rangeEnd, numSteps, i, a)
    ensures a.steps >= 1
    ensures
      var dx := Width(rangeStart, rangeEnd, numSteps);
      Trapezoid(f, a.start, a.end, a.steps)
      == CellSum(f, rangeStart, dx, StepsBefore(numSteps, i + 1)) * dx
         - CellSum(f, rangeStart, dx, StepsBefore(numSteps, i)) * dx
  {
    hide Edge, Width, CellSum;
    var dx := Width(rangeStart, rangeEnd, numSteps);
    SlicesHaveSteps(numSteps);
    var m, k := StepsBefore(numSteps, i), a.steps;
    EdgeShift(rangeStart, dx, m, k);
    CellWidth(a.start, dx, k);
    CellSumSplit(f, rangeStart, dx, m, k);
    Distribute(CellSum(f, rangeStart, dx, m), CellSum(f, a.start, dx, k), dx);
  }

  lemma SliceHasStep(rangeStart: real, rangeEnd: real, numSteps: nat, i: nat, a: ThreadArgs)
    requires numSteps >= THREADS && i < THREADS && SliceOk(rangeStart, rangeEnd, numSteps, i, a)
    ensures a.steps >= 1
  {
    hide Edge, Width;
    SlicesHaveSteps(numSteps);
  }

  lemma CellWidth(start: real, dx: real, k: nat)
    requires k >= 1
    ensures (Edge(start, dx, k) - start) / k as real == dx
  {
  }

  lemma Distribute(x: real, y: real, dx: real)
    ensures (x + y) * dx == x * dx + y * dx
  {
  }

  /** The areas of the threads still pending, among the first k. */
  ghost function PendingArea(areas: seq<real>, pending: set<nat>, k: nat): real
    requires k <= |areas|
  {
    if k == 0 then 0.0 else PendingArea(areas, pending, k - 1) + if k - 1 in pending then areas[k - 1] else 0.0
  }

  lemma {:induction false} PendingRemove(areas: seq<real>, pending: set<nat>, k: nat, i: nat)
    requires k <= |areas| && i < |areas| && i in pending
    ensures PendingArea(areas, pending - {i}, k) == PendingArea(areas, pending, k) - if i < k then areas[i] else 0.0
  {
    if k != 0 {
      PendingRemove(areas, pending, k - 1, i);
    }
  }

  lemma {:induction false} PendingNone(areas: seq<real>, k: nat)
    requires k <= |areas|
    ensures PendingArea(areas, {}, k) == 0.0
  {
    if k != 0 {
      PendingNone(areas, k - 1);
    }
  }

  /** All slices together give the serial area. */
  lemma {:induction false} AreasAddUp(f: MathFunc, rangeStart: real, rangeEnd: real, numSteps: nat,
                                      args: seq<ThreadArgs>, areas: seq<real>, pending: set<nat>, k: nat)
    requires numSteps >= THREADS && |args| == |areas| == THREADS && k <= THREADS
    requires forall i :: 0 <= i < THREADS ==> SliceOk(rangeStart, rangeEnd, numSteps, i, args[i]) && args[i].steps >= 1
    requires forall i :: 0 <= i < THREADS ==>
      areas[i] == Trapezoid(f, args[i].start, args[i].end, args[i].steps) && i in pending
    ensures
      var dx := Width(rangeStart, rangeEnd, numSteps);
      PendingArea(areas, pending, k) == CellSum(f, rangeStart, dx, StepsBefore(numSteps, k)) * dx
  {
    hide Edge, Width, SliceOk, Trapezoid;
    if k == 0 {
    } else {
      AreasAddUp(f, rangeStart, rangeEnd, numSteps, args, areas, pending, k - 1);
      SliceArea(f, rangeStart, rangeEnd, numSteps, k - 1, args[k - 1]);
    }
  }

  ghost function SliceAreas(f: MathFunc, rangeStart: real, rangeEnd: real, numSteps: nat,
          args: seq<ThreadArgs>): (areas: seq<real>)
    requires numSteps >= THREADS && |args| == THREADS
    requires forall i :: 0 <= i < THREADS ==> SliceOk(rangeStart, rangeEnd, numSteps, i, args[i]) && args[i].steps >= 1
    ensures |areas| == THREADS
    ensures forall i :: 0 <= i < THREADS ==> areas[i] == Trapezoid(f, args[i].start, args[i].end, args[i].steps)
  {
    seq(THREADS, i requires 0 <= i < THREADS => Trapezoid(f, args[i].start, args[i].end, args[i].steps))
  }

  lemma WholeWidth(rangeStart: real, rangeEnd: real, numSteps: nat)
    requires numSteps >= 1
    ensures Width(rangeStart, rangeEnd, numSteps) == (rangeEnd - rangeStart) / numSteps as real
  {
  }

  /** The global total and its mutex: one thread's addition is one step. */
  class Shared {
    var total: real

    /** thread.c's integrateTrap. */
    method IntegrateTrap(f: MathFunc, args: ThreadArgs)
      requires args.steps >= 1
      modifies this
      ensures total == old(total) + Trapezoid(f, args.start, args.end, args.steps)
    {
      var rangeSize := args.end - args.start;
      var dx := rangeSize / args.steps as real;
      var sum := 0.0;
      for i := 0 to args.steps
        invariant sum == CellSum(f, args.start, dx, i)
        invariant total == old(total)
      {
        var smallx := args.start + i as real * dx;
        var bigx := args.start + (i + 1) as real * dx;
        assert smallx == Edge(args.start, dx, i) && bigx == Edge(args.start, dx, i + 1);
        sum := sum + (f(smallx) + f(bigx)) / 2.0;
      }
      total := total + sum * dx;
    }

    /**
     One query of thread.c's main: whatever the order in which the threads reach the mutex, the total is the
     serial answer.
     */
    method Integrate(f: MathFunc, rangeStart: real, rangeEnd: real, numSteps: nat)
      requires numSteps >= THREADS
      modifies this
      ensures total == Trapezoid(f, rangeStart, rangeEnd, numSteps)
    {
      hide SliceOk, Edge, Width, CellSum;
      total := 0.0;
      var args := MakeSlices(rangeStart, rangeEnd, numSteps);
      forall i | 0 <= i < THREADS ensures args[i].steps >= 1 {
        SliceHasStep(rangeStart, rangeEnd, numSteps, i, args[i]);
      }
      ghost var areas := SliceAreas(f, rangeStart, rangeEnd, numSteps, args);
      var pending := {0, 1, 2, 3, 4, 5, 6};
      AreasAddUp(f, rangeStart, rangeEnd, numSteps, args, areas, pending, THREADS);
      StepsAddUp(numSteps);
      assert PendingArea(areas, pending, THREADS) == Trapezoid(f, rangeStart, rangeEnd, numSteps) by {
        WholeWidth(rangeStart, rangeEnd, numSteps);
      }
      while pending != {}
        invariant forall i :: i in pending ==> i < THREADS
        invariant total + PendingArea(areas, pending, THREADS) == Trapezoid(f, rangeStart, rangeEnd, numSteps)
        decreases pending
      {
        var i :| i in pending;
        IntegrateTrap(f, args[i]);
        PendingRemove(areas, pending, THREADS, i);
        pending := pending - {i};
      }
      PendingNone(areas, THREADS);
    }
  }

  // ---------------------------------------------------------------- what the trapezoid rule is worth

  /** The sum of f at the edges from 1 up to but not including k. */
  function InnerSum(f: MathFunc, start: real, dx: real, k: nat): real {
    if k <= 1 then 0.0 else InnerSum(f, start, dx, k - 1) + f(start + (k - 1) as real * dx)
  }

  lemma {:induction false} CellsAsPoints(f: MathFunc, start: real, dx: real, k: nat)
    requires k >= 1
    ensures CellSum(f, start, dx, k) == f(start) / 2.0 + InnerSum(f, start, dx, k) + f(Edge(start, dx, k)) / 2.0
  {
    if k == 1 {
      assert Edge(start, dx, 0) == start && InnerSum(f, start, dx, 1) == 0.0;
      assert CellSum(f, start, dx, 1)
        == CellSum(f, start, dx, 0) + (f(Edge(start, dx, 0)) + f(Edge(start, dx, 1))) / 2.0;
    } else {
      CellsAsPoints(f, start, dx, k - 1);
    }
  }

  /** Each inner edge counts once and each end half, times the width of a cell. */
  lemma TrapezoidPoints(f: MathFunc, start: real, end: real, steps: nat)
    requires steps >= 1
    ensures
      var dx := (end - start) / steps as real;
      Trapezoid(f, start, end, steps) == (f(start) / 2.0 + InnerSum(f, start, dx, steps) + f(end) / 2.0) * dx
  {
    var dx := (end - start) / steps as real;
    CellsAsPoints(f, start, dx, steps);
    assert steps as real * dx == end - start;
  }

  lemma {:induction false} LinearCells(f: MathFunc, m: real, c: real, start: real, dx: real, k: nat)
    requires forall x :: f(x) == m * x + c
    ensures CellSum(f, start, dx, k) == k as real * (m * start + c) + m * dx * (k as real * k as real) / 2.0
  {
    if k != 0 {
      LinearCells(f, m, c, start, dx, k - 1);
      var a, b := Edge(start, dx, k - 1), Edge(start, dx, k);
      assert f(a) == m * a + c && f(b) == m * b + c;
      OneMoreCell(m, c, start, dx, k as real);
    }
  }

  lemma OneMoreCell(m: real, c: real, start: real, dx: real, k: real)
    ensures
      var a, b := start + (k - 1.0) * dx, start + k * dx;
      (k - 1.0) * (m * start + c) + m * dx * ((k - 1.0) * (k - 1.0)) / 2.0 + (m * a + c + (m * b + c)) / 2.0
      == k * (m * start + c) + m * dx * (k * k) / 2.0
  {
    var s, d := m * start, m * dx;
    assert m * (start + (k - 1.0) * dx) == s + (k - 1.0) * d;
    assert m * (start + k * dx) == s + k * d;
    assert d * ((k - 1.0) * (k - 1.0)) == d * (k * k) - 2.0 * (d * k) + d;
    assert (k - 1.0) * d == d * k - d && k * d == d * k;
    assert (k - 1.0) * (s + c) == k * (s + c) - (s + c);
  }

  /** The rule is exact for every linear function, with any number of steps. */
  lemma LinearIsExact(f: MathFunc, m: real, c: real, start: real, end: real, steps: nat)
    requires steps >= 1 && forall x :: f(x) == m * x + c
    ensures Trapezoid(f, start, end, steps) == m * (end * end - start * start) / 2.0 + c * (end - start)
  {
    var n, w := steps as real, end - start;
    var dx := w / n;
    LinearCells(f, m, c, start, dx, steps);
    assert n * dx == w;
    var s := m * start + c;
    assert (n * s + m * dx * (n * n) / 2.0) * dx == s * (n * dx) + m * (n * dx) * (n * dx) / 2.0;
    assert s * w + m * w * w / 2.0 == m * (end * end - start * start) / 2.0 + c * w by { Squares(m, c, start, end); }
  }

  lemma Squares(m: real, c: real, a: real, b: real)
    ensures (m * a + c) * (b - a) + m * (b - a) * (b - a) / 2.0 == m * (b * b - a * a) / 2.0 + c * (b - a)
  {
    assert (b - a) * (b - a) == b * b - 2.0 * (a * b) + a * a;
    assert m * (b - a) * (b - a) == m * ((b - a) * (b - a));
    assert (m * a + c) * (b - a) == m * (a * b - a * a) + c * (b - a);
    assert m * (b * b - 2.0 * (a * b) + a * a) == m * (b * b) - 2.0 * (m * (a * b)) + m * (a * a);
    assert m * (a * b - a * a) == m * (a * b) - m * (a * a) && m * (b * b - a * a) == m * (b * b) - m * (a * a);
  }
}
