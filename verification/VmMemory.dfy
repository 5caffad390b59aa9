/** How much memory an address space takes: when the page allocator runs out, exactly. */
module VmMemory {
  import opened SetSizes
  import opened VmModel
  import opened VmSteps
  import opened VmSpaces

  /** The entries of a directory that have a table. */
  ghost function TablesIn(p: Page): set<int> {
    set i: int | 0 <= i < ENTRIES && Present(p[i])
  }

  ghost function Tables(mem: seq<Page>, d: nat): set<int> {
    if d < |mem| then TablesIn(mem[d]) else {}
  }

  /** The directory entries that the n virtual pages from v on fall under. */
  ghost function Span(v: nat, n: nat): set<int> {
    if n == 0 then {} else Span(v, n - 1) + {(v + n - 1) / ENTRIES}
  }

  /**
   From m to n directory d got the tables of need that it did not have, and pages more pages; all of them came from the
   free list.
   */
  ghost predicate Spent(m: World, n: World, d: nat, pages: nat, need: set<int>) {
    && Tables(n.mem, d) == Tables(m.mem, d) + need
    && |m.free| == |n.free| + pages + |need - Tables(m.mem, d)|
  }

  /** What the n virtual pages from v on take out of the free list: a page each, and the tables that are missing. */
  ghost function Cost(mem: seq<Page>, d: nat, v: nat, n: nat): nat {
    n + |Span(v, n) - Tables(mem, d)|
  }

  lemma SpentNone(m: World, n: World, d: nat)
    requires n.free == m.free && Tables(n.mem, d) == Tables(m.mem, d)
    ensures Spent(m, n, d, 0, {})
  {
    assert {} - Tables(m.mem, d) == {};
  }

  lemma SpentThenSame(m: World, n: World, q: World, d: nat, pages: nat, need: set<int>)
    requires Spent(m, n, d, pages, need) && q.free == n.free && Tables(q.mem, d) == Tables(n.mem, d)
    ensures Spent(m, q, d, pages, need)
  {
  }

  lemma NotTheDirectory(owner: map<nat, Use>, f: nat, d: nat)
    requires HasUse(owner, f, Free) && HasUse(owner, d, Dir)
    ensures f != d
  {
  }

  lemma SpanNone(v: nat)
    ensures Span(v, 0) == {}
  {
  }

  /** A table that is there costs nothing. */
  lemma SpentTable(m: World, n: World, d: nat, i: int)
    requires n.free == m.free && Tables(n.mem, d) == Tables(m.mem, d) && i in Tables(m.mem, d)
    ensures Spent(m, n, d, 0, {i})
  {
    assert {i} - Tables(m.mem, d) == {};
  }

  lemma SpentNewTable(m: World, n: World, d: nat, i: int)
    requires m.free != [] && n.free == m.free[1..] && Tables(n.mem, d) == Tables(m.mem, d) + {i}
    requires i !in Tables(m.mem, d)
    ensures Spent(m, n, d, 0, {i})
  {
    assert {i} - Tables(m.mem, d) == {i};
  }

  lemma SpentPage(m: World, n: World, d: nat)
    requires m.free != [] && n.free == m.free[1..] && Tables(n.mem, d) == Tables(m.mem, d)
    ensures Spent(m, n, d, 1, {})
  {
    assert {} - Tables(m.mem, d) == {};
  }

  lemma SpentTwice(m: World, n: World, q: World, d: nat, a: nat, b: nat, s: set<int>, t: set<int>)
    requires Spent(m, n, d, a, s) && Spent(n, q, d, b, t)
    ensures Spent(m, q, d, a + b, s + t)
  {
    var had := Tables(m.mem, d);
    assert Tables(n.mem, d) == had + s;
    assert (s + t) - had == (s - had) + (t - (had + s));
    DisjointSize(s - had, t - (had + s));
    assert had + s + t == had + (s + t);
  }

  /** One page more of the same range. */
  lemma SpentNext(m: World, n: World, q: World, d: nat, v: nat, k: nat, pages: nat, b: nat)
    requires Spent(m, n, d, pages, Span(v, k)) && Spent(n, q, d, b, {(v + k) / ENTRIES})
    ensures Spent(m, q, d, pages + b, Span(v, k + 1))
  {
    SpentTwice(m, n, q, d, pages, b, Span(v, k), {(v + k) / ENTRIES});
  }

  /** The page after those mapped so far is not mapped yet. */
  lemma StillUnmapped(mem: seq<Page>, after: seq<Page>, d: nat, lo: nat, k: nat, hi: nat)
    requires Unmapped(mem, d, lo, hi) && Outside(mem, after, d, lo, k) && lo <= k < hi <= VPAGES
    ensures !Present(Pte(after, d, k))
  {
    hide Pte;
    assert Pte(after, d, k) == Pte(mem, d, k);
  }

  lemma SpanOne(v: nat)
    ensures Span(v, 1) == {v / ENTRIES}
  {
    assert Span(v, 0) == {};
  }

  lemma {:induction false} SpanMore(v: nat, k: nat, n: nat)
    requires k <= n
    ensures forall i: int :: i in Span(v, k) ==> i in Span(v, n)
    ensures k < n ==> (v + k) / ENTRIES in Span(v, n)
    decreases n
  {
    if k < n {
      SpanMore(v, k, n - 1);
    }
  }

  lemma {:induction false} SpanRange(v: nat, n: nat, i: int)
    ensures i in Span(v, n) <==> n > 0 && v / ENTRIES <= i <= (v + n - 1) / ENTRIES
  {
    if n > 0 {
      SpanRange(v, n - 1, i);
      NextTable(v, n);
    }
  }

  lemma NextTable(v: nat, n: nat)
    requires n > 0
    ensures v / ENTRIES <= (v + n - 1) / ENTRIES
    ensures n > 1 ==> (v + n - 2) / ENTRIES <= (v + n - 1) / ENTRIES <= (v + n - 2) / ENTRIES + 1
    ensures n == 1 ==> (v + n - 1) / ENTRIES == v / ENTRIES
  {
    Monotone(v, v + n - 1);
    if n > 1 {
      Monotone(v + n - 2, v + n - 1);
    }
  }

  lemma Monotone(a: nat, b: nat)
    requires a <= b
    ensures a / ENTRIES <= b / ENTRIES
    ensures b == a + 1 ==> b / ENTRIES <= a / ENTRIES + 1
  {
  }

  /** Memory ran out k pages into the range: it was too little for the whole of it. */
  lemma TooLittle(m: World, n: World, d: nat, v: nat, k: nat, count: nat)
    requires Spent(m, n, d, k, Span(v, k)) && k < count
    requires n.free == [] || (|n.free| == 1 && (v + k) / ENTRIES !in Tables(n.mem, d))
    ensures |m.free| < Cost(m.mem, d, v, count)
  {
    var had := Tables(m.mem, d);
    SpanMore(v, k, count);
    if n.free == [] {
      SizeOfPart(Span(v, k) - had, Span(v, count) - had);
    } else {
      SpanMore(v, k + 1, count);
      var more := Span(v, k) + {(v + k) / ENTRIES};
      SizeOfPart(more - had, Span(v, count) - had);
      assert more - had == (Span(v, k) - had) + {(v + k) / ENTRIES};
      DisjointSize(Span(v, k) - had, {(v + k) / ENTRIES});
    }
  }

  /** All of the range was paid for. */
  lemma Enough(m: World, n: World, d: nat, v: nat, count: nat)
    requires Spent(m, n, d, count, Span(v, count))
    ensures |m.free| >= Cost(m.mem, d, v, count) && |n.free| == |m.free| - Cost(m.mem, d, v, count)
  {
  }

  /** One page taken and mapped: m before, b with the page held, q afterwards. */
  lemma PagePaid(m: World, b: World, q: World, d: nat, v: nat)
    requires m.free != [] && b.free == m.free[1..] && Tables(b.mem, d) == Tables(m.mem, d)
    requires Spent(b, q, d, 0, {v / ENTRIES})
    ensures Spent(m, q, d, 1, {v / ENTRIES})
  {
    SpentPage(m, b, d);
    SpentTwice(m, b, q, d, 1, 0, {}, {v / ENTRIES});
    assert {} + {v / ENTRIES} == {v / ENTRIES};
  }

  /** The page was the last one, and its table is missing. */
  lemma PageUnpaid(m: World, b: World, q: World, d: nat)
    requires m.free != [] && b.free == m.free[1..] && Tables(b.mem, d) == Tables(m.mem, d)
    requires Spent(b, q, d, 0, {}) && q.free == []
    ensures |m.free| == 1 && Tables(q.mem, d) == Tables(m.mem, d)
  {
    assert {} - Tables(m.mem, d) == {};
  }

  /** With no pages but tables, what the free list loses the directory has. */
  lemma TablesPaid(m: World, n: World, d: nat, need: set<int>)
    requires Spent(m, n, d, 0, need)
    ensures Tables(n.mem, d) == Tables(m.mem, d) + need
    ensures |m.free| + |Tables(m.mem, d)| == |n.free| + |Tables(n.mem, d)|
  {
    var had := Tables(m.mem, d);
    DisjointSize(had, need - had);
    assert had + (need - had) == had + need;
  }

  lemma SameTables(mem: seq<Page>, mem': seq<Page>, d: nat)
    requires d < |mem| && d < |mem'| && mem'[d] == mem[d]
    ensures Tables(mem', d) == Tables(mem, d)
  {
  }

  lemma StoredTable(mem: seq<Page>, mem': seq<Page>, d: nat, i: nat, w: nat)
    requires d < |mem| && d < |mem'| && i < ENTRIES && mem'[d] == mem[d][i := w] && Present(w)
    ensures Tables(mem', d) == Tables(mem, d) + {i as int}
  {
  }

  /** The table for page v, and every loose page, is another page than the directory. */
  lemma TableElsewhere(m: World, d: nat, v: nat, first: nat)
    requires Good(m, first) && HasUse(m.owner, d, Dir) && v < VPAGES
    ensures d < |m.mem| && (v / ENTRIES in Tables(m.mem, d) <==> Present(m.mem[d][v / ENTRIES]))
    ensures Present(m.mem[d][v / ENTRIES]) ==> Frame(m.mem[d][v / ENTRIES]) != d
  {
    hide Pte, FreeListed, Rooted;
    assert Tree(m.mem, m.owner, d);
    assert Present(m.mem[d][v / ENTRIES]) ==> HasUse(m.owner, Frame(m.mem[d][v / ENTRIES]), Table(d, v / ENTRIES));
  }

  lemma NoTables(mem: seq<Page>, d: nat)
    requires d < |mem| && mem[d] == Filled(0)
    ensures Tables(mem, d) == {}
  {
  }

  // ---------------------------------------------------------------- the kernel's tables

  /** The tables that the first k lines of kmap take. */
  ghost function KernelTables(kdata: nat, k: nat): set<int>
    requires k <= 4
  {
    if k == 0 then {}
    else KernelTables(kdata, k - 1) + LineSpan(kdata, k - 1)
  }

  /** The tables that line k takes. */
  ghost function LineSpan(kdata: nat, k: nat): set<int>
    requires k < 4
  {
    var e := KernelMap(kdata)[k];
    if KmapSize(e) > 0 then Span(e.virt / PGSIZE, PagesOf(e.virt, KmapSize(e))) else {}
  }

  lemma LineSpanOf(kdata: nat, k: nat)
    requires k < 4 && KmapSize(KernelMap(kdata)[k]) > 0
    ensures
      var e := KernelMap(kdata)[k];
      LineSpan(kdata, k) == Span(e.virt / PGSIZE, PagesOf(e.virt, KmapSize(e)))
  {
  }

  lemma KernelTablesStart(kdata: nat)
    ensures KernelTables(kdata, 0) == {}
  {
  }

  lemma KernelTablesNext(kdata: nat, k: nat)
    requires k < 4
    ensures KernelTables(kdata, k + 1) == KernelTables(kdata, k) + LineSpan(kdata, k)
  {
    hide LineSpan;
  }

  ghost function Between(lo: int, hi: int): (s: set<int>)
    requires lo <= hi
    ensures forall i: int :: i in s <==> lo <= i < hi
    ensures |s| == hi - lo
    decreases hi - lo
  {
    if lo == hi then {} else Between(lo, hi - 1) + {hi - 1}
  }

  lemma SpanBetween(v: nat, n: nat)
    requires n > 0
    ensures v / ENTRIES <= (v + n - 1) / ENTRIES
    ensures Span(v, n) == Between(v / ENTRIES, (v + n - 1) / ENTRIES + 1)
  {
    Monotone(v, v + n - 1);
    forall i: int ensures i in Span(v, n) <==> i in Between(v / ENTRIES, (v + n - 1) / ENTRIES + 1) {
      SpanRange(v, n, i);
    }
  }

  /** The n pages from address 0 on take one table for each 1024 of them. */
  lemma SpanFromZero(n: nat)
    ensures |Span(0, n)| == (n + ENTRIES - 1) / ENTRIES
    ensures forall i: int :: i in Span(0, n) ==> 0 <= i < (n + ENTRIES - 1) / ENTRIES
  {
    if n > 0 {
      SpanBetween(0, n);
    }
  }

  function LineFirst(kdata: nat, k: nat): nat {
    if k == 0 then USERPAGES
    else if k == 1 then USERPAGES + EXTMEM / PGSIZE
    else if k == 2 then USERPAGES + kdata
    else DEVSPACE / PGSIZE
  }

  lemma LinePages(kdata: nat, k: nat)
    requires GoodKernel(kdata) && k < 4
    ensures LineFirst(kdata, k) < Stop(kdata, k + 1)
    ensures LineSpan(kdata, k) == Span(LineFirst(kdata, k), Stop(kdata, k + 1) - LineFirst(kdata, k))
  {
    hide Span, KernelPte, PagesOf;
    KmapRange(kdata, k);
  }

  lemma LineSpanIs(kdata: nat, k: nat)
    requires GoodKernel(kdata) && k < 4
    ensures
      var first, last := LineFirst(kdata, k) / ENTRIES, (Stop(kdata, k + 1) - 1) / ENTRIES;
      first <= last && LineSpan(kdata, k) == Between(first, last + 1)
  {
    hide Span, LineSpan, KernelMap;
    LinePages(kdata, k);
    SpanBetween(LineFirst(kdata, k), Stop(kdata, k + 1) - LineFirst(kdata, k));
  }

  lemma FirstLines(kdata: nat)
    requires GoodKernel(kdata)
    ensures LineSpan(kdata, 0) == Between(512, 513) && LineSpan(kdata, 3) == Between(1016, 1024)
  {
    hide LineSpan, Between;
    LineSpanIs(kdata, 0);
    LineSpanIs(kdata, 3);
  }

  lemma MiddleLines(kdata: nat)
    requires GoodKernel(kdata)
    ensures 0 <= (kdata - 1) / ENTRIES && LineSpan(kdata, 1) == Between(512, 512 + (kdata - 1) / ENTRIES + 1)
    ensures kdata / ENTRIES <= 56 && LineSpan(kdata, 2) == Between(512 + kdata / ENTRIES, 568)
  {
    hide LineSpan, Between;
    LineSpanIs(kdata, 1);
    LineSpanIs(kdata, 2);
    assert (USERPAGES + kdata - 1) / ENTRIES == 512 + (kdata - 1) / ENTRIES;
    assert (USERPAGES + kdata) / ENTRIES == 512 + kdata / ENTRIES;
  }

  /** 56 for the 224 MB of physical memory, 8 for the devices at the top. */
  lemma KernelTablesAre(kdata: nat)
    requires GoodKernel(kdata)
    ensures KernelTables(kdata, 4) == Between(512, 568) + Between(1016, 1024)
    ensures |KernelTables(kdata, 4)| == 64
  {
    hide LineSpan, KernelTables, Between;
    FirstLines(kdata);
    MiddleLines(kdata);
    Cover(kdata);
    DisjointSize(Between(512, 568), Between(1016, 1024));
    AllLines(kdata);
  }

  lemma KernelTablesCount(kdata: nat)
    requires GoodKernel(kdata)
    ensures |KernelTables(kdata, 4)| == 64
  {
    hide KernelTables, Between;
    KernelTablesAre(kdata);
  }

  lemma AllLines(kdata: nat)
    ensures KernelTables(kdata, 4) == LineSpan(kdata, 0) + LineSpan(kdata, 1) + LineSpan(kdata, 2) + LineSpan(kdata, 3)
    ensures forall k: nat :: k < 4 ==> KernelTables(kdata, k) + LineSpan(kdata, k) <= KernelTables(kdata, 4)
  {
    hide LineSpan;
    assert KernelTables(kdata, 1) == LineSpan(kdata, 0);
    assert KernelTables(kdata, 2) == KernelTables(kdata, 1) + LineSpan(kdata, 1);
    assert KernelTables(kdata, 3) == KernelTables(kdata, 2) + LineSpan(kdata, 2);
    assert KernelTables(kdata, 4) == KernelTables(kdata, 3) + LineSpan(kdata, 3);
  }

  /** The first three lines leave no table out between them. */
  lemma Cover(kdata: nat)
    requires GoodKernel(kdata)
    ensures 0 <= (kdata - 1) / ENTRIES <= 55 && kdata / ENTRIES <= (kdata - 1) / ENTRIES + 1
    ensures Between(512, 513) + Between(512, 512 + (kdata - 1) / ENTRIES + 1) + Between(512 + kdata / ENTRIES, 568)
      == Between(512, 568)
  {
    Monotone(kdata - 1, kdata);
  }

  lemma KernelPart(kdata: nat, k: nat)
    requires GoodKernel(kdata) && k < 4
    ensures KernelTables(kdata, k) + LineSpan(kdata, k) <= KernelTables(kdata, 4) && |KernelTables(kdata, 4)| == 64
  {
    hide LineSpan, KernelTables, Between;
    KernelTablesAre(kdata);
    AllLines(kdata);
  }

  /** Memory ran out in line k of kmap, which maps the n pages from v on. */
  lemma KernelTooLittle(kdata: nat, k: nat, v: nat, n: nat, had: set<int>, done: nat)
    requires GoodKernel(kdata) && k < 4 && LineSpan(kdata, k) == Span(v, n) && done < n
    requires had == KernelTables(kdata, k) + Span(v, done) && (v + done) / ENTRIES !in had
    ensures |had| < 64
  {
    hide Span, LineSpan, KernelTables, Between;
    KernelPart(kdata, k);
    SpanMore(v, done, n);
    OneMissing(had, (v + done) / ENTRIES, KernelTables(kdata, k) + Span(v, n), KernelTables(kdata, 4));
  }

  lemma OneMissing(had: set<int>, i: int, some: set<int>, all: set<int>)
    requires (forall x: int :: x in had ==> x in some) && some <= all && i in some && i !in had
    ensures |had| < |all|
  {
    SizeOfPart(had + {i}, all);
    DisjointSize(had, {i});
  }

  // ---------------------------------------------------------------- a copy of an address space

  /**
   The pages that copyuvm takes for a parent of n pages: a directory, 64 kernel tables, the copies and their tables.
   */
  function ForkCost(n: nat): nat {
    65 + n + (n + ENTRIES - 1) / ENTRIES
  }

  lemma ForkCostGrows(a: nat, b: nat)
    requires a <= b
    ensures ForkCost(a) <= ForkCost(b)
  {
    Monotone(a + ENTRIES - 1, b + ENTRIES - 1);
  }

  lemma KernelAbove(kdata: nat)
    requires GoodKernel(kdata)
    ensures forall i: int :: i in KernelTables(kdata, 4) ==> 512 <= i
  {
    hide KernelTables, Between;
    KernelTablesAre(kdata);
  }

  lemma UserBelow(n: nat)
    requires n <= USERPAGES
    ensures |Span(0, n)| == (n + ENTRIES - 1) / ENTRIES
    ensures forall i: int :: i in Span(0, n) ==> i < 512
  {
    hide Span;
    SpanFromZero(n);
    Monotone(n + ENTRIES - 1, USERPAGES + ENTRIES - 1);
  }

  lemma Apart(s: set<int>, t: set<int>)
    requires (forall i: int :: i in s ==> i < 512) && (forall i: int :: i in t ==> 512 <= i)
    ensures s - t == s
  {
    assert forall i: int :: i in s - t <==> i in s;
  }

  /** The kernel's tables are no help to the user's half. */
  lemma CostFromZero(mem: seq<Page>, d: nat, kdata: nat, n: nat)
    requires GoodKernel(kdata) && Tables(mem, d) == KernelTables(kdata, 4) && n <= USERPAGES
    ensures 65 + Cost(mem, d, 0, n) == ForkCost(n)
  {
    hide Tables, KernelTables, Span;
    KernelAbove(kdata);
    UserBelow(n);
    Apart(Span(0, n), Tables(mem, d));
  }

  lemma ForkTooLittle(setup: World, n: World, d: nat, kdata: nat, k: nat)
    requires GoodKernel(kdata) && Tables(setup.mem, d) == KernelTables(kdata, 4) && k < USERPAGES
    requires Spent(setup, n, d, k, Span(0, k))
    requires n.free == [] || (|n.free| == 1 && k / ENTRIES !in Tables(n.mem, d))
    ensures |setup.free| + 65 < ForkCost(k + 1)
  {
    hide Tables, KernelTables, Span, Spent, ForkCost, Cost;
    TooLittle(setup, n, d, 0, k, k + 1);
    CostFromZero(setup.mem, d, kdata, k + 1);
  }

  lemma ForkPaid(setup: World, n: World, d: nat, kdata: nat, k: nat)
    requires GoodKernel(kdata) && Tables(setup.mem, d) == KernelTables(kdata, 4) && k <= USERPAGES
    requires Spent(setup, n, d, k, Span(0, k))
    ensures |setup.free| + 65 == |n.free| + ForkCost(k)
  {
    hide Tables, KernelTables, Span, Spent, ForkCost, Cost;
    Enough(setup, n, d, 0, k);
    CostFromZero(setup.mem, d, kdata, k);
  }

  lemma ForkFirst(mem: seq<Page>, p: nat)
    ensures ForkCost(0) == 65 && AllMapped(mem, p, 0)
  {
  }

  /** Memory is too little for the first k pages, which are all mapped. */
  lemma ForkFails(mem: seq<Page>, p: nat, free: nat, k: nat, hi: nat)
    requires AllMapped(mem, p, k) && k <= hi && free < ForkCost(k)
    ensures free < ForkCost(hi)
    ensures forall c: nat {:trigger Pte(mem, p, c)} ::
      c < hi && AllMapped(mem, p, c) && !Present(Pte(mem, p, c)) ==> free < ForkCost(c)
  {
    hide Pte, ForkCost;
    ForkCostGrows(k, hi);
    forall c: nat | c < hi && AllMapped(mem, p, c) && !Present(Pte(mem, p, c)) ensures free < ForkCost(c) {
      if k <= c {
        ForkCostGrows(k, c);
      }
    }
  }

  /** Page k is the first that is missing, and memory is enough for those before it. */
  lemma ForkPanics(mem: seq<Page>, p: nat, free: nat, k: nat, hi: nat)
    requires AllMapped(mem, p, k) && !Present(Pte(mem, p, k)) && k < hi && free >= ForkCost(k)
    ensures forall c: nat {:trigger Pte(mem, p, c)} ::
      c < hi && AllMapped(mem, p, c) && !Present(Pte(mem, p, c)) ==> free >= ForkCost(c)
  {
    hide Pte, ForkCost;
  }

  lemma ForkDone(mem: seq<Page>, p: nat, hi: nat)
    requires AllMapped(mem, p, hi)
    ensures forall c: nat {:trigger Pte(mem, p, c)} :: c < hi ==> Present(Pte(mem, p, c))
  {
    hide Pte;
  }

  /** The child has nothing at the next page to be copied. */
  lemma NotThere(born: seq<Page>, mem: seq<Page>, d: nat, kdata: nat, k: nat)
    requires KernelUpTo(born, d, kdata, VPAGES) && Outside(born, mem, d, 0, k) && k < USERPAGES
    ensures !Present(Pte(mem, d, k))
  {
    hide Pte;
    assert Pte(mem, d, k) == Pte(born, d, k) == KernelPte(kdata, k);
  }
}
