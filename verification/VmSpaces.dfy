/** Growing an address space page by page, and the kernel's part of every address space. */
module VmSpaces {
  import opened VmModel
  import opened VmSteps

  // ---------------------------------------------------------------- the kernel's map

  const EXTMEM: nat := 0x10_0000
  const PHYSTOP: nat := 0xE00_0000
  const DEVSPACE: nat := 0xFE00_0000

  datatype Kmap = Kmap(virt: nat, start: nat, end: nat, perm: nat)

  /** kmap; kdata is the frame of the symbol data, where the kernel's writable part begins. */
  function KernelMap(kdata: nat): (r: seq<Kmap>)
    ensures |r| == 4
  {
    [Kmap(KERNBASE, 0, EXTMEM, PTE_W),
     Kmap(KERNBASE + EXTMEM, EXTMEM, kdata * PGSIZE, 0),
     Kmap(KERNBASE + kdata * PGSIZE, kdata * PGSIZE, PHYSTOP, PTE_W),
     Kmap(DEVSPACE, DEVSPACE, 0, PTE_W)]
  }

  predicate GoodKernel(kdata: nat) {
    EXTMEM / PGSIZE < kdata < PHYSTOP / PGSIZE
  }

  /** The size argument of a line of kmap, in 32 bits: the last line wraps to the end of the address space. */
  function KmapSize(k: Kmap): nat {
    (k.end - k.start) % UINT
  }

  /** The translation that every address space has for a page of the kernel's half. */
  function KernelPte(kdata: nat, u: nat): nat {
    if USERPAGES <= u < USERPAGES + EXTMEM / PGSIZE then Entry(u - USERPAGES, PTE_W + PTE_P)
    else if USERPAGES <= u < USERPAGES + kdata then Entry(u - USERPAGES, PTE_P)
    else if USERPAGES <= u < USERPAGES + PHYSTOP / PGSIZE then Entry(u - USERPAGES, PTE_W + PTE_P)
    else if DEVSPACE / PGSIZE <= u < VPAGES then Entry(u, PTE_W + PTE_P)
    else 0
  }

  /** Where the first k lines of kmap end. */
  function Stop(kdata: nat, k: nat): nat {
    if k == 0 then USERPAGES
    else if k == 1 then USERPAGES + EXTMEM / PGSIZE
    else if k == 2 then USERPAGES + kdata
    else if k == 3 then USERPAGES + PHYSTOP / PGSIZE
    else VPAGES
  }

  /** Below s the translations under d are the kernel's, from s on there are none. */
  ghost predicate KernelUpTo(mem: seq<Page>, d: nat, kdata: nat, s: nat) {
    forall u: nat {:trigger Pte(mem, d, u)} :: u < VPAGES ==> Pte(mem, d, u) == if u < s then KernelPte(kdata, u) else 0
  }

  /** Line k of kmap maps its part of the kernel's half. */
  lemma KmapRange(kdata: nat, k: nat)
    requires GoodKernel(kdata) && k < 4
    ensures
      var e := KernelMap(kdata)[k];
      var v, f, size := e.virt / PGSIZE, e.start / PGSIZE, KmapSize(e);
      && 0 < size && e.virt + size <= UINT && e.start % PGSIZE == 0 && e.perm < PGSIZE
      && Stop(kdata, k) <= v && v + PagesOf(e.virt, size) == Stop(kdata, k + 1) <= VPAGES && v >= USERPAGES
      && (forall u: nat :: v <= u < Stop(kdata, k + 1) ==>
        KernelPte(kdata, u) == Entry(f + (u - v), WithPresent(e.perm)))
      && (forall u: nat :: Stop(kdata, k) <= u < v ==> KernelPte(kdata, u) == 0)
  {
    hide Entry;
    if k == 0 {
      assert KmapSize(KernelMap(kdata)[0]) == EXTMEM;
    } else if k == 1 {
      assert KmapSize(KernelMap(kdata)[1]) == kdata * PGSIZE - EXTMEM;
    } else if k == 2 {
      assert KmapSize(KernelMap(kdata)[2]) == PHYSTOP - kdata * PGSIZE;
    } else {
      assert KmapSize(KernelMap(kdata)[3]) == UINT - DEVSPACE;
    }
  }

  lemma KernelMore(mem: seq<Page>, mem': seq<Page>, d: nat, kdata: nat, k: nat)
    requires GoodKernel(kdata) && k < 4 && KernelUpTo(mem, d, kdata, Stop(kdata, k))
    requires
      var e := KernelMap(kdata)[k];
      KmapSize(e) > 0 && RangeMapped(mem, mem', d, e.virt / PGSIZE, PagesOf(e.virt, KmapSize(e)), e.start / PGSIZE,
        WithPresent(e.perm))
    ensures KernelUpTo(mem', d, kdata, Stop(kdata, k + 1))
  {
    KmapRange(kdata, k);
    hide Pte, Entry, KernelMap, PagesOf, KernelPte, Stop, WithPresent;
    var e := KernelMap(kdata)[k];
    forall u: nat | u < VPAGES ensures Pte(mem', d, u) == if u < Stop(kdata, k + 1) then KernelPte(kdata, u) else 0 {
      assert Pte(mem, d, u) == if u < Stop(kdata, k) then KernelPte(kdata, u) else 0;
    }
  }

  /** So mappages never finds a kernel page mapped already. */
  lemma NoRemap(mem: seq<Page>, d: nat, kdata: nat, s: nat)
    requires KernelUpTo(mem, d, kdata, s)
    ensures forall u: nat {:trigger Pte(mem, d, u)} :: s <= u < VPAGES ==> !Present(Pte(mem, d, u))
  {
    hide Pte;
  }

  /** A zeroed page becomes a directory. */
  lemma NewDirectory(m: World, d: nat, kdata: nat, first: nat)
    requires Good(m, first) && HasUse(m.owner, d, Held) && d < |m.mem| && m.mem[d] == Filled(0)
    ensures
      var n := m.(owner := m.owner[d := Dir]);
      && Good(n, first) && OnlyUnder(m, n, d) && HasUse(n.owner, d, Dir)
      && KernelUpTo(n.mem, d, kdata, USERPAGES)
  {
    var n := m.(owner := m.owner[d := Dir]);
    GoodParts(m, first);
    HeldToTable(m.owner, m.free, d, Dir);
    RootedDir(m.owner, first, |m.mem|, d);
    hide FreeListed, Rooted, Trees;
    assert forall i: nat :: i < ENTRIES ==> m.mem[d][i] == 0;
    assert Tree(n.mem, n.owner, d);
    hide Tree, Pte;
    GoodAfter(m, n, d, first);
  }

  lemma RootedDir(owner: map<nat, Use>, first: nat, count: nat, d: nat)
    requires Rooted(owner, first, count) && HasUse(owner, d, Held)
    ensures Rooted(owner[d := Dir], first, count)
    ensures forall f :: f in owner && f != d ==> !About(owner[f], f, d)
  {
    forall f | f in owner && f != d ensures !About(owner[f], f, d) {
      assert owner[f].Table? ==> HasUse(owner, owner[f].d, Dir);
      assert owner[f].User? ==> HasUse(owner, owner[f].d, Dir);
    }
  }

  // ---------------------------------------------------------------- growing

  /** What was in use is as it was; free pages have at most become d, its tables and its user pages lo .. hi. */
  ghost predicate Grew(m: World, n: World, d: nat, lo: nat, hi: nat) {
    && |n.mem| == |m.mem|
    && n.owner.Keys == m.owner.Keys
    && (forall f :: f in m.owner && m.owner[f] != Free ==> n.owner[f] == m.owner[f])
    && (forall f :: f in m.owner && m.owner[f] == Free ==>
          n.owner[f] == Free || n.owner[f] == Table(d, if n.owner[f].Table? then n.owner[f].i else 0)
          || InSpan(n.owner[f], d, lo, hi) || (f == d && n.owner[f] == Dir))
    && (forall f :: f in m.owner && f < |m.mem| && (m.owner[f] == Held || m.owner[f].User?) ==> n.mem[f] == m.mem[f])
  }

  lemma GrewSelf(m: World, d: nat, lo: nat)
    ensures Grew(m, m, d, lo, lo)
  {
  }

  lemma GrewKept(m: World, n: World, q: World, d: nat, lo: nat, hi: nat)
    requires Grew(m, n, d, lo, hi) && Kept(n, q, d)
    ensures Grew(m, q, d, lo, hi)
  {
  }

  /** Once d is freed again, all pages are used as before. */
  lemma GrewThenGone(m: World, n: World, q: World, d: nat, lo: nat, hi: nat)
    requires Grew(m, n, d, lo, hi) && HasUse(m.owner, d, Free) && Gone(n.owner, q.owner, d) && SameData(n, q)
    requires forall f :: f in m.owner ==> !About(m.owner[f], f, d)
    ensures q.owner == m.owner && SameData(m, q)
  {
  }

  /** A page that the caller holds on the way. */
  ghost predicate GrewHolding(m: World, n: World, d: nat, lo: nat, hi: nat, f: nat) {
    && HasUse(m.owner, f, Free) && HasUse(n.owner, f, Held)
    && Grew(m, n.(owner := n.owner[f := Free]), d, lo, hi)
  }

  lemma StartHolding(m: World, n: World, a: World, d: nat, lo: nat, hi: nat, f: nat)
    requires Grew(m, n, d, lo, hi) && HasUse(n.owner, f, Free)
    requires a.owner == n.owner[f := Held] && |a.mem| == |n.mem| && f < |n.mem| && a.mem == n.mem[f := a.mem[f]]
    ensures GrewHolding(m, a, d, lo, hi, f)
  {
  }

  lemma KeepHolding(m: World, n: World, q: World, d: nat, lo: nat, hi: nat, f: nat)
    requires GrewHolding(m, n, d, lo, hi, f) && Kept(n, q, d)
    ensures GrewHolding(m, q, d, lo, hi, f)
  {
  }

  /** The pages lo .. hi of d are taken back. */
  lemma GrewThenReturned(m: World, n: World, q: World, d: nat, lo: nat, hi: nat, hi': nat)
    requires Grew(m, n, d, lo, hi) && hi <= hi' && Returned(n.owner, q.owner, d, lo, hi') && SameData(n, q)
    requires forall f :: f in m.owner ==> !InSpan(m.owner[f], d, lo, hi')
    ensures Grew(m, q, d, lo, lo)
  {
  }

  lemma HoldingThenReturned(m: World, n: World, q: World, d: nat, lo: nat, hi: nat, hi': nat, f: nat)
    requires GrewHolding(m, n, d, lo, hi, f) && hi <= hi' && Returned(n.owner, q.owner, d, lo, hi') && SameData(n, q)
    requires forall g :: g in m.owner ==> !InSpan(m.owner[g], d, lo, hi')
    ensures GrewHolding(m, q, d, lo, lo, f)
  {
    GrewThenReturned(m, n.(owner := n.owner[f := Free]), q.(owner := q.owner[f := Free]), d, lo, hi, hi');
  }

  lemma StopHolding(m: World, n: World, q: World, d: nat, lo: nat, hi: nat, f: nat)
    requires GrewHolding(m, n, d, lo, hi, f)
    requires q.owner == n.owner[f := Free] && |q.mem| == |n.mem| && f < |n.mem| && q.mem == n.mem[f := q.mem[f]]
    ensures Grew(m, q, d, lo, hi)
  {
  }

  /** The held page becomes user page hi. */
  lemma HeldMapped(m: World, n: World, q: World, d: nat, lo: nat, hi: nat, f: nat)
    requires GrewHolding(m, n, d, lo, hi, f) && KeptBut(n, q, d, f) && HasUse(q.owner, f, User(d, hi)) && lo <= hi
    ensures Grew(m, q, d, lo, hi + 1)
  {
  }

  // ---------------------------------------------------------------- the pages themselves

  /** The flags and the bytes of a user page. */
  datatype Content = Content(flags: nat, page: Page)

  /** The pages from lo on have these contents. */
  ghost predicate Pages(mem: seq<Page>, d: nat, lo: nat, want: seq<Content>) {
    forall u: nat {:trigger Pte(mem, d, u)} :: lo <= u < lo + |want| ==> PageIs(mem, Pte(mem, d, u), want[u - lo])
  }

  predicate PageIs(mem: seq<Page>, pte: nat, c: Content) {
    Present(pte) && pte % PGSIZE == c.flags && Frame(pte) < |mem| && mem[Frame(pte)] == c.page
  }

  /** The translations under d outside lo .. hi are as before. */
  ghost predicate Outside(mem: seq<Page>, mem': seq<Page>, d: nat, lo: nat, hi: nat) {
    forall u: nat {:trigger Pte(mem', d, u)} {:trigger Pte(mem, d, u)} :: u < VPAGES && !(lo <= u < hi) ==>
      Pte(mem', d, u) == Pte(mem, d, u)
  }

  lemma NoPages(mem: seq<Page>, d: nat, lo: nat)
    ensures Pages(mem, d, lo, []) && Outside(mem, mem, d, lo, lo)
  {
    hide Pte;
  }

  /** One more page: a is n with page f filled and held, q is a with f mapped. */
  lemma PageAttached(mem: seq<Page>, n: World, a: World, q: World, d: nat, lo: nat, want: seq<Content>, f: nat,
          c: Content)
    requires Tree(n.mem, n.owner, d) && HasUse(n.owner, f, Free) && f < |n.mem| && lo + |want| < USERPAGES
    requires (forall g :: g in n.owner ==> g < |n.mem|)
    requires Pages(n.mem, d, lo, want) && Outside(mem, n.mem, d, lo, lo + |want|)
    requires a.owner == n.owner[f := Held] && a.mem == n.mem[f := c.page] && SamePtes(n.mem, a.mem, d)
    requires KeptBut(a, q, d, f) && RangeMapped(a.mem, q.mem, d, lo + |want|, 1, f, c.flags)
    requires c.flags < PGSIZE && Present(c.flags)
    ensures Pages(q.mem, d, lo, want + [c]) && Outside(mem, q.mem, d, lo, lo + |want| + 1)
  {
    hide Pte, Entry;
    EntryParts(f, c.flags);
    assert q.mem[f] == c.page;
    var k := lo + |want|;
    forall u: nat | lo <= u < k + 1 ensures PageIs(q.mem, Pte(q.mem, d, u), (want + [c])[u - lo]) {
      assert Pte(q.mem, d, u) == if k <= u < k + 1 then Entry(f + (u - k), c.flags) else Pte(a.mem, d, u);
      if u < k {
        assert Pte(a.mem, d, u) == Pte(n.mem, d, u);
        assert PageIs(n.mem, Pte(n.mem, d, u), want[u - lo]);
        var g := Frame(Pte(n.mem, d, u));
        assert HasUse(n.owner, g, User(d, u));
        assert q.mem[g] == a.mem[g] == n.mem[g];
      }
    }
    forall u: nat | u < VPAGES && !(lo <= u < k + 1) ensures Pte(q.mem, d, u) == Pte(mem, d, u) {
      assert Pte(q.mem, d, u) == Pte(a.mem, d, u);
      assert Pte(a.mem, d, u) == Pte(n.mem, d, u);
    }
  }

  lemma NotMappedOutside(mem: seq<Page>, n: seq<Page>, b: seq<Page>, q: seq<Page>, d: nat, lo: nat, hi: nat, f: nat,
          flags: nat)
    requires Outside(mem, n, d, lo, hi) && SamePtes(n, b, d) && RangeMapped(b, q, d, hi, 0, f, flags)
    ensures Outside(mem, q, d, lo, hi)
  {
    hide Pte;
    forall u: nat | u < VPAGES && !(lo <= u < hi) ensures Pte(q, d, u) == Pte(mem, d, u) {
      assert Pte(n, d, u) == Pte(mem, d, u);
      assert Pte(b, d, u) == Pte(n, d, u);
    }
  }

  lemma SameMapTwice(mem: seq<Page>, mid: seq<Page>, after: seq<Page>, d: nat)
    requires SameMap(mem, mid, d) && SamePtes(mid, after, d)
    ensures SameMap(mem, after, d)
  {
    hide Pte;
    forall u: nat | u < VPAGES
      ensures Present(Pte(mem, d, u)) <==> Present(Pte(after, d, u))
      ensures Present(Pte(mem, d, u)) ==> Pte(after, d, u) == Pte(mem, d, u)
    {
      assert Pte(after, d, u) == Pte(mid, d, u);
    }
  }

  lemma AllInMemory(owner: map<nat, Use>, first: nat, count: nat)
    requires Rooted(owner, first, count)
    ensures forall f :: f in owner ==> f < count
  {
  }

  /** Translation is the same, entries without the present bit aside. */
  ghost predicate SameMap(mem: seq<Page>, mem': seq<Page>, d: nat) {
    forall u: nat {:trigger Pte(mem', d, u)} {:trigger Pte(mem, d, u)} :: u < VPAGES ==>
      && (Present(Pte(mem, d, u)) <==> Present(Pte(mem', d, u)))
      && (Present(Pte(mem, d, u)) ==> Pte(mem', d, u) == Pte(mem, d, u))
  }

  /** Unmapping what was added restores the translation. */
  lemma MapRestored(mem: seq<Page>, mid: seq<Page>, after: seq<Page>, d: nat, lo: nat, k: nat, hi: nat)
    requires Unmapped(mem, d, lo, hi) && lo <= k <= hi <= VPAGES
    requires Outside(mem, mid, d, lo, k) && Cleared(mid, after, d, lo, hi)
    ensures SameMap(mem, after, d)
  {
    hide Pte;
    forall u: nat | u < VPAGES
      ensures Present(Pte(mem, d, u)) <==> Present(Pte(after, d, u))
      ensures Present(Pte(mem, d, u)) ==> Pte(after, d, u) == Pte(mem, d, u)
    {
      assert Pte(after, d, u) == if lo <= u < hi && Present(Pte(mid, d, u)) then 0 else Pte(mid, d, u);
      assert !(lo <= u < k) ==> Pte(mid, d, u) == Pte(mem, d, u);
      assert lo <= u < hi ==> !Present(Pte(mem, d, u));
    }
  }

  /** A page of an unmapped span belongs to no one. */
  lemma SpanFree(m: World, d: nat, lo: nat, hi: nat, first: nat)
    requires Good(m, first) && HasUse(m.owner, d, Dir) && Unmapped(m.mem, d, lo, hi) && hi <= USERPAGES
    ensures forall f :: f in m.owner ==> !InSpan(m.owner[f], d, lo, hi)
  {
    TreeOf(m, d, first);
    hide Pte, FreeListed, Rooted, Trees;
    forall f | f in m.owner ensures !InSpan(m.owner[f], d, lo, hi) {
      assert m.owner[f].User? && m.owner[f].d == d ==> Backed(m.mem, d, f, m.owner[f]);
    }
  }

  lemma SameSelf(m: World)
    ensures SameData(m, m) && forall e :: SamePtes(m.mem, m.mem, e)
  {
    hide Pte;
  }

  /** kalloc, memset and the new use of the page: m, then a, then n. */
  lemma DirectoryBorn(m: World, a: World, n: World, d: nat, first: nat)
    requires Good(m, first) && HasUse(m.owner, d, Free) && a.owner == m.owner[d := Held] && a.mem == m.mem
    requires n.owner == a.owner && d < |m.mem| && n.mem == a.mem[d := Filled(0)]
    ensures
      var q := n.(owner := n.owner[d := Dir]);
      OnlyUnder(m, q, d) && Grew(m, q, d, 0, 0)
    ensures forall f :: f in m.owner ==> !About(m.owner[f], f, d)
  {
    GoodParts(m, first);
    hide Good, Trees, FreeListed, Filled;
    forall f | f in m.owner ensures !About(m.owner[f], f, d) {
      assert m.owner[f].Table? ==> HasUse(m.owner, m.owner[f].d, Dir);
      assert m.owner[f].User? ==> HasUse(m.owner, m.owner[f].d, Dir);
    }
    hide Rooted;
  }

  /** What happens under d changes no translation of another directory. */
  lemma OthersTranslate(m: World, n: World, d: nat, first: nat)
    requires Good(m, first) && Good(n, first) && OnlyUnder(m, n, d) && HasUse(m.owner, d, Free)
    ensures forall e :: HasUse(m.owner, e, Dir) ==> SamePtes(m.mem, n.mem, e) && HasUse(n.owner, e, Dir)
  {
    hide OnlyUnder, SamePtes, Tree, FreeListed, Rooted;
    assert HasUse(n.owner, d, Dir) ==> Tree(n.mem, n.owner, d);
    GoodAfter(m, n, d, first);
  }

  // ---------------------------------------------------------------- copying an address space

  /** The pages below hi are all mapped. */
  ghost predicate AllMapped(mem: seq<Page>, d: nat, hi: nat) {
    forall u: nat {:trigger Pte(mem, d, u)} :: u < hi ==> Present(Pte(mem, d, u))
  }

  ghost function ContentOf(mem: seq<Page>, pte: nat): Content {
    Content(pte % PGSIZE, if Frame(pte) < |mem| then mem[Frame(pte)] else Filled(0))
  }

  ghost function ContentsOf(mem: seq<Page>, d: nat, n: nat): seq<Content> {
    seq(n, u requires 0 <= u < n => ContentOf(mem, Pte(mem, d, u)))
  }

  /** From page hi on there are the kernel's translations and no others. */
  ghost predicate KernelFrom(mem: seq<Page>, d: nat, kdata: nat, hi: nat) {
    forall u: nat {:trigger Pte(mem, d, u)} :: hi <= u < VPAGES ==> Pte(mem, d, u) == KernelPte(kdata, u)
  }

  lemma FirstPages(m: World, mem: seq<Page>, p: nat, d: nat)
    ensures ContentsOf(m.mem, p, 0) == [] && AllMapped(m.mem, p, 0)
    ensures Pages(mem, d, 0, []) && Outside(mem, mem, d, 0, 0)
  {
    hide Pte;
  }

  lemma MoreContents(mem: seq<Page>, p: nat, k: nat)
    ensures ContentsOf(mem, p, k) + [ContentOf(mem, Pte(mem, p, k))] == ContentsOf(mem, p, k + 1)
    ensures AllMapped(mem, p, k) && Present(Pte(mem, p, k)) ==> AllMapped(mem, p, k + 1)
  {
    hide Pte;
  }

  lemma NothingAbout(m: World, d: nat, first: nat)
    requires Good(m, first) && HasUse(m.owner, d, Free)
    ensures forall f :: f in m.owner ==> !About(m.owner[f], f, d)
  {
    GoodParts(m, first);
    hide Good, Trees, FreeListed;
    forall f | f in m.owner ensures !About(m.owner[f], f, d) {
      assert m.owner[f].Table? ==> HasUse(m.owner, m.owner[f].d, Dir);
      assert m.owner[f].User? ==> HasUse(m.owner, m.owner[f].d, Dir);
    }
  }

  /** The parent's translation stays while d grows. */
  lemma ParentSame(m: World, n: World, d: nat, p: nat, k: nat, first: nat)
    requires Good(m, first) && Good(n, first) && OnlyUnder(m, n, d)
    requires HasUse(m.owner, d, Free) && HasUse(m.owner, p, Dir) && k < USERPAGES
    ensures HasUse(n.owner, p, Dir) && Pte(n.mem, p, k) == Pte(m.mem, p, k)
  {
    hide OnlyUnder, SamePtes, Tree, FreeListed, Rooted, Pte, HasUse;
    OneUse(m.owner, d, p);
    TreeOf(m, p, first);
    GoodParts(m, first);
    OtherTree(m, n, d, p, first);
    SameOne(m.mem, n.mem, p, k);
  }

  lemma OneUse(owner: map<nat, Use>, d: nat, p: nat)
    requires HasUse(owner, d, Free) && HasUse(owner, p, Dir)
    ensures d != p
  {
  }

  /** So do its pages. */
  lemma ParentPage(m: World, n: World, d: nat, p: nat, k: nat, first: nat)
    requires Good(m, first) && OnlyUnder(m, n, d)
    requires HasUse(m.owner, d, Free) && HasUse(m.owner, p, Dir) && k < USERPAGES && Present(Pte(m.mem, p, k))
    requires Pte(n.mem, p, k) == Pte(m.mem, p, k)
    ensures
      var f := Frame(Pte(n.mem, p, k));
      f < |n.mem| && ContentOf(m.mem, Pte(m.mem, p, k)) == Content(Pte(n.mem, p, k) % PGSIZE, n.mem[f])
  {
    UserPage(m, p, k, first);
    hide Pte, Tree, Good;
  }

  lemma MissingPage(mem: seq<Page>, p: nat, k: nat, hi: nat, n: seq<Page>)
    requires Unmapped(n, p, k, k + 1) || Unmapped(n, p, k, (k / ENTRIES + 1) * ENTRIES)
    requires Pte(n, p, k) == Pte(mem, p, k) && k < hi <= VPAGES
    ensures !AllMapped(mem, p, hi) && !Present(Pte(mem, p, k))
  {
    hide Pte;
    assert k < (k / ENTRIES + 1) * ENTRIES;
    assert !Present(Pte(n, p, k));
  }

  lemma FlagsPresent(pte: nat)
    requires Present(pte)
    ensures Present(pte % PGSIZE) && pte % PGSIZE < PGSIZE && WithPresent(pte % PGSIZE) == pte % PGSIZE
  {
    assert pte == 2 * (2048 * (pte / PGSIZE)) + pte % PGSIZE;
    Halves(2048 * (pte / PGSIZE), pte % PGSIZE);
  }

  lemma PageUpTop(sz: nat)
    requires sz <= KERNBASE
    ensures PageUp(sz) <= USERPAGES
  {
  }

  lemma PageBelowTop(i: nat, sz: nat, k: nat)
    requires i == k * PGSIZE && i < sz <= KERNBASE
    ensures k < PageUp(sz) <= USERPAGES && i / PGSIZE == k && PagesOf(i, PGSIZE) == 1
  {
    assert i / PGSIZE == k;
    assert (i + PGSIZE - 1) / PGSIZE == k;
  }

  lemma TopReached(i: nat, sz: nat, k: nat)
    requires i == k * PGSIZE && i >= sz && k <= PageUp(sz)
    ensures k == PageUp(sz)
  {
  }

  /** Above the copied pages the child has the map that setupkvm made. */
  lemma KernelOnly(born: seq<Page>, mem: seq<Page>, d: nat, kdata: nat, hi: nat)
    requires KernelUpTo(born, d, kdata, VPAGES) && Outside(born, mem, d, 0, hi) && hi <= USERPAGES
    ensures KernelFrom(mem, d, kdata, hi)
  {
    hide Pte, KernelPte;
    forall u: nat | hi <= u < VPAGES ensures Pte(mem, d, u) == KernelPte(kdata, u) {
      assert Pte(mem, d, u) == Pte(born, d, u);
    }
  }
}
