/** kalloc.c and the page-table functions of vm.c. */
module VmCode {
  import opened VmModel
  import opened VmSteps
  import opened VmSpaces
  import opened VmBytes
  import opened VmMemory
  import opened VmAccess

  const JUNK: nat := 0x0101_0101

  /** How mappages ends: -1 is NoMemory, and Remap its panic. */
  datatype Mapping = Mapped | NoMemory | Remap

  class Vm {
    const first: nat                    // the frame of end, the first page after the kernel
    const kdata: nat                    // the frame of data, where the kernel's writable part begins
    var mem: seq<Page>                  // physical memory up to PHYSTOP
    var freelist: seq<nat>              // kmem.freelist
    ghost var owner: map<nat, Use>

    ghost function Now(): World
      reads this
    {
      World(mem, owner, freelist)
    }

    ghost predicate Valid()
      reads this
    {
      Good(Now(), first)
    }

    /** d is a page directory. */
    ghost predicate IsDir(d: nat)
      reads this
    {
      HasUse(owner, d, Dir)
    }

    // ------------------------------------------------------------ kalloc.c

    /** Memory at boot: the pages from end to PHYSTOP are handed to the allocator (kinit1 and kinit2 together). */
    constructor (end: nat, data: nat, image: seq<Page>)
      requires 0 < end <= |image|
      ensures Valid() && first == end && kdata == data && |mem| == |image|
      ensures forall f: nat :: end <= f < |image| ==> HasUse(owner, f, Free)
    {
      first, kdata, mem, freelist := end, data, image, [];
      owner := AllHeld(end, |image|);
      new;
      hide FreeListed, Returned;
      NothingFree(owner);
      var panic := Freerange(end * PGSIZE, |image| * PGSIZE);
      FrameBytes(end);
      FrameBytes(|image|);
      assert PageUp(end * PGSIZE) == end;
    }

    /** freerange, of pages that nobody uses yet */
    method Freerange(vstart: nat, vend: nat) returns (panic: bool)
      requires FreeListed(owner, freelist) && 0 < first <= PageUp(vstart) && vend / PGSIZE <= |mem|
      requires forall f: nat :: first <= f < |mem| ==> f in owner
      requires forall f: nat :: PageUp(vstart) <= f < vend / PGSIZE ==> HasUse(owner, f, Held)
      modifies this`mem, this`freelist, this`owner
      ensures !panic && FreeListed(owner, freelist) && |mem| == |old(mem)|
      ensures owner.Keys == old(owner).Keys
      ensures forall f :: f in old(owner) ==>
        owner[f] == if PageUp(vstart) <= f < vend / PGSIZE then Free else old(owner)[f]
    {
      hide FreeListed, Filled;
      panic := false;
      var p := (vstart + PGSIZE - 1) / PGSIZE * PGSIZE;
      ghost var k := PageUp(vstart);
      while p + PGSIZE <= vend
        invariant p == k * PGSIZE && PageUp(vstart) <= k && !panic
        invariant FreeListed(owner, freelist) && |mem| == |old(mem)|
        invariant owner.Keys == old(owner).Keys
        invariant forall f :: f in old(owner) ==>
          owner[f] == if PageUp(vstart) <= f < k && f < vend / PGSIZE then Free else old(owner)[f]
      {
        WholePage(k, vend);
        FrameBytes(k);
        assert HasUse(old(owner), k, Held);
        panic := Kfree(p / PGSIZE);
        p := p + PGSIZE;
        k := k + 1;
      }
      NoWholePage(k, vend);
    }

    method Kalloc() returns (ok: bool, f: nat)
      requires Valid()
      modifies this`freelist, this`owner
      ensures Valid()
      ensures ok <==> old(freelist) != []
      ensures !ok ==> Now() == old(Now())
      ensures ok ==>
        && f == old(freelist)[0] && freelist == old(freelist)[1..]
        && HasUse(old(owner), f, Free) && owner == old(owner)[f := Held] && 0 < f < |mem|
        && (forall e :: HasUse(old(owner), e, Dir) ==>
          OnlyUnder(old(Now()), Now(), e) && SamePtes(mem, mem, e) && IsDir(e))
    {
      hide Good, Trees, Rooted, FreeListed, OnlyUnder, SamePtes;
      GoodParts(Now(), first);
      if freelist == [] {
        return false, 0;
      }
      FreeTaken(owner, freelist);
      f := freelist[0];
      InMemory(owner, first, |mem|, f);
      freelist, owner := freelist[1..], owner[f := Held];
      LoosePage(old(Now()), Now(), f, first);
      ok := true;
    }

    /** kfree of a page in use; the answer is whether it panics, which no page of the allocator causes. */
    method Kfree(f: nat) returns (panic: bool)
      requires FreeListed(owner, freelist) && (f in owner ==> owner[f] != Free) && (first <= f < |mem| ==> f in owner)
      modifies this`mem, this`freelist, this`owner
      ensures panic <==> f < first || f >= |old(mem)|
      ensures panic ==> Now() == old(Now())
      ensures !panic ==>
        && mem == old(mem)[f := Filled(JUNK)] && freelist == [f] + old(freelist) && owner == old(owner)[f := Free]
        && FreeListed(owner, freelist)
    {
      hide FreeListed;
      if f < first || f >= |mem| {
        return true;
      }
      FreeGiven(owner, freelist, f);
      mem, freelist, owner := mem[f := Filled(JUNK)], [f] + freelist, owner[f := Free];
      panic := false;
    }

    /** memset of an allocated page */
    method Zero(f: nat)
      requires Valid() && HasUse(owner, f, Held)
      modifies this`mem
      ensures Valid() && f < |mem| && mem == old(mem)[f := Filled(0)]
      ensures forall e :: IsDir(e) ==> OnlyUnder(old(Now()), Now(), e) && SamePtes(old(mem), mem, e)
    {
      hide Good, Trees, Rooted, FreeListed, OnlyUnder, SamePtes;
      GoodParts(Now(), first);
      InMemory(owner, first, |mem|, f);
      mem := mem[f := Filled(0)];
      LoosePage(old(Now()), Now(), f, first);
    }

    // ------------------------------------------------------------ walkpgdir

    /**
     The table that holds the entry for virtual page v, made if alloc says so. No translation changes, and what may be
     done with page v is left to its entry.
     */
    method Walkpgdir(d: nat, v: nat, alloc: bool) returns (ok: bool, t: nat)
      requires Valid() && IsDir(d) && v < VPAGES
      modifies this`mem, this`freelist, this`owner
      ensures Valid() && IsDir(d)
      ensures OnlyUnder(old(Now()), Now(), d) && SamePtes(old(mem), mem, d) && Kept(old(Now()), Now(), d)
      ensures ok ==> d < |mem| && Present(mem[d][v / ENTRIES]) && t == Frame(mem[d][v / ENTRIES]) && t < |mem|
      ensures !ok ==> Now() == old(Now()) && d < |mem| && !Present(mem[d][v / ENTRIES]) && (alloc ==> freelist == [])
      ensures !alloc ==> Now() == old(Now())
      ensures ok ==> Spent(old(Now()), Now(), d, 0, {v / ENTRIES}) && t != d
      ensures !ok ==> v / ENTRIES !in Tables(mem, d)
      ensures ok ==> forall user, write ::
        Allows(mem, d, v, user, write) <==> EntryAllows(mem[t][v % ENTRIES], user, write)
    {
      hide Good, Trees, Rooted, FreeListed, OnlyUnder, SamePtes, Kept, Spent, Tables, Allows, EntryAllows;
      ghost var m := Now();
      KeptSelf(m, d);
      TreeOf(m, d, first);
      TableElsewhere(m, d, v, first);
      var pde := mem[d][v / ENTRIES];
      if Present(pde) {
        SpentTable(m, m, d, v / ENTRIES);
        TableDecides(m, d, v, first);
        return true, Frame(pde);
      }
      if !alloc {
        return false, 0;
      }
      ok, t := Kalloc();
      if !ok {
        return false, 0;
      }
      NotTheDirectory(m.owner, t, d);
      Zero(t);
      ghost var mid := Now();
      mem := mem[d := mem[d][v / ENTRIES := Entry(t, PTE_P + PTE_W + PTE_U)]];
      owner := owner[t := Table(d, v / ENTRIES)];
      AddedTable(m, mid, Now(), d, v / ENTRIES, t, first);
      SamePtesTwice(m.mem, mid.mem, mem, d);
      EntryParts(t, PTE_P + PTE_W + PTE_U);
      StoredTable(m.mem, mem, d, v / ENTRIES, Entry(t, PTE_P + PTE_W + PTE_U));
      SpentNewTable(m, Now(), d, v / ENTRIES);
      TableDecides(Now(), d, v, first);
    }

    // ------------------------------------------------------------ mappages

    /** One turn of the loop of mappages. A user page must be one that the caller holds. */
    method MapOne(d: nat, v: nat, f: nat, perm: nat) returns (r: Mapping)
      requires Valid() && IsDir(d) && v < VPAGES && perm < PGSIZE
      requires v < USERPAGES ==> HasUse(owner, f, Held)
      modifies this`mem, this`freelist, this`owner
      ensures Valid() && IsDir(d) && OnlyUnder(old(Now()), Now(), d)
      ensures r.Mapped? ==>
        && !Present(Pte(old(mem), d, v)) && OnePte(old(mem), mem, d, v, Entry(f, WithPresent(perm)))
        && (if v < USERPAGES then HasUse(owner, f, User(d, v))
          && KeptBut(old(Now()), Now(), d, f) else Kept(old(Now()), Now(), d))
      ensures !r.Mapped? ==> SamePtes(old(mem), mem, d) && Kept(old(Now()), Now(), d)
      ensures r.Remap? <==> Present(Pte(old(mem), d, v))
      ensures r.NoMemory? ==> freelist == [] && v / ENTRIES !in Tables(mem, d)
      ensures if r.NoMemory? then Now() == old(Now()) else Spent(old(Now()), Now(), d, 0, {v / ENTRIES})
    {
      hide Good, Trees, Rooted, FreeListed, OnlyUnder, SamePtes, Kept, KeptBut, Tree, OnePte, Entry, Spent, Tables,
        Allows, EntryAllows;
      ghost var m := Now();
      var ok, t := Walkpgdir(d, v, true);
      assert Pte(mem, d, v) == Pte(m.mem, d, v) by { SameOne(m.mem, mem, d, v); }
      if !ok {
        return NoMemory;
      }
      ghost var mid := Now();
      var pte := mem[t][v % ENTRIES];
      if Present(pte) {
        return Remap;
      }
      mem := mem[t := mem[t][v % ENTRIES := Entry(f, WithPresent(perm))]];
      if v < USERPAGES {
        StillHeld(m, mid, d, f);
        owner := owner[f := User(d, v)];
      }
      WithPresentFits(f, perm);
      EntryStored(mid, Now(), d, v, t, f, Entry(f, WithPresent(perm)), first);
      MapTwice(m, mid, Now(), d, v, f, Entry(f, WithPresent(perm)));
      SameTables(mid.mem, mem, d);
      SpentThenSame(m, mid, Now(), d, 0, {v / ENTRIES});
      r := Mapped;
    }

    /** mappages: the pages of va .. va + size go to the pages from pa on, or as many of them as done counts. */
    method Mappages(d: nat, va: nat, size: nat, start: nat, perm: nat) returns (r: Mapping, ghost done: nat)
      requires Valid() && IsDir(d) && perm < PGSIZE && start % PGSIZE == 0
      requires 0 < size && va + size <= UINT
      requires va / PGSIZE >= USERPAGES || (PagesOf(va, size) == 1 && HasUse(owner, start / PGSIZE, Held))
      modifies this`mem, this`freelist, this`owner
      ensures Valid() && IsDir(d) && OnlyUnder(old(Now()), Now(), d)
      ensures RangeMapped(old(mem), mem, d, va / PGSIZE, done, start / PGSIZE, WithPresent(perm))
      ensures done <= PagesOf(va, size) && (r.Mapped? <==> done == PagesOf(va, size))
      ensures r.NoMemory? ==> freelist == [] && (va / PGSIZE + done) / ENTRIES !in Tables(mem, d)
      ensures !r.Remap? ==> Spent(old(Now()), Now(), d, 0, Span(va / PGSIZE, done))
      ensures r.Remap? ==> Present(Pte(old(mem), d, va / PGSIZE + done))
      ensures Unmapped(old(mem), d, va / PGSIZE, va / PGSIZE + done)
      ensures va / PGSIZE >= USERPAGES || !r.Mapped? ==> Kept(old(Now()), Now(), d)
      ensures va / PGSIZE < USERPAGES && r.Mapped? ==>
        HasUse(owner, start / PGSIZE, User(d, va / PGSIZE)) && KeptBut(old(Now()), Now(), d, start / PGSIZE)
    {
      hide Good, Trees, Rooted, FreeListed, OnlyUnder, SamePtes, Kept, KeptBut, OnePte, Pte, RangeMapped, WithPresent,
        Spent, Tables, Span;
      ghost var m := Now();
      ghost var v0, f0, n := va / PGSIZE, start / PGSIZE, PagesOf(va, size);
      KeptSelf(m, d);
      NoneMapped(mem, d, v0, f0, WithPresent(perm));
      SpentNone(m, m, d);
      SpanNone(v0);
      PageRange(va, size);
      var a := va / PGSIZE * PGSIZE;
      var last := (va + size - 1) % UINT / PGSIZE * PGSIZE;
      var pa := start;
      done := 0;
      while true
        invariant done < n && a == (v0 + done) * PGSIZE && pa == (f0 + done) * PGSIZE
        invariant last == (v0 + n - 1) * PGSIZE && v0 + n <= VPAGES
        invariant Valid() && IsDir(d) && OnlyUnder(m, Now(), d)
        invariant RangeMapped(m.mem, mem, d, v0, done, f0, WithPresent(perm))
        invariant Unmapped(m.mem, d, v0, v0 + done)
        invariant Kept(m, Now(), d)
        invariant Spent(m, Now(), d, 0, Span(v0, done))
        invariant v0 < USERPAGES ==> n == 1 && HasUse(owner, f0, Held)
        decreases n - done
      {
        ghost var mid := Now();
        r := MapOne(d, a / PGSIZE, pa / PGSIZE, perm);
        OnlyUnderTwice(m, mid, Now(), d);
        RangeElsewhere(m.mem, mid.mem, d, v0, done, f0, WithPresent(perm));
        if r.NoMemory? {
          KeptTwice(m, mid, Now(), d);
          SameRange(m.mem, mid.mem, mem, d, v0, done, f0, WithPresent(perm));
          return;
        }
        if r.Remap? {
          KeptTwice(m, mid, Now(), d);
          SameRange(m.mem, mid.mem, mem, d, v0, done, f0, WithPresent(perm));
          return;
        }
        LongerRange(m.mem, mid.mem, mem, d, v0, done, f0, WithPresent(perm));
        SpentNext(m, mid, Now(), d, v0, done, 0, 0);
        done := done + 1;
        if a == last {
          if v0 >= USERPAGES {
            KeptTwice(m, mid, Now(), d);
          } else {
            KeptButTwice(m, mid, Now(), d, f0);
          }
          break;
        }
        KeptTwice(m, mid, Now(), d);
        a, pa := a + PGSIZE, pa + PGSIZE;
      }
    }

    /** mappages as allocuvm and copyuvm call it: user page k, at address a, goes to the page f that they hold. */
    method MapPage(d: nat, a: nat, ghost k: nat, f: nat, perm: nat) returns (r: Mapping)
      requires Valid() && IsDir(d) && perm < PGSIZE && a == k * PGSIZE && k < USERPAGES && HasUse(owner, f, Held)
      modifies this`mem, this`freelist, this`owner
      ensures Valid() && IsDir(d) && OnlyUnder(old(Now()), Now(), d)
      ensures RangeMapped(old(mem), mem, d, k, if r.Mapped? then 1 else 0, f, WithPresent(perm))
      ensures !r.Mapped? ==> Kept(old(Now()), Now(), d)
      ensures r.Mapped? ==> HasUse(owner, f, User(d, k)) && KeptBut(old(Now()), Now(), d, f)
      ensures r.Remap? ==> Present(Pte(old(mem), d, k))
      ensures r.NoMemory? ==> freelist == [] && k / ENTRIES !in Tables(mem, d)
      ensures !r.Remap? ==> Spent(old(Now()), Now(), d, 0, if r.Mapped? then {k / ENTRIES} else {})
    {
      hide Good, OnlyUnder, Pte, RangeMapped, Kept, KeptBut, HasUse, Unmapped, Spent, Tables, Span, WithPresent;
      FrameBytes(f);
      FrameBytes(k);
      OnePage(k);
      SpanOne(k);
      SpanNone(k);
      ghost var done;
      r, done := Mappages(d, a, PGSIZE, f * PGSIZE, perm);
    }

    // ------------------------------------------------------------ deallocuvm, freevm

    /** The turn of the loop of deallocuvm that finds page v mapped, with its entry in table t. */
    method FreeUser(d: nat, v: nat, t: nat) returns (panic: bool)
      requires Valid() && IsDir(d) && v < USERPAGES && Present(Pte(mem, d, v))
      requires d < |mem| && Present(mem[d][v / ENTRIES]) && Frame(mem[d][v / ENTRIES]) == t && t < |mem|
      modifies this`mem, this`freelist, this`owner
      ensures !panic
      ensures Valid() && IsDir(d) && OnlyUnder(old(Now()), Now(), d)
      ensures
        var f := Frame(Pte(old(mem), d, v));
        HasUse(old(owner), f, User(d, v)) && owner == old(owner)[f := Free]
      ensures OnePte(old(mem), mem, d, v, 0) && SameData(old(Now()), Now())
    {
      hide Good, Trees, Rooted, FreeListed, OnlyUnder, Tree, OnePte, SameData, Pte, Filled;
      ghost var m := Now();
      PteInTable(mem, d, v);
      var pa := Frame(mem[t][v % ENTRIES]);
      GoodParts(m, first);
      UserPage(m, d, v, first);
      TableNotUser(m, d, v, t, pa, first);
      panic := Kfree(pa);
      mem := mem[t := mem[t][v % ENTRIES := 0]];
      PageFreed(m, Now(), d, v, t, pa, Filled(JUNK), first);
    }

    /**
     deallocuvm: of the translations under d just those of the pages in PGROUNDUP(newsz) .. oldsz are gone, although
     missing tables are passed over in one jump, and just their pages are free. It never panics.
     */
    method Deallocuvm(d: nat, oldsz: nat, newsz: nat) returns (size: nat, panic: bool)
      requires Valid() && IsDir(d) && oldsz <= KERNBASE
      modifies this`mem, this`freelist, this`owner
      ensures !panic && size == if newsz < oldsz then newsz else oldsz
      ensures Valid() && IsDir(d) && OnlyUnder(old(Now()), Now(), d)
      ensures newsz >= oldsz ==> Now() == old(Now())
      ensures newsz < oldsz ==>
        && Cleared(old(mem), mem, d, PageUp(newsz), PageUp(oldsz))
        && Returned(old(owner), owner, d, PageUp(newsz), PageUp(oldsz))
        && SameData(old(Now()), Now())
    {
      hide Good, Trees, Rooted, FreeListed, OnlyUnder, Tree, OnePte, Cleared, Returned, SameData, Pte, Unmapped, Filled,
        Spent, Tables, SamePtes, Kept, PageUp, Foreign, Allows, EntryAllows;
      panic := false;
      ghost var m := Now();
      UnderSelf(m, d);
      if newsz >= oldsz {
        return oldsz, false;
      }
      ghost var lo, hi := PageUp(newsz), PageUp(oldsz);
      PageUps(newsz, oldsz);
      ClearedNone(m, d, lo);
      var a := (newsz + PGSIZE - 1) / PGSIZE * PGSIZE;
      ghost var k := lo;
      while a < oldsz
        invariant !panic
        invariant a % PGSIZE == 0 && lo <= k <= hi && k == Least(a / PGSIZE, hi)
        invariant Valid() && IsDir(d) && OnlyUnder(m, Now(), d)
        invariant Cleared(m.mem, mem, d, lo, k) && Returned(m.owner, owner, d, lo, k) && SameData(m, Now())
        decreases oldsz - a
      {
        ghost var mid := Now();
        PageBelow(a, oldsz);
        TreeOf(mid, d, first);
        var ok, t := Walkpgdir(d, a / PGSIZE, false);
        if !ok {
          a := (a / PGSIZE / ENTRIES + 1) * ENTRIES * PGSIZE - PGSIZE;
          NextDirectory(k, a);
          TableSkipped(m, mid, d, lo, k, hi);
          k := Least((k / ENTRIES + 1) * ENTRIES, hi);
        } else {
          PteInTable(mem, d, k);
          if Present(mem[t][a / PGSIZE % ENTRIES]) {
            OnlyUser(mid, d, k, Frame(Pte(mem, d, k)), first);
            panic := FreeUser(d, a / PGSIZE, t);
            ClearedOne(m, mid, Now(), d, lo, k, Frame(Pte(mid.mem, d, k)));
            OnlyUnderTwice(m, mid, Now(), d);
            SameDataTwice(m, mid, Now());
          } else {
            AbsentPage(mem, d, k);
            ClearedMore(m, mid, d, lo, k, k + 1);
          }
          k := k + 1;
        }
        a := a + PGSIZE;
      }
      PassedAll(a, oldsz);
      size := newsz;
    }

    /** freevm: the directory, its tables and its user pages are free, and nothing else has changed. */
    method Freevm(d: nat) returns (panic: bool)
      requires Valid() && IsDir(d)
      modifies this`mem, this`freelist, this`owner
      ensures !panic
      ensures Valid() && OnlyUnder(old(Now()), Now(), d) && SameData(old(Now()), Now())
      ensures Gone(old(owner), owner, d)
    {
      hide Good, Trees, Rooted, FreeListed, OnlyUnder, Tree, Cleared, Returned, SameData, Pte, Filled, TablesFreed,
        Gone, TableBefore;
      ghost var m := Now();
      TreeOf(m, d, first);
      var size;
      size, panic := Deallocuvm(d, KERNBASE, 0);
      ghost var mid := Now();
      assert PageUp(0) == 0 && PageUp(KERNBASE) == USERPAGES;
      GoodParts(mid, first);
      TreeOf(mid, d, first);
      TablesFreedNone(mid, d);
      for i := 0 to ENTRIES
        invariant !panic
        invariant TablesFreed(mid, Now(), d, i) && FreeListed(owner, freelist) && |mem| == |mid.mem|
      {
        TablesFreedNext(mid, Now(), d, i, Filled(JUNK), [Frame(mid.mem[d][i])] + freelist, first);
        if Present(mem[d][i]) {
          panic := Kfree(Frame(mem[d][i]));
        }
      }
      ghost var q := Now();
      DirStays(mid, q, d, first);
      panic := Kfree(d);
      DirectoryGone(m, mid, q, Now(), d, Filled(JUNK), first);
    }

    // ------------------------------------------------------------ setupkvm

    /**
     setupkvm: a new directory with the kernel's map, each page mapped once, and nothing else, exactly if 65 pages are
     free, one for the directory and one for each of 64 tables; otherwise no directory and every page used as before. It
     never panics: the ranges of kmap do not meet, though the last one wraps.
     */
    method Setupkvm() returns (ok: bool, d: nat, panic: bool)
      requires Valid() && GoodKernel(kdata)
      modifies this`mem, this`freelist, this`owner
      ensures Valid() && !panic
      ensures ok ==>
        && HasUse(old(owner), d, Free) && IsDir(d) && KernelUpTo(mem, d, kdata, VPAGES)
        && OnlyUnder(old(Now()), Now(), d) && Grew(old(Now()), Now(), d, 0, 0)
      ensures ok ==> OnlyKernel(mem, d, kdata)
      ensures ok <==> |old(freelist)| >= 65
      ensures ok ==> |freelist| == |old(freelist)| - 65 && Tables(mem, d) == KernelTables(kdata, 4)
      ensures !ok ==> owner == old(owner) && SameData(old(Now()), Now())
      ensures !ok ==> forall e :: HasUse(old(owner), e, Dir) ==> SamePtes(old(mem), mem, e)
    {
      hide Good, Trees, Rooted, FreeListed, OnlyUnder, Tree, Pte, SameData, SamePtes, Filled, Grew, Gone, KernelMap,
        KernelUpTo, RangeMapped, Kept, WithPresent, PagesOf, Unmapped, Spent, Tables, Span, KernelTables, LineSpan,
        OnlyKernel;
      ghost var m := Now();
      panic := false;
      SameSelf(m);
      ok, d := Kalloc();
      if !ok {
        return false, 0, false;
      }
      ghost var a := Now();
      Zero(d);
      NewDirectory(Now(), d, kdata, first);
      DirectoryBorn(m, a, Now(), d, first);
      owner := owner[d := Dir];
      NoTables(mem, d);
      KernelTablesStart(kdata);
      var lines := KernelMap(kdata);
      for k := 0 to 4
        invariant Valid() && IsDir(d) && OnlyUnder(m, Now(), d) && Grew(m, Now(), d, 0, 0) && !panic
        invariant KernelUpTo(mem, d, kdata, Stop(kdata, k))
        invariant Tables(mem, d) == KernelTables(kdata, k) && |m.free| == 1 + |freelist| + |Tables(mem, d)|
      {
        ghost var mid := Now();
        KmapRange(kdata, k);
        var r;
        ghost var done;
        r, done := Mappages(d, lines[k].virt, KmapSize(lines[k]), lines[k].start, lines[k].perm);
        OnlyUnderTwice(m, mid, Now(), d);
        GrewKept(m, mid, Now(), d, 0, 0);
        NoRemap(mid.mem, d, kdata, Stop(kdata, k));
        panic := r.Remap?;
        LineSpanOf(kdata, k);
        TablesPaid(mid, Now(), d, Span(lines[k].virt / PGSIZE, done));
        if r.NoMemory? {
          ghost var q := Now();
          KernelTooLittle(kdata, k, lines[k].virt / PGSIZE, PagesOf(lines[k].virt, KmapSize(lines[k])), Tables(mem, d),
            done);
          panic := Freevm(d);
          OnlyUnderTwice(m, q, Now(), d);
          GrewThenGone(m, q, Now(), d, 0, 0);
          OthersTranslate(m, Now(), d, first);
          return false, 0, panic;
        }
        KernelMore(mid.mem, mem, d, kdata, k);
        KernelTablesNext(kdata, k);
      }
      KernelTablesCount(kdata);
      SetupAccess(Now(), d, kdata, first);
    }

    // ------------------------------------------------------------ allocuvm

    /** One turn of the loop of allocuvm. got is false when kalloc fails; f is the page when only mappages does. */
    method AllocTurn(ghost m: World, d: nat, a: nat, ghost lo: nat, ghost want: seq<Content>) returns (got: bool,
            f: nat, r: Mapping)
      requires Valid() && IsDir(d) && a == (lo + |want|) * PGSIZE && lo + |want| < USERPAGES && PagesOf(a, PGSIZE) == 1
      requires Grew(m, Now(), d, lo, lo + |want|) && Outside(m.mem, mem, d, lo, lo + |want|) && Pages(mem, d, lo, want)
      modifies this`mem, this`freelist, this`owner
      ensures Valid() && IsDir(d) && OnlyUnder(old(Now()), Now(), d)
      ensures !got ==> Now() == old(Now()) && freelist == []
      ensures got && r.NoMemory? ==> |old(freelist)| == 1 && (lo + |want|) / ENTRIES !in Tables(old(mem), d)
      ensures r.Remap? ==> Present(Pte(old(mem), d, lo + |want|))
      ensures got && r.Mapped? ==> Spent(old(Now()), Now(), d, 1, {(lo + |want|) / ENTRIES})
      ensures got && r.Mapped? ==>
        && Grew(m, Now(), d, lo, lo + |want| + 1) && Outside(m.mem, mem, d, lo, lo + |want| + 1)
        && Pages(mem, d, lo, want + [Content(7, Filled(0))])
      ensures got && !r.Mapped? ==>
        GrewHolding(m, Now(), d, lo, lo + |want|, f) && Outside(m.mem, mem, d, lo, lo + |want|)
    {
      hide Good, Trees, Rooted, FreeListed, OnlyUnder, Tree, Pte, SameData, SamePtes, Filled, Grew, GrewHolding,
        RangeMapped, Kept, KeptBut,
        PagesOf, Unmapped, Pages, Outside, HasUse, Foreign, Spent, Tables, Span;
      ghost var n := Now();
      ghost var k := lo + |want|;
      UnderSelf(n, d);
      TreeOf(n, d, first);
      GoodParts(n, first);
      AllInMemory(n.owner, first, |mem|);
      got, f := Kalloc();
      r := NoMemory;
      if !got {
        return;
      }
      ghost var held := Now();
      NowHeld(n.owner, f);
      NotTheDirectory(n.owner, f, d);
      Zero(f);
      ghost var b := Now();
      SameTables(n.mem, mem, d);
      StartHolding(m, n, b, d, lo, k, f);
      OnlyUnderTwice(n, held, b, d);
      r := MapPage(d, a, k, f, PTE_W + PTE_U);
      OnlyUnderTwice(n, b, Now(), d);
      if !r.Mapped? {
        KeepHolding(m, b, Now(), d, lo, k, f);
        NotMappedOutside(m.mem, n.mem, b.mem, mem, d, lo, k, f, 7);
        if r.NoMemory? {
          PageUnpaid(n, b, Now(), d);
        }
        SameOne(n.mem, b.mem, d, k);
        return;
      }
      HeldMapped(m, b, Now(), d, lo, k, f);
      PagePaid(n, b, Now(), d, k);
      PageAttached(m.mem, n, b, Now(), d, lo, want, f, Content(7, Filled(0)));
    }

    /** kfree of a held page. */
    method ReturnHeld(ghost m: World, ghost d: nat, ghost lo: nat, ghost hi: nat, f: nat)
      requires Valid() && IsDir(d) && GrewHolding(m, Now(), d, lo, hi, f)
      modifies this`mem, this`freelist, this`owner
      ensures Valid() && IsDir(d) && OnlyUnder(old(Now()), Now(), d) && SamePtes(old(mem), mem, d)
      ensures Grew(m, Now(), d, lo, hi)
    {
      hide Good, Trees, Rooted, FreeListed, OnlyUnder, Tree, Pte, SamePtes, Filled, Grew;
      ghost var n := Now();
      GoodParts(n, first);
      InMemory(owner, first, |mem|, f);
      var panic := Kfree(f);
      LoosePage(n, Now(), f, first);
      StopHolding(m, n, Now(), d, lo, hi, f);
    }

    /** allocuvm gives up after the pages lo .. k: deallocuvm takes them back. */
    method GiveUp(ghost m: World, d: nat, newsz: nat, oldsz: nat, ghost k: nat)
      requires Valid() && IsDir(d) && oldsz < newsz < KERNBASE && PageUp(oldsz) <= k <= PageUp(newsz)
      requires Unmapped(m.mem, d, PageUp(oldsz), PageUp(newsz)) && Outside(m.mem, mem, d, PageUp(oldsz), k)
      requires Grew(m, Now(), d, PageUp(oldsz), k)
      requires forall f :: f in m.owner ==> !InSpan(m.owner[f], d, PageUp(oldsz), PageUp(newsz))
      modifies this`mem, this`freelist, this`owner
      ensures Valid() && IsDir(d) && OnlyUnder(old(Now()), Now(), d)
      ensures Grew(m, Now(), d, PageUp(oldsz), PageUp(oldsz)) && SameMap(m.mem, mem, d)
    {
      hide Good, Trees, Rooted, FreeListed, OnlyUnder, Tree, Pte, SameData, Grew, GrewHolding, Returned, Cleared,
        Unmapped, Outside, SameMap, InSpan;
      ghost var q := Now();
      PageUps(oldsz, newsz);
      var size, panic := Deallocuvm(d, newsz, oldsz);
      GrewThenReturned(m, q, Now(), d, PageUp(oldsz), k, PageUp(newsz));
      MapRestored(m.mem, q.mem, mem, d, PageUp(oldsz), k, PageUp(newsz));
    }

    /** The same when a page is held that could not be mapped, and is freed afterwards. */
    method GiveUpHolding(ghost m: World, d: nat, newsz: nat, oldsz: nat, ghost k: nat, f: nat)
      requires Valid() && IsDir(d) && oldsz < newsz < KERNBASE && PageUp(oldsz) <= k <= PageUp(newsz)
      requires Unmapped(m.mem, d, PageUp(oldsz), PageUp(newsz)) && Outside(m.mem, mem, d, PageUp(oldsz), k)
      requires GrewHolding(m, Now(), d, PageUp(oldsz), k, f)
      requires forall f :: f in m.owner ==> !InSpan(m.owner[f], d, PageUp(oldsz), PageUp(newsz))
      modifies this`mem, this`freelist, this`owner
      ensures Valid() && IsDir(d) && OnlyUnder(old(Now()), Now(), d)
      ensures Grew(m, Now(), d, PageUp(oldsz), PageUp(oldsz)) && SameMap(m.mem, mem, d)
    {
      hide Good, Trees, Rooted, FreeListed, OnlyUnder, Tree, Pte, SameData, SamePtes, Grew, GrewHolding, Returned,
        Cleared, Unmapped, Outside, SameMap, InSpan;
      ghost var q := Now();
      ghost var lo, hi := PageUp(oldsz), PageUp(newsz);
      PageUps(oldsz, newsz);
      var size, panic := Deallocuvm(d, newsz, oldsz);
      ghost var c := Now();
      HoldingThenReturned(m, q, c, d, lo, k, hi, f);
      MapRestored(m.mem, q.mem, mem, d, lo, k, hi);
      ReturnHeld(m, d, lo, lo, f);
      OnlyUnderTwice(q, c, Now(), d);
      SameMapTwice(m.mem, c.mem, mem, d);
    }

    /**
     allocuvm from oldsz to newsz, when none of the new pages is mapped. Either all of them are mapped, each to a
     zeroed page that was free, writable by the user, or the answer is 0 and the translation is as before: what it
     keeps of the free pages are tables of d. It succeeds exactly if the free pages are enough for the new pages and the
     tables that they lack. ok tells the two apart when newsz is 0.
     */
    method Allocuvm(d: nat, oldsz: nat, newsz: nat) returns (size: nat, ok: bool)
      requires Valid() && IsDir(d)
      requires oldsz <= newsz < KERNBASE ==> Unmapped(mem, d, PageUp(oldsz), PageUp(newsz))
      modifies this`mem, this`freelist, this`owner
      ensures Valid() && IsDir(d) && OnlyUnder(old(Now()), Now(), d)
      ensures newsz >= KERNBASE ==> !ok && size == 0 && Now() == old(Now())
      ensures newsz < oldsz && newsz < KERNBASE ==> ok && size == oldsz && Now() == old(Now())
      ensures oldsz <= newsz < KERNBASE ==>
        && PageUp(oldsz) <= PageUp(newsz)
        && (ok <==> |old(freelist)| >= Cost(old(mem), d, PageUp(oldsz), PageUp(newsz) - PageUp(oldsz)))
        && (ok ==> |freelist| == |old(freelist)| - Cost(old(mem), d, PageUp(oldsz), PageUp(newsz) - PageUp(oldsz)))
      ensures oldsz <= newsz < KERNBASE && ok ==>
        && size == newsz
        && Pages(mem, d, PageUp(oldsz), seq(PageUp(newsz) - PageUp(oldsz), _ => Content(7, Filled(0))))
        && Outside(old(mem), mem, d, PageUp(oldsz), PageUp(newsz))
        && Grew(old(Now()), Now(), d, PageUp(oldsz), PageUp(newsz))
        && (forall v: nat :: PageUp(oldsz) <= v < PageUp(newsz) ==> Allows(mem, d, v, true, true))
      ensures oldsz <= newsz < KERNBASE && !ok ==>
        && size == 0
        && SameMap(old(mem), mem, d)
        && Grew(old(Now()), Now(), d, PageUp(oldsz), PageUp(oldsz))
    {
      hide Good, Trees, Rooted, FreeListed, OnlyUnder, Tree, Pte, SameData, SamePtes, Filled, Grew, GrewHolding,
        Returned, Cleared,
        RangeMapped, Kept, KeptBut, PagesOf, Unmapped, Pages, Outside, SameMap, Spent, Tables, Span, Cost,
        PageUp, Foreign, InSpan, Allows;
      ghost var m := Now();
      UnderSelf(m, d);
      if newsz >= KERNBASE {
        return 0, false;
      }
      if newsz < oldsz {
        return oldsz, true;
      }
      ghost var lo, hi := PageUp(oldsz), PageUp(newsz);
      PageUpsUp(oldsz, newsz);
      SpanFree(m, d, lo, hi, first);
      NoPages(mem, d, lo);
      GrewSelf(m, d, lo);
      SpentNone(m, m, d);
      SpanNone(lo);
      ghost var want: seq<Content> := [];
      var a := (oldsz + PGSIZE - 1) / PGSIZE * PGSIZE;
      while a < newsz
        invariant a == (lo + |want|) * PGSIZE && lo + |want| <= hi
        invariant Valid() && IsDir(d) && OnlyUnder(m, Now(), d)
        invariant Grew(m, Now(), d, lo, lo + |want|) && Outside(m.mem, mem, d, lo, lo + |want|)
        invariant Pages(mem, d, lo, want) && want == seq(|want|, _ => Content(7, Filled(0)))
        invariant Spent(m, Now(), d, |want|, Span(lo, |want|))
      {
        ghost var n := Now();
        ghost var k := lo + |want|;
        PageBelowUp(a, newsz, k);
        var got, f, r := AllocTurn(m, d, a, lo, want);
        OnlyUnderTwice(m, n, Now(), d);
        StillUnmapped(m.mem, n.mem, d, lo, k, hi);
        if !got {
          TooLittle(m, n, d, lo, |want|, hi - lo);
          GiveUp(m, d, newsz, oldsz, k);
          OnlyUnderTwice(m, n, Now(), d);
          return 0, false;
        }
        if !r.Mapped? {
          TooLittle(m, n, d, lo, |want|, hi - lo);
          ghost var q := Now();
          GiveUpHolding(m, d, newsz, oldsz, k, f);
          OnlyUnderTwice(m, q, Now(), d);
          return 0, false;
        }
        SpentNext(m, n, Now(), d, lo, |want|, |want|, 1);
        want := want + [Content(7, Filled(0))];
        a := a + PGSIZE;
      }
      TopReached(a, newsz, lo + |want|);
      Enough(m, Now(), d, lo, hi - lo);
      AllocAccess(Now(), d, lo, hi - lo, first);
      return newsz, true;
    }

    // ------------------------------------------------------------ copyuvm

    /** memmove of one page to a held one */
    method CopyPage(f: nat, from: nat)
      requires Valid() && HasUse(owner, f, Held) && from < |mem|
      modifies this`mem
      ensures Valid() && f < |mem| && mem == old(mem)[f := old(mem)[from]]
      ensures forall e :: IsDir(e) ==> OnlyUnder(old(Now()), Now(), e) && SamePtes(old(mem), mem, e)
    {
      hide Good, Trees, Rooted, FreeListed, OnlyUnder, SamePtes;
      GoodParts(Now(), first);
      InMemory(owner, first, |mem|, f);
      mem := mem[f := mem[from]];
      LoosePage(old(Now()), Now(), f, first);
    }

    /** The part of a turn of the loop of copyuvm that copies page from, the k-th, to a new page of d. */
    method CopyTurn(ghost m: World, ghost was: seq<Page>, d: nat, i: nat, from: nat, flags: nat,
            ghost want: seq<Content>) returns (r: bool)
      requires Valid() && IsDir(d) && i == |want| * PGSIZE && |want| < USERPAGES && PagesOf(i, PGSIZE) == 1
      requires from < |mem| && flags < PGSIZE && Present(flags)
      requires Grew(m, Now(), d, 0, |want|) && Outside(was, mem, d, 0, |want|) && Pages(mem, d, 0, want)
      modifies this`mem, this`freelist, this`owner
      ensures Valid() && IsDir(d) && OnlyUnder(old(Now()), Now(), d)
      ensures r ==>
        && Grew(m, Now(), d, 0, |want| + 1) && Outside(was, mem, d, 0, |want| + 1)
        && Pages(mem, d, 0, want + [Content(flags, old(mem)[from])])
      ensures !r ==> Grew(m, Now(), d, 0, |want|)
      ensures !r ==>
        || old(freelist) == []
        || (|old(freelist)| == 1 && |want| / ENTRIES !in Tables(old(mem), d))
        || Present(Pte(old(mem), d, |want|))
      ensures r ==> Spent(old(Now()), Now(), d, 1, {|want| / ENTRIES})
    {
      hide Good, Trees, Rooted, FreeListed, OnlyUnder, Tree, Pte, SameData, SamePtes, Filled, Grew, GrewHolding,
        RangeMapped, Kept, KeptBut,
        PagesOf, Unmapped, Pages, Outside, HasUse, Foreign, Spent, Tables, Span;
      ghost var n := Now();
      ghost var k := |want|;
      UnderSelf(n, d);
      TreeOf(n, d, first);
      GoodParts(n, first);
      AllInMemory(n.owner, first, |mem|);
      var got, f := Kalloc();
      if !got {
        return false;
      }
      ghost var held := Now();
      NowHeld(n.owner, f);
      NotTheDirectory(n.owner, f, d);
      CopyPage(f, from);
      ghost var b := Now();
      SameTables(n.mem, mem, d);
      StartHolding(m, n, b, d, 0, k, f);
      OnlyUnderTwice(n, held, b, d);
      var how := MapPage(d, i, k, f, flags);
      ghost var q := Now();
      OnlyUnderTwice(n, b, q, d);
      if !how.Mapped? {
        KeepHolding(m, b, q, d, 0, k, f);
        if how.NoMemory? {
          PageUnpaid(n, b, q, d);
        }
        SameOne(n.mem, b.mem, d, k);
        ReturnHeld(m, d, 0, k, f);
        OnlyUnderTwice(n, q, Now(), d);
        return false;
      }
      HeldMapped(m, b, q, d, 0, k, f);
      PagePaid(n, b, q, d, k);
      PageAttached(was, n, b, q, d, 0, want, f, Content(flags, n.mem[from]));
      r := true;
    }

    /**
     copyuvm: if the pages below sz are all mapped, the child's directory d gives the same flags and bytes for them, on
     pages that were free before, and above them only the kernel's map. If memory runs out, every page is used as
     before. The parent's translation and pages stay as they are. How it ends is decided by the free pages and by the
     first page below sz that is missing, if one is: it succeeds exactly if none is and memory is enough for all pages,
     and panics exactly if one is and memory is enough for those before it.
     */
    method Copyuvm(p: nat, sz: nat) returns (ok: bool, d: nat, panic: bool)
      requires Valid() && IsDir(p) && sz <= KERNBASE && GoodKernel(kdata)
      modifies this`mem, this`freelist, this`owner
      ensures Valid() && IsDir(p) && SamePtes(old(mem), mem, p)
      ensures panic ==> !AllMapped(old(mem), p, PageUp(sz))
      ensures AllMapped(old(mem), p, PageUp(sz)) ==> (ok <==> |old(freelist)| >= ForkCost(PageUp(sz)))
      ensures forall c: nat {:trigger Pte(old(mem), p, c)} ::
        c < PageUp(sz) && AllMapped(old(mem), p, c) && !Present(Pte(old(mem), p, c)) ==>
          (panic <==> |old(freelist)| >= ForkCost(c))
      ensures ok ==> |freelist| == |old(freelist)| - ForkCost(PageUp(sz))
      ensures ok ==>
        && !panic && AllMapped(old(mem), p, PageUp(sz))
        && HasUse(old(owner), d, Free) && IsDir(d)
        && Pages(mem, d, 0, ContentsOf(old(mem), p, PageUp(sz)))
        && KernelFrom(mem, d, kdata, PageUp(sz))
        && OnlyUnder(old(Now()), Now(), d) && Grew(old(Now()), Now(), d, 0, PageUp(sz))
      ensures ok ==> AccessOfKernel(mem, d, kdata) && SameAccess(old(mem), p, mem, d, PageUp(sz))
      ensures !ok && !panic ==> owner == old(owner) && SameData(old(Now()), Now())
    {
      hide Good, Trees, Rooted, FreeListed, OnlyUnder, Tree, Pte, SameData, SamePtes, Grew, Gone, Pages, Outside,
        KernelUpTo, KernelFrom,
        AllMapped, ContentsOf, PagesOf, Kept, Foreign, Spent, Tables, Span, KernelTables, ForkCost,
        Allows, EntryAllows, AccessOfKernel, SameAccess;
      ghost var m := Now();
      ghost var hi := PageUp(sz);
      PageUpTop(sz);
      ForkFirst(m.mem, p);
      ok, d, panic := Setupkvm();
      if !ok {
        ForkFails(m.mem, p, |m.free|, 0, hi);
        return false, 0, false;
      }
      ghost var setup, born := Now(), mem;
      SpentNone(setup, setup, d);
      SpanNone(0);
      NothingAbout(m, d, first);
      FirstPages(m, born, p, d);
      ghost var want: seq<Content> := [];
      var i := 0;
      while i < sz
        invariant i == |want| * PGSIZE && |want| <= hi
        invariant Valid() && IsDir(d) && OnlyUnder(m, Now(), d)
        invariant Grew(m, Now(), d, 0, |want|) && Outside(born, mem, d, 0, |want|)
        invariant Pages(mem, d, 0, want) && want == ContentsOf(m.mem, p, |want|) && AllMapped(m.mem, p, |want|)
        invariant Spent(setup, Now(), d, |want|, Span(0, |want|))
      {
        ghost var n := Now();
        ghost var k := |want|;
        PageBelowTop(i, sz, k);
        ParentSame(m, n, d, p, k, first);
        TreeOf(n, p, first);
        var found, t := Walkpgdir(p, i / PGSIZE, false);
        if !found {
          AbsentTable(n.mem, p, k);
          MissingPage(m.mem, p, k, hi, n.mem);
          ForkPaid(setup, n, d, kdata, k);
          ForkPanics(m.mem, p, |m.free|, k, hi);
          OthersTranslate(m, n, d, first);
          return false, 0, true;
        }
        PteInTable(mem, p, k);
        var pte := mem[t][i / PGSIZE % ENTRIES];
        if !Present(pte) {
          AbsentPage(n.mem, p, k);
          MissingPage(m.mem, p, k, hi, n.mem);
          ForkPaid(setup, n, d, kdata, k);
          ForkPanics(m.mem, p, |m.free|, k, hi);
          OthersTranslate(m, n, d, first);
          return false, 0, true;
        }
        var pa, flags := Frame(pte), pte % PGSIZE;
        FlagsPresent(pte);
        ParentPage(m, n, d, p, k, first);
        MoreContents(m.mem, p, k);
        var r := CopyTurn(m, born, d, i, pa, flags, want);
        OnlyUnderTwice(m, n, Now(), d);
        if !r {
          NotThere(born, n.mem, d, kdata, k);
          ForkTooLittle(setup, n, d, kdata, k);
          ForkFails(m.mem, p, |m.free|, k + 1, hi);
          ghost var q := Now();
          panic := Freevm(d);
          OnlyUnderTwice(m, q, Now(), d);
          GrewThenGone(m, q, Now(), d, 0, k);
          OthersTranslate(m, Now(), d, first);
          return false, 0, panic;
        }
        SpentNext(setup, n, Now(), d, 0, k, k, 1);
        want := want + [Content(flags, n.mem[pa])];
        i := i + PGSIZE;
      }
      TopReached(i, sz, |want|);
      ForkPaid(setup, Now(), d, kdata, hi);
      ForkDone(m.mem, p, hi);
      KernelOnly(born, mem, d, kdata, hi);
      OthersTranslate(m, Now(), d, first);
      CopyAccess(m, Now(), p, d, kdata, hi, first);
    }

    // ------------------------------------------------------------ copyout

    /** uva2ka: the page behind a user address; there must be a table for it. */
    method Uva2ka(d: nat, v: nat) returns (found: bool, f: nat)
      requires Valid() && IsDir(d) && HasTable(mem, d, v)
      modifies this`mem, this`freelist, this`owner
      ensures Now() == old(Now())
      ensures found <==> UserPageAt(mem, d, v)
      ensures found ==> f == Frame(Pte(mem, d, v))
    {
      hide Good, Tree, OnlyUnder, SamePtes, Kept, Spent, Tables, Allows, EntryAllows;
      TreeOf(Now(), d, first);
      PteInTable(mem, d, v);
      var ok, t := Walkpgdir(d, v, false);
      var pte := mem[t][v % ENTRIES];
      if !Present(pte) {
        return false, 0;
      }
      if !UserBit(pte) {
        return false, 0;
      }
      return true, Frame(pte);
    }

    /**
     copyout of src to user address va. It succeeds exactly when all pages touched are the user's; then src is there
     and no other byte of the address space differs. If not, what lies before the first page that is not has been
     copied. No translation changes. There must be tables for the pages up to the first that is not the user's.
     */
    method Copyout(d: nat, va: nat, src: seq<Byte>) returns (ok: bool, ghost done: nat)
      requires Valid() && IsDir(d) && va < UINT && KernelFrom(mem, d, kdata, USERPAGES)
      requires forall k: nat {:trigger UserRange(mem, d, va, k)} ::
                 k < |src| && UserRange(mem, d, va, k) ==> HasTable(mem, d, (va + k) / PGSIZE)
      modifies this`mem, this`freelist, this`owner
      ensures Valid() && IsDir(d) && OnlyUnder(old(Now()), Now(), d) && SamePtes(old(mem), mem, d)
      ensures owner == old(owner) && freelist == old(freelist)
      ensures ok <==> UserRange(old(mem), d, va, |src|)
      ensures done <= |src| && (ok ==> done == |src|) && Stored(old(mem), mem, d, va, src[..done])
      ensures !ok ==> UserRange(old(mem), d, va, done) && !UserPageAt(old(mem), d, (va + done) / PGSIZE)
    {
      hide Good, Tree, OnlyUnder, SamePtes, KernelFrom, Stored, UserPageAt, Pte, WithBytes, Filled, Spent, Tables,
        Foreign, Kept;
      ghost var m := Now();
      var at, buf, len := va, 0, |src|;
      done := 0;
      UnderSelf(m, d);
      TreeOf(m, d, first);
      StoredNothing(mem, d, va);
      NoRange(mem, d, va);
      assert src[..0] == [];
      while len > 0
        invariant done == buf <= |src| && buf + len == |src| && at < UINT && (len > 0 ==> at == va + done)
        invariant Valid() && IsDir(d) && OnlyUnder(m, Now(), d) && SamePtes(m.mem, mem, d)
        invariant owner == m.owner && freelist == m.free && |mem| == |m.mem|
        invariant d < |mem| && mem[d] == m.mem[d]
        invariant Stored(m.mem, mem, d, va, src[..done])
        invariant UserRange(m.mem, d, va, done)
      {
        ghost var n := Now();
        var va0 := at / PGSIZE;
        assert va0 < VPAGES;
        Chunk(va, done, |src|, Least(PGSIZE - at % PGSIZE, len));
        assert HasTable(m.mem, d, va0) && HasTable(mem, d, va0);
        var found, pa0 := Uva2ka(d, va0);
        SamePages(m.mem, n.mem, d);
        if !found {
          NotUserRange(m.mem, d, va, |src|, va0);
          return false, done;
        }
        KernelStays(m.mem, n.mem, d, kdata);
        InUserHalf(n.mem, d, kdata, va0);
        UserPage(n, d, va0, first);
        var k := PGSIZE - (at - va0 * PGSIZE);
        if k > len {
          k := len;
        }
        mem := mem[pa0 := WithBytes(mem[pa0], at - va0 * PGSIZE, src[buf..buf + k])];
        UserWritten(n, Now(), d, va0, pa0, first);
        ChunkStored(n, Now(), d, at, src[buf..buf + k], first);
        StoredTwice(m.mem, n.mem, mem, d, va, src[..done], src[buf..buf + k]);
        assert src[..done] + src[buf..buf + k] == src[..done + k];
        SamePtesTwice(m.mem, n.mem, mem, d);
        OnlyUnderTwice(m, n, Now(), d);
        LongerUser(m.mem, d, va, done, k);
        len, buf, done := len - k, buf + k, done + k;
        at := va0 * PGSIZE + PGSIZE;
      }
      assert src[..done] == src;
      ok := true;
    }
  }
}
