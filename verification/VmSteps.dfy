/** What single steps of the page-table code keep and change, as lemmas about worlds. */
module VmSteps {
  import opened VmModel

  /** perm | PTE_P */
  function WithPresent(perm: nat): nat {
    if Present(perm) then perm else perm + 1
  }

  lemma WithPresentFits(f: nat, perm: nat)
    requires perm < PGSIZE
    ensures WithPresent(perm) < PGSIZE && Present(WithPresent(perm))
    ensures Present(Entry(f, WithPresent(perm))) && Frame(Entry(f, WithPresent(perm))) == f
  {
    EntryParts(f, WithPresent(perm));
  }

  /** Pages in use keep their use, and held and user pages their bytes; free pages may become tables of d. */
  ghost predicate Kept(m: World, n: World, d: nat) {
    && |n.mem| == |m.mem|
    && n.owner.Keys == m.owner.Keys
    && (forall f :: f in m.owner && m.owner[f] != Free ==> n.owner[f] == m.owner[f])
    && (forall f :: f in m.owner && m.owner[f] == Free ==>
      n.owner[f] == Free || (n.owner[f].Table? && n.owner[f].d == d))
    && (forall f :: f in m.owner && f < |m.mem| && (m.owner[f] == Held || m.owner[f].User?) ==> n.mem[f] == m.mem[f])
  }

  lemma KeptSelf(m: World, d: nat)
    ensures Kept(m, m, d) && OnlyUnder(m, m, d) && SamePtes(m.mem, m.mem, d)
  {
  }

  lemma GoodParts(w: World, first: nat)
    requires Good(w, first)
    ensures FreeListed(w.owner, w.free) && Rooted(w.owner, first, |w.mem|)
  {
  }

  lemma InMemory(owner: map<nat, Use>, first: nat, count: nat, f: nat)
    requires Rooted(owner, first, count) && f in owner
    ensures 0 < first <= f < count
  {
  }

  lemma TreeOf(w: World, d: nat, first: nat)
    requires Good(w, first) && HasUse(w.owner, d, Dir)
    ensures Tree(w.mem, w.owner, d) && d < |w.mem|
    ensures forall i: nat :: i < ENTRIES && Present(w.mem[d][i]) ==>
      HasUse(w.owner, Frame(w.mem[d][i]), Table(d, i)) && Frame(w.mem[d][i]) < |w.mem|
  {
    hide Pte, FreeListed;
    assert Tree(w.mem, w.owner, d);
  }

  /** What walkpgdir has done when it has made a table: mid is after kalloc and memset, n after the entry is stored. */
  lemma AddedTable(m: World, mid: World, n: World, d: nat, i: nat, t: nat, first: nat)
    requires Good(m, first) && Good(mid, first) && HasUse(m.owner, d, Dir) && HasUse(mid.owner, d, Dir) && i < ENTRIES
    requires HasUse(m.owner, t, Free) && mid.owner == m.owner[t := Held] && t < |m.mem|
    requires mid.mem == m.mem[t := Filled(0)] && d < |m.mem| && !Present(m.mem[d][i])
    requires n == mid.(mem := mid.mem[d := mid.mem[d][i := Entry(t, PTE_P + PTE_W + PTE_U)]],
      owner := mid.owner[t := Table(d, i)])
    ensures Good(n, first) && HasUse(n.owner, d, Dir)
    ensures OnlyUnder(m, n, d) && SamePtes(mid.mem, n.mem, d) && Kept(m, n, d)
    ensures Present(n.mem[d][i]) && Frame(n.mem[d][i]) == t && t < |n.mem|
  {
    hide OnlyUnder, Kept, Tree, Rooted, FreeListed, SamePtes, Trees;
    GoodParts(m, first);
    GoodParts(mid, first);
    InMemory(m.owner, first, |m.mem|, t);
    EntryParts(t, PTE_P + PTE_W + PTE_U);
    TreeOf(mid, d, first);
    HeldToTable(mid.owner, mid.free, t, Table(d, i));
    RootedMore(mid.owner, first, |mid.mem|, t, Table(d, i));
    TableAdded(mid.mem, mid.owner, d, i, t);
    AddedUnder(m, mid, n, d, i, t);
    GoodAfter(mid, n, d, first);
  }

  lemma AddedUnder(m: World, mid: World, n: World, d: nat, i: nat, t: nat)
    requires HasUse(m.owner, d, Dir) && i < ENTRIES && HasUse(m.owner, t, Free) && t < |m.mem| && d < |m.mem|
    requires mid.owner == m.owner[t := Held] && mid.mem == m.mem[t := Filled(0)]
    requires n == mid.(mem := mid.mem[d := mid.mem[d][i := Entry(t, PTE_P + PTE_W + PTE_U)]],
      owner := mid.owner[t := Table(d, i)])
    ensures OnlyUnder(mid, n, d) && OnlyUnder(m, n, d) && Kept(m, n, d)
  {
    hide Filled, Entry;
  }

  /** A held page comes under a directory that is there. */
  lemma RootedMore(owner: map<nat, Use>, first: nat, count: nat, f: nat, u: Use)
    requires Rooted(owner, first, count) && HasUse(owner, f, Held)
    requires (u.Table? || u.User?) && HasUse(owner, u.d, Dir)
    ensures Rooted(owner[f := u], first, count)
  {
  }

  lemma SamePtesTwice(mem: seq<Page>, mid: seq<Page>, after: seq<Page>, d: nat)
    requires SamePtes(mem, mid, d) && SamePtes(mid, after, d)
    ensures SamePtes(mem, after, d)
  {
    hide Pte;
  }

  lemma HeldToTable(owner: map<nat, Use>, free: seq<nat>, f: nat, u: Use)
    requires FreeListed(owner, free) && HasUse(owner, f, Held) && u != Free
    ensures FreeListed(owner[f := u], free)
  {
    forall g | g in free ensures HasUse(owner[f := u], g, Free) {
      assert HasUse(owner, g, Free);
    }
  }

  // ---------------------------------------------------------------- mapping a range

  /** How many pages va .. va + size touches. */
  function PagesOf(va: nat, size: nat): nat
    requires size > 0
  {
    (va + size - 1) / PGSIZE - va / PGSIZE + 1
  }

  lemma PageRange(va: nat, size: nat)
    requires 0 < size && va + size <= UINT
    ensures PagesOf(va, size) >= 1 && va / PGSIZE + PagesOf(va, size) <= VPAGES
    ensures (va + size - 1) % UINT / PGSIZE == va / PGSIZE + PagesOf(va, size) - 1
  {
  }

  /** Of the translations under d only that of v changes, and becomes w. */
  ghost predicate OnePte(mem: seq<Page>, mem': seq<Page>, d: nat, v: nat, w: nat) {
    forall u: nat {:trigger Pte(mem', d, u)} {:trigger Pte(mem, d, u)} :: u < VPAGES ==>
      Pte(mem', d, u) == if u == v then w else Pte(mem, d, u)
  }

  /** n virtual pages from v on are mapped to n frames from f on; the other translations under d are as before. */
  ghost predicate RangeMapped(mem: seq<Page>, mem': seq<Page>, d: nat, v: nat, n: nat, f: nat, flags: nat) {
    forall u: nat {:trigger Pte(mem', d, u)} {:trigger Pte(mem, d, u)} :: u < VPAGES ==>
      Pte(mem', d, u) == if v <= u < v + n then Entry(f + (u - v), flags) else Pte(mem, d, u)
  }

  /** None of the pages from v up to v' is mapped under d. */
  ghost predicate Unmapped(mem: seq<Page>, d: nat, v: nat, v': nat) {
    forall u: nat {:trigger Pte(mem, d, u)} :: v <= u < v' && u < VPAGES ==> !Present(Pte(mem, d, u))
  }

  lemma NoneMapped(mem: seq<Page>, d: nat, v: nat, f: nat, flags: nat)
    ensures RangeMapped(mem, mem, d, v, 0, f, flags)
  {
    hide Pte, Entry;
  }

  lemma LongerRange(mem: seq<Page>, mid: seq<Page>, after: seq<Page>, d: nat, v: nat, n: nat, f: nat, flags: nat)
    requires RangeMapped(mem, mid, d, v, n, f, flags) && OnePte(mid, after, d, v + n, Entry(f + n, flags))
    ensures RangeMapped(mem, after, d, v, n + 1, f, flags)
  {
    hide Pte, Entry;
    forall u: nat | u < VPAGES
      ensures Pte(after, d, u) == if v <= u < v + n + 1 then Entry(f + (u - v), flags) else Pte(mem, d, u)
    {
      assert Pte(mid, d, u) == if v <= u < v + n then Entry(f + (u - v), flags) else Pte(mem, d, u);
    }
  }

  lemma SameRange(mem: seq<Page>, mid: seq<Page>, after: seq<Page>, d: nat, v: nat, n: nat, f: nat, flags: nat)
    requires RangeMapped(mem, mid, d, v, n, f, flags) && SamePtes(mid, after, d)
    ensures RangeMapped(mem, after, d, v, n, f, flags)
  {
    hide Pte, Entry;
    forall u: nat | u < VPAGES
      ensures Pte(after, d, u) == if v <= u < v + n then Entry(f + (u - v), flags) else Pte(mem, d, u)
    {
      assert Pte(mid, d, u) == if v <= u < v + n then Entry(f + (u - v), flags) else Pte(mem, d, u);
    }
  }

  lemma RangeElsewhere(mem: seq<Page>, mid: seq<Page>, d: nat, v: nat, n: nat, f: nat, flags: nat)
    requires RangeMapped(mem, mid, d, v, n, f, flags) && v + n < VPAGES
    ensures Pte(mid, d, v + n) == Pte(mem, d, v + n)
  {
    hide Pte, Entry;
  }

  lemma SameOne(mem: seq<Page>, after: seq<Page>, d: nat, v: nat)
    requires SamePtes(mem, after, d) && v < VPAGES
    ensures Pte(after, d, v) == Pte(mem, d, v)
  {
  }

  /** Kept, except that page f, held before, is a user page of d now. */
  ghost predicate KeptBut(m: World, n: World, d: nat, f: nat) {
    && HasUse(m.owner, f, Held) && f in n.owner
    && Kept(m, n.(owner := n.owner[f := Held]), d)
  }

  lemma StillHeld(m: World, n: World, d: nat, f: nat)
    requires Kept(m, n, d) && HasUse(m.owner, f, Held)
    ensures HasUse(n.owner, f, Held)
  {
  }

  lemma KeptTwice(m: World, n: World, q: World, d: nat)
    requires Kept(m, n, d) && Kept(n, q, d)
    ensures Kept(m, q, d)
  {
  }

  lemma KeptButTwice(m: World, n: World, q: World, d: nat, f: nat)
    requires Kept(m, n, d) && KeptBut(n, q, d, f) && HasUse(m.owner, f, Held)
    ensures KeptBut(m, q, d, f)
  {
    KeptTwice(m, n, q.(owner := q.owner[f := Held]), d);
    hide Kept;
  }

  /** mappages stores its entry. */
  lemma EntryStored(m: World, n: World, d: nat, v: nat, t: nat, f: nat, w: nat, first: nat)
    requires Good(m, first) && HasUse(m.owner, d, Dir) && v < VPAGES && Present(w) && Frame(w) == f
    requires d < |m.mem| && Present(m.mem[d][v / ENTRIES]) && Frame(m.mem[d][v / ENTRIES]) == t && t < |m.mem|
    requires !Present(Pte(m.mem, d, v))
    requires v < USERPAGES ==> HasUse(m.owner, f, Held)
    requires n == m.(mem := m.mem[t := m.mem[t][v % ENTRIES := w]],
      owner := if v < USERPAGES then m.owner[f := User(d, v)] else m.owner)
    ensures Good(n, first) && HasUse(n.owner, d, Dir) && OnlyUnder(m, n, d) && OnePte(m.mem, n.mem, d, v, w)
    ensures if v < USERPAGES then KeptBut(m, n, d, f) else Kept(m, n, d)
  {
    TreeOf(m, d, first);
    NoUser(m.mem, m.owner, d, v);
    hide Tree, Pte, FreeListed, Trees, Rooted;
    PteSet(m.mem, m.owner, d, v, w, n.owner);
    GoodParts(m, first);
    if v < USERPAGES {
      HeldToTable(m.owner, m.free, f, User(d, v));
      RootedMore(m.owner, first, |m.mem|, f, User(d, v));
    }
    EntryUnder(m, n, d, v, t, f, w);
    GoodAfter(m, n, d, first);
  }

  /** An absent page is nobody's. */
  lemma NoUser(mem: seq<Page>, owner: map<nat, Use>, d: nat, v: nat)
    requires Tree(mem, owner, d) && !Present(Pte(mem, d, v))
    ensures forall f :: f in owner ==> owner[f] != User(d, v)
  {
    hide Pte;
    forall f | f in owner ensures owner[f] != User(d, v) {
      assert owner[f] == User(d, v) ==> Backed(mem, d, f, owner[f]);
    }
  }

  lemma EntryUnder(m: World, n: World, d: nat, v: nat, t: nat, f: nat, w: nat)
    requires HasUse(m.owner, t, Table(d, v / ENTRIES)) && t < |m.mem|
    requires v < USERPAGES ==> HasUse(m.owner, f, Held)
    requires n == m.(mem := m.mem[t := m.mem[t][v % ENTRIES := w]],
      owner := if v < USERPAGES then m.owner[f := User(d, v)] else m.owner)
    ensures OnlyUnder(m, n, d)
    ensures if v < USERPAGES then KeptBut(m, n, d, f) else Kept(m, n, d)
  {
  }

  lemma MapTwice(m: World, mid: World, n: World, d: nat, v: nat, f: nat, w: nat)
    requires OnlyUnder(m, mid, d) && SamePtes(m.mem, mid.mem, d) && Kept(m, mid, d)
    requires OnlyUnder(mid, n, d) && OnePte(mid.mem, n.mem, d, v, w)
    requires if v < USERPAGES then KeptBut(mid, n, d, f) && HasUse(m.owner, f, Held) else Kept(mid, n, d)
    ensures OnlyUnder(m, n, d) && OnePte(m.mem, n.mem, d, v, w)
    ensures if v < USERPAGES then KeptBut(m, n, d, f) else Kept(m, n, d)
  {
    OnlyUnderTwice(m, mid, n, d);
    if v < USERPAGES {
      KeptButTwice(m, mid, n, d, f);
    } else {
      KeptTwice(m, mid, n, d);
    }
    hide Pte, OnlyUnder, Kept, KeptBut;
    forall u: nat | u < VPAGES ensures Pte(n.mem, d, u) == if u == v then w else Pte(m.mem, d, u) {
      assert Pte(mid.mem, d, u) == Pte(m.mem, d, u);
    }
  }

  // ---------------------------------------------------------------- unmapping

  /** The translations of lo .. hi under d are gone; the other translations under d are as before. */
  ghost predicate Cleared(mem: seq<Page>, mem': seq<Page>, d: nat, lo: nat, hi: nat) {
    forall u: nat {:trigger Pte(mem', d, u)} {:trigger Pte(mem, d, u)} :: u < VPAGES ==>
      Pte(mem', d, u) == if lo <= u < hi && Present(Pte(mem, d, u)) then 0 else Pte(mem, d, u)
  }

  predicate InSpan(u: Use, d: nat, lo: nat, hi: nat) {
    u.User? && u.d == d && lo <= u.v < hi
  }

  /** The user pages lo .. hi of d are free, and no other page has got another use. */
  ghost predicate Returned(owner: map<nat, Use>, owner': map<nat, Use>, d: nat, lo: nat, hi: nat) {
    && owner'.Keys == owner.Keys
    && forall f :: f in owner ==> owner'[f] == if InSpan(owner[f], d, lo, hi) then Free else owner[f]
  }

  /** Held and user pages that are left have the bytes that they had. */
  ghost predicate SameData(m: World, n: World) {
    && |n.mem| == |m.mem|
    && forall f :: f in n.owner && f < |m.mem| && (n.owner[f] == Held || n.owner[f].User?) ==>
         f in m.owner && m.owner[f] == n.owner[f] && n.mem[f] == m.mem[f]
  }

  lemma SameDataTwice(m: World, n: World, q: World)
    requires SameData(m, n) && SameData(n, q)
    ensures SameData(m, q)
  {
  }

  lemma ClearedNone(m: World, d: nat, lo: nat)
    ensures Cleared(m.mem, m.mem, d, lo, lo) && Returned(m.owner, m.owner, d, lo, lo) && SameData(m, m)
  {
    hide Pte;
  }

  /** Pages that are not mapped need no work. */
  lemma ClearedMore(m: World, n: World, d: nat, lo: nat, k: nat, k': nat)
    requires Cleared(m.mem, n.mem, d, lo, k) && Returned(m.owner, n.owner, d, lo, k)
    requires Tree(n.mem, n.owner, d) && Unmapped(n.mem, d, k, k') && lo <= k <= k' <= USERPAGES
    ensures Cleared(m.mem, n.mem, d, lo, k') && Returned(m.owner, n.owner, d, lo, k')
  {
    hide Pte;
    forall u: nat | u < VPAGES
      ensures Pte(n.mem, d, u) == if lo <= u < k' && Present(Pte(m.mem, d, u)) then 0 else Pte(m.mem, d, u)
    {
      assert Pte(n.mem, d, u) == if lo <= u < k && Present(Pte(m.mem, d, u)) then 0 else Pte(m.mem, d, u);
      assert k <= u < k' ==> !Present(Pte(n.mem, d, u));
    }
    forall f | f in m.owner ensures n.owner[f] == if InSpan(m.owner[f], d, lo, k') then Free else m.owner[f] {
      if InSpan(m.owner[f], d, k, k') {
        assert n.owner[f] == m.owner[f];
        assert Backed(n.mem, d, f, n.owner[f]);
      }
    }
  }

  /** A missing table means that all of its pages are missing. */
  lemma AbsentTable(mem: seq<Page>, d: nat, v: nat)
    requires d < |mem| && v < VPAGES && !Present(mem[d][v / ENTRIES])
    ensures Unmapped(mem, d, v, (v / ENTRIES + 1) * ENTRIES)
  {
    forall u: nat | v <= u < (v / ENTRIES + 1) * ENTRIES && u < VPAGES ensures !Present(Pte(mem, d, u)) {
      assert u / ENTRIES == v / ENTRIES;
    }
  }

  lemma AbsentPage(mem: seq<Page>, d: nat, v: nat)
    requires !Present(Pte(mem, d, v))
    ensures Unmapped(mem, d, v, v + 1)
  {
    hide Pte;
  }

  /** One page freed and its entry cleared, in the order of the code. */
  lemma PageFreed(m: World, n: World, d: nat, v: nat, t: nat, f: nat, junk: Page, first: nat)
    requires Good(m, first) && HasUse(m.owner, d, Dir) && v < USERPAGES
    requires d < |m.mem| && Present(m.mem[d][v / ENTRIES]) && Frame(m.mem[d][v / ENTRIES]) == t && t < |m.mem|
    requires Present(Pte(m.mem, d, v)) && Frame(Pte(m.mem, d, v)) == f
    requires f < |m.mem| && m.mem[f := junk][t] == m.mem[t]
    requires n.mem == m.mem[f := junk][t := m.mem[t][v % ENTRIES := 0]] && n.owner == m.owner[f := Free]
    requires n.free == [f] + m.free
    requires FreeListed(n.owner, n.free)
    ensures Good(n, first) && HasUse(n.owner, d, Dir) && OnlyUnder(m, n, d)
    ensures HasUse(m.owner, f, User(d, v)) && OnePte(m.mem, n.mem, d, v, 0) && SameData(m, n)
  {
    hide Tree, Pte, FreeListed, Trees, Rooted, SamePtes, OnlyUnder, SameData, Good, OnePte;
    UserPage(m, d, v, first);
    var mid := m.(mem := m.mem[t := m.mem[t][v % ENTRIES := 0]], owner := m.owner[f := Held]);
    EntryCleared(m, d, v, t, f, first);
    assert mid.mem[f := junk] == n.mem;
    LoosePage(mid, n, f, first);
    OnlyUnderTwice(m, mid, n, d);
    SameDataFreed(m, n, d, v, t, f);
    OneThenSame(m.mem, mid.mem, n.mem, d, v, 0);
  }

  lemma OneThenSame(mem: seq<Page>, mid: seq<Page>, after: seq<Page>, d: nat, v: nat, w: nat)
    requires OnePte(mem, mid, d, v, w) && SamePtes(mid, after, d)
    ensures OnePte(mem, after, d, v, w)
  {
    hide Pte;
    forall u: nat | u < VPAGES ensures Pte(after, d, u) == if u == v then w else Pte(mem, d, u) {
      assert Pte(mid, d, u) == if u == v then w else Pte(mem, d, u);
    }
  }

  /** The entry is cleared while the page is still held. */
  lemma EntryCleared(m: World, d: nat, v: nat, t: nat, f: nat, first: nat)
    requires Good(m, first) && HasUse(m.owner, d, Dir) && v < USERPAGES
    requires d < |m.mem| && Present(m.mem[d][v / ENTRIES]) && Frame(m.mem[d][v / ENTRIES]) == t && t < |m.mem|
    requires Present(Pte(m.mem, d, v)) && Frame(Pte(m.mem, d, v)) == f
    ensures
      var mid := m.(mem := m.mem[t := m.mem[t][v % ENTRIES := 0]], owner := m.owner[f := Held]);
      && Good(mid, first) && HasUse(mid.owner, d, Dir) && OnlyUnder(m, mid, d) && OnePte(m.mem, mid.mem, d, v, 0)
    ensures HasUse(m.owner, t, Table(d, v / ENTRIES)) && t != f
  {
    UserPage(m, d, v, first);
    var mid := m.(mem := m.mem[t := m.mem[t][v % ENTRIES := 0]], owner := m.owner[f := Held]);
    hide Tree, Pte, FreeListed, Trees, Rooted;
    OnlyUser(m, d, v, f, first);
    PteSet(m.mem, m.owner, d, v, 0, mid.owner);
    GoodParts(m, first);
    UserHeld(m.owner, m.free, first, |m.mem|, f, d, v);
    ClearUnder(m, mid, d, v, t, f);
    hide OnlyUnder;
    GoodAfter(m, mid, d, first);
  }

  lemma UserPage(m: World, d: nat, v: nat, first: nat)
    requires Good(m, first) && HasUse(m.owner, d, Dir) && v < USERPAGES && Present(Pte(m.mem, d, v))
    ensures Tree(m.mem, m.owner, d) && HasUse(m.owner, Frame(Pte(m.mem, d, v)), User(d, v))
    ensures 0 < first <= Frame(Pte(m.mem, d, v)) < |m.mem|
  {
    hide Pte, FreeListed;
    assert Tree(m.mem, m.owner, d);
  }

  /** No second page stands for v. */
  lemma OnlyUser(m: World, d: nat, v: nat, f: nat, first: nat)
    requires Good(m, first) && HasUse(m.owner, d, Dir) && v < USERPAGES && Present(Pte(m.mem, d, v))
      && Frame(Pte(m.mem, d, v)) == f
    ensures forall g :: HasUse(m.owner, g, User(d, v)) ==> g == f
  {
    TreeOf(m, d, first);
    hide Pte, FreeListed, Rooted, Trees;
    forall g | HasUse(m.owner, g, User(d, v)) ensures g == f {
      assert Backed(m.mem, d, g, m.owner[g]);
    }
  }

  lemma UserHeld(owner: map<nat, Use>, free: seq<nat>, first: nat, count: nat, f: nat, d: nat, v: nat)
    requires FreeListed(owner, free) && Rooted(owner, first, count) && HasUse(owner, f, User(d, v))
    ensures FreeListed(owner[f := Held], free) && Rooted(owner[f := Held], first, count)
  {
    forall g | g in free ensures HasUse(owner[f := Held], g, Free) {
      assert HasUse(owner, g, Free);
    }
  }

  lemma ClearUnder(m: World, n: World, d: nat, v: nat, t: nat, f: nat)
    requires HasUse(m.owner, t, Table(d, v / ENTRIES)) && HasUse(m.owner, f, User(d, v)) && t < |m.mem|
    requires n == m.(mem := m.mem[t := m.mem[t][v % ENTRIES := 0]], owner := m.owner[f := Held])
    ensures OnlyUnder(m, n, d)
  {
  }

  lemma SameDataFreed(m: World, n: World, d: nat, v: nat, t: nat, f: nat)
    requires |n.mem| == |m.mem| && f < |m.mem| && t < |m.mem|
    requires n.mem == m.mem[f := n.mem[f]][t := n.mem[t]] && n.owner == m.owner[f := Free]
    requires HasUse(m.owner, t, Table(d, v / ENTRIES)) && t != f
    ensures SameData(m, n)
  {
  }

  lemma ClearedOne(m: World, mid: World, n: World, d: nat, lo: nat, v: nat, f: nat)
    requires Cleared(m.mem, mid.mem, d, lo, v) && Returned(m.owner, mid.owner, d, lo, v) && lo <= v
    requires OnePte(mid.mem, n.mem, d, v, 0) && HasUse(mid.owner, f, User(d, v)) && n.owner == mid.owner[f := Free]
    requires forall g :: HasUse(mid.owner, g, User(d, v)) ==> g == f
    requires Present(Pte(mid.mem, d, v))
    ensures Cleared(m.mem, n.mem, d, lo, v + 1) && Returned(m.owner, n.owner, d, lo, v + 1)
  {
    hide Pte;
    forall u: nat | u < VPAGES
      ensures Pte(n.mem, d, u) == if lo <= u < v + 1 && Present(Pte(m.mem, d, u)) then 0 else Pte(m.mem, d, u)
    {
      assert Pte(mid.mem, d, u) == if lo <= u < v && Present(Pte(m.mem, d, u)) then 0 else Pte(m.mem, d, u);
    }
    forall g | g in m.owner ensures n.owner[g] == if InSpan(m.owner[g], d, lo, v + 1) then Free else m.owner[g] {
      if m.owner[g] == User(d, v) {
        assert HasUse(mid.owner, g, User(d, v));
      }
    }
  }

  /** PGROUNDUP(sz) / PGSIZE */
  function PageUp(sz: nat): nat {
    (sz + PGSIZE - 1) / PGSIZE
  }

  function Least(a: nat, b: nat): nat {
    if a < b then a else b
  }

  lemma PageUps(newsz: nat, oldsz: nat)
    requires newsz < oldsz <= KERNBASE
    ensures PageUp(newsz) <= PageUp(oldsz) <= USERPAGES
    ensures (newsz + PGSIZE - 1) / PGSIZE * PGSIZE == PageUp(newsz) * PGSIZE
  {
  }

  /** The pages lo .. hi before freerange. */
  ghost function AllHeld(lo: nat, hi: nat): (owner: map<nat, Use>)
    ensures forall f: nat :: f in owner <==> lo <= f < hi
    ensures forall f: nat :: f in owner ==> owner[f] == Held
  {
    if hi <= lo then map[] else AllHeld(lo, hi - 1)[hi - 1 := Held]
  }

  lemma NothingFree(owner: map<nat, Use>)
    requires forall f :: f in owner ==> owner[f] != Free
    ensures FreeListed(owner, [])
  {
  }

  lemma WholePage(k: nat, end: nat)
    requires k * PGSIZE + PGSIZE <= end
    ensures k < end / PGSIZE
  {
  }

  lemma NoWholePage(k: nat, end: nat)
    requires k * PGSIZE + PGSIZE > end
    ensures k >= end / PGSIZE
  {
  }

  lemma NowHeld(owner: map<nat, Use>, f: nat)
    ensures HasUse(owner[f := Held], f, Held)
  {
  }

  lemma FrameBytes(f: nat)
    ensures f * PGSIZE % PGSIZE == 0 && f * PGSIZE / PGSIZE == f
  {
  }

  lemma OnePage(k: nat)
    ensures PagesOf(k * PGSIZE, PGSIZE) == 1
  {
    assert (k * PGSIZE + PGSIZE - 1) / PGSIZE == k;
  }

  lemma PageUpsUp(oldsz: nat, newsz: nat)
    requires oldsz <= newsz < KERNBASE
    ensures PageUp(oldsz) <= PageUp(newsz) <= USERPAGES
    ensures (oldsz + PGSIZE - 1) / PGSIZE * PGSIZE == PageUp(oldsz) * PGSIZE
  {
  }

  lemma PageBelowUp(a: nat, newsz: nat, k: nat)
    requires a == k * PGSIZE && a < newsz < KERNBASE
    ensures k < PageUp(newsz) <= USERPAGES && a / PGSIZE == k && PagesOf(a, PGSIZE) == 1
  {
    assert a / PGSIZE == k;
    assert (a + PGSIZE - 1) / PGSIZE == k;
  }

  lemma PageBelow(a: nat, oldsz: nat)
    requires a % PGSIZE == 0 && a < oldsz <= KERNBASE
    ensures a / PGSIZE < PageUp(oldsz) <= USERPAGES && a == a / PGSIZE * PGSIZE
  {
  }

  lemma PassedAll(a: nat, oldsz: nat)
    requires a % PGSIZE == 0 && a >= oldsz
    ensures a / PGSIZE >= PageUp(oldsz)
  {
  }

  /** The jump to the next directory entry. */
  lemma NextDirectory(k: nat, a: nat)
    requires a == (k / ENTRIES + 1) * ENTRIES * PGSIZE - PGSIZE
    ensures (a + PGSIZE) % PGSIZE == 0 && (a + PGSIZE) / PGSIZE == (k / ENTRIES + 1) * ENTRIES && a >= k * PGSIZE
    ensures (k / ENTRIES + 1) * ENTRIES > k
  {
    var q := (k / ENTRIES + 1) * ENTRIES;
    assert a + PGSIZE == q * PGSIZE;
    assert k < q;
  }

  lemma TableSkipped(m: World, n: World, d: nat, lo: nat, k: nat, hi: nat)
    requires Cleared(m.mem, n.mem, d, lo, k) && Returned(m.owner, n.owner, d, lo, k)
    requires Tree(n.mem, n.owner, d) && lo <= k < hi <= USERPAGES
    requires d < |n.mem| && !Present(n.mem[d][k / ENTRIES])
    ensures k < Least((k / ENTRIES + 1) * ENTRIES, hi)
    ensures Cleared(m.mem, n.mem, d, lo, Least((k / ENTRIES + 1) * ENTRIES, hi))
    ensures Returned(m.owner, n.owner, d, lo, Least((k / ENTRIES + 1) * ENTRIES, hi))
  {
    AbsentTable(n.mem, d, k);
    hide Pte, Cleared, Returned, Tree;
    assert Unmapped(n.mem, d, k, Least((k / ENTRIES + 1) * ENTRIES, hi));
    assert k < (k / ENTRIES + 1) * ENTRIES;
    ClearedMore(m, n, d, lo, k, Least((k / ENTRIES + 1) * ENTRIES, hi));
  }

  lemma PteInTable(mem: seq<Page>, d: nat, v: nat)
    requires d < |mem| && v < VPAGES && Present(mem[d][v / ENTRIES]) && Frame(mem[d][v / ENTRIES]) < |mem|
    ensures Pte(mem, d, v) == mem[Frame(mem[d][v / ENTRIES])][v % ENTRIES]
  {
  }

  lemma TableNotUser(m: World, d: nat, v: nat, t: nat, f: nat, first: nat)
    requires Good(m, first) && HasUse(m.owner, d, Dir) && v < USERPAGES && HasUse(m.owner, f, User(d, v))
    requires d < |m.mem| && Present(m.mem[d][v / ENTRIES]) && Frame(m.mem[d][v / ENTRIES]) == t
    ensures t != f && t < |m.mem|
  {
    TreeOf(m, d, first);
    hide Pte, Tree, FreeListed, Rooted, Trees;
  }

  lemma UnderSelf(m: World, d: nat)
    ensures OnlyUnder(m, m, d)
  {
  }

  // ---------------------------------------------------------------- freeing a whole directory

  predicate TableBefore(u: Use, d: nat, i: nat) {
    u.Table? && u.d == d && u.i < i
  }

  /** The first i tables of d are free. */
  ghost predicate TablesFreed(m: World, n: World, d: nat, i: nat) {
    && |n.mem| == |m.mem|
    && n.owner.Keys == m.owner.Keys
    && (forall f :: f in m.owner ==> n.owner[f] == if TableBefore(m.owner[f], d, i) then Free else m.owner[f])
    && (forall f :: f in m.owner && f < |m.mem| && !TableBefore(m.owner[f], d, i) ==> n.mem[f] == m.mem[f])
  }

  lemma TablesFreedNone(m: World, d: nat)
    ensures TablesFreed(m, m, d, 0)
  {
  }

  lemma TablesFreedNext(m: World, n: World, d: nat, i: nat, junk: Page, free: seq<nat>, first: nat)
    requires Good(m, first) && HasUse(m.owner, d, Dir) && TablesFreed(m, n, d, i) && i < ENTRIES
    ensures d < |m.mem| && n.mem[d] == m.mem[d]
    ensures !Present(m.mem[d][i]) ==> TablesFreed(m, n, d, i + 1)
    ensures
      var t := Frame(m.mem[d][i]);
      Present(m.mem[d][i]) ==>
        && first <= t < |m.mem| && HasUse(n.owner, t, Table(d, i))
        && TablesFreed(m, World(n.mem[t := junk], n.owner[t := Free], free), d, i + 1)
  {
    TreeOf(m, d, first);
    hide Pte, FreeListed, Trees;
    forall f | f in m.owner && m.owner[f] == Table(d, i) ensures Present(m.mem[d][i]) && f == Frame(m.mem[d][i]) {
      assert Backed(m.mem, d, f, m.owner[f]);
    }
  }

  /** Nothing of d is left, everything else is as it was. */
  ghost predicate Gone(owner: map<nat, Use>, owner': map<nat, Use>, d: nat) {
    && owner'.Keys == owner.Keys
    && forall f :: f in owner ==> owner'[f] == if About(owner[f], f, d) then Free else owner[f]
  }

  lemma DirStays(m: World, n: World, d: nat, first: nat)
    requires Good(m, first) && HasUse(m.owner, d, Dir) && TablesFreed(m, n, d, ENTRIES)
    ensures HasUse(n.owner, d, Dir) && 0 < first <= d < |n.mem|
  {
    InMemory(m.owner, first, |m.mem|, d);
    hide FreeListed, Rooted, Trees;
  }

  lemma DirectoryGone(m: World, mid: World, q: World, n: World, d: nat, junk: Page, first: nat)
    requires Good(mid, first) && HasUse(mid.owner, d, Dir) && HasUse(m.owner, d, Dir)
    requires Tree(m.mem, m.owner, d) && OnlyUnder(m, mid, d) && SameData(m, mid)
    requires Returned(m.owner, mid.owner, d, 0, USERPAGES)
    requires TablesFreed(mid, q, d, ENTRIES) && FreeListed(n.owner, n.free)
    requires d < |q.mem| && n.mem == q.mem[d := junk] && n.owner == q.owner[d := Free]
    ensures Good(n, first) && OnlyUnder(m, n, d) && SameData(m, n) && Gone(m.owner, n.owner, d)
  {
    GoneUnder(m, mid, q, n, d);
    GoodParts(mid, first);
    GoneRooted(mid.owner, q.owner, n.owner, m.owner, d, first, |n.mem|);
    hide OnlyUnder, SameData, Gone, Tree, Trees, Rooted, FreeListed, TablesFreed;
    assert OnlyUnder(mid, n, d);
    GoodAfter(mid, n, d, first);
  }

  lemma GoneUnder(m: World, mid: World, q: World, n: World, d: nat)
    requires HasUse(mid.owner, d, Dir) && HasUse(m.owner, d, Dir) && Tree(m.mem, m.owner, d) && OnlyUnder(m, mid, d)
      && SameData(m, mid)
    requires Returned(m.owner, mid.owner, d, 0, USERPAGES) && TablesFreed(mid, q, d, ENTRIES)
    requires d < |q.mem| == |n.mem| && n.mem == q.mem[d := n.mem[d]] && n.owner == q.owner[d := Free]
    ensures OnlyUnder(mid, n, d) && OnlyUnder(m, n, d) && SameData(m, n) && Gone(m.owner, n.owner, d)
  {
    hide Pte, SameData, OnlyUnder, Gone, TablesFreed, Returned, Tree;
    GoneOwners(m, mid, q, n, d);
    GoneData(mid, q, n, d);
    SameDataTwice(m, mid, n);
    OnlyUnderTwice(m, mid, n, d);
  }

  lemma GoneOwners(m: World, mid: World, q: World, n: World, d: nat)
    requires HasUse(m.owner, d, Dir) && Tree(m.mem, m.owner, d)
    requires Returned(m.owner, mid.owner, d, 0, USERPAGES) && TablesFreed(mid, q, d, ENTRIES)
    requires n.owner == q.owner[d := Free]
    ensures Gone(m.owner, n.owner, d)
  {
    hide Pte;
    forall f | f in m.owner ensures n.owner[f] == if About(m.owner[f], f, d) then Free else m.owner[f] {
      assert About(m.owner[f], f, d) ==> Backed(m.mem, d, f, m.owner[f]);
    }
  }

  lemma GoneData(m: World, q: World, n: World, d: nat)
    requires HasUse(m.owner, d, Dir) && TablesFreed(m, q, d, ENTRIES)
    requires d < |q.mem| == |n.mem| && n.mem == q.mem[d := n.mem[d]] && n.owner == q.owner[d := Free]
    ensures SameData(m, n) && OnlyUnder(m, n, d)
  {
  }

  lemma GoneRooted(mid: map<nat, Use>, q: map<nat, Use>, n: map<nat, Use>, m: map<nat, Use>, d: nat, first: nat,
          count: nat)
    requires Rooted(mid, first, count) && Gone(m, n, d) && n.Keys == mid.Keys
    requires forall f :: f in mid ==> n[f] == Free || n[f] == mid[f]
    requires forall f :: f in mid && mid[f] == Dir && f != d ==> n[f] == mid[f]
    ensures Rooted(n, first, count)
  {
  }
}
