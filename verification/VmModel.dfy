/**
 Two-level page tables in physical pages (mmu.h, vm.c) and who uses each page (kalloc.c).

 A page is an array of 1024 words. Pages are named by their frame number, virtual pages by theirs; an entry of a
 directory or table is frame * 4096 + flags.
 */
module VmModel {

  const PGSIZE: nat := 4096
  const ENTRIES: nat := 1024          // NPDENTRIES, NPTENTRIES
  const VPAGES: nat := 0x10_0000      // virtual pages of the 32-bit address space
  const USERPAGES: nat := 0x8_0000    // KERNBASE / PGSIZE
  const KERNBASE: nat := 0x8000_0000
  const UINT: nat := 0x1_0000_0000
  const PTE_P: nat := 1
  const PTE_W: nat := 2
  const PTE_U: nat := 4

  type Page = p: seq<nat> | |p| == ENTRIES witness seq(ENTRIES, _ => 0)

  function Filled(w: nat): Page {
    seq(ENTRIES, _ => w)
  }

  predicate Present(w: nat) {
    w % 2 == 1
  }

  /** PTE_ADDR, as a frame number */
  function Frame(w: nat): nat {
    w / PGSIZE
  }

  function Entry(f: nat, flags: nat): nat {
    f * PGSIZE + flags
  }

  lemma EntryParts(f: nat, flags: nat)
    requires flags < PGSIZE
    ensures Frame(Entry(f, flags)) == f && Entry(f, flags) % PGSIZE == flags
    ensures Present(Entry(f, flags)) <==> Present(flags)
  {
    assert Entry(f, flags) == 2 * (2048 * f) + flags;
    Halves(2048 * f, flags);
  }

  lemma Halves(h: nat, x: nat)
    ensures (2 * h + x) % 2 == x % 2
  {
  }

  /** What a page is used for. Held pages have been allocated and are on their way to or from a use. */
  datatype Use = Free | Held | Dir | Table(d: nat, i: nat) | User(d: nat, v: nat)

  datatype World = World(mem: seq<Page>, owner: map<nat, Use>, free: seq<nat>)

  /** The table entry for virtual page v under directory d; 0 when there is no table. */
  function Pte(mem: seq<Page>, d: nat, v: nat): nat
  {
    if d < |mem| && v < VPAGES then
      var pde := mem[d][v / ENTRIES];
      if Present(pde) && Frame(pde) < |mem| then mem[Frame(pde)][v % ENTRIES] else 0
    else 0
  }

  ghost predicate HasUse(owner: map<nat, Use>, f: nat, u: Use) {
    f in owner && owner[f] == u
  }

  /** Page f is directory d or belongs under it. */
  predicate About(u: Use, f: nat, d: nat) {
    match u
    case Free => false
    case Held => false
    case Dir => f == d
    case Table(e, _) => e == d
    case User(e, _) => e == d
  }

  /** A directory entry that leaves it to the table entries what is allowed. */
  predicate Open(pde: nat) {
    pde % PGSIZE == PTE_P + PTE_W + PTE_U
  }

  /** Every table and every user page under directory d has one page of its own, and the owner map knows it. */
  ghost predicate Tree(mem: seq<Page>, owner: map<nat, Use>, d: nat) {
    && d < |mem|
    && (forall i: nat :: i < ENTRIES && Present(mem[d][i]) ==> Open(mem[d][i]))
    && (forall i: nat :: i < ENTRIES && Present(mem[d][i]) ==> HasUse(owner, Frame(mem[d][i]), Table(d, i)))
    && (forall v: nat {:trigger Pte(mem, d, v)} :: v < USERPAGES && Present(Pte(mem, d, v)) ==>
      HasUse(owner, Frame(Pte(mem, d, v)), User(d, v)))
    && (forall f :: f in owner && About(owner[f], f, d) ==> Backed(mem, d, f, owner[f]))
  }

  /** The entry that makes f what the owner map says. */
  ghost predicate Backed(mem: seq<Page>, d: nat, f: nat, u: Use) {
    match u
    case Table(_, i) => d < |mem| && i < ENTRIES && Present(mem[d][i]) && Frame(mem[d][i]) == f
    case User(_, v) => v < USERPAGES && Present(Pte(mem, d, v)) && Frame(Pte(mem, d, v)) == f
    case _ => true
  }

  predicate NoRepeat(s: seq<nat>) {
    s == [] || (s[0] !in s[1..] && NoRepeat(s[1..]))
  }

  /** The free list holds each free page once. */
  ghost predicate FreeListed(owner: map<nat, Use>, free: seq<nat>) {
    && NoRepeat(free)
    && (forall f :: f in free ==> HasUse(owner, f, Free))
    && (forall f :: f in owner && owner[f] == Free ==> f in free)
  }

  /** Pages belong to directories that are there. */
  ghost predicate Rooted(owner: map<nat, Use>, first: nat, count: nat) {
    && (forall f :: f in owner ==> 0 < first <= f < count)
    && (forall f {:trigger owner[f]} :: f in owner && owner[f].Table? ==> HasUse(owner, owner[f].d, Dir))
    && (forall f {:trigger owner[f]} :: f in owner && owner[f].User? ==> HasUse(owner, owner[f].d, Dir))
  }

  ghost predicate Trees(mem: seq<Page>, owner: map<nat, Use>) {
    forall d :: HasUse(owner, d, Dir) ==> Tree(mem, owner, d)
  }

  /**
   Every page that the allocator was given, those of owner, is free, a directory, a table, a user page or held, and
   only one of these.
   */
  ghost predicate Good(w: World, first: nat) {
    && FreeListed(w.owner, w.free)
    && Rooted(w.owner, first, |w.mem|)
    && Trees(w.mem, w.owner)
  }

  // ---------------------------------------------------------------- changes under one directory

  /** Nothing that is about a directory other than d differs. */
  ghost predicate OnlyUnder(m: World, n: World, d: nat) {
    && |n.mem| == |m.mem|
    && n.owner.Keys == m.owner.Keys
    && (forall f :: f in m.owner && Foreign(m.owner[f], f, d) ==>
      n.owner[f] == m.owner[f] && (f < |m.mem| ==> n.mem[f] == m.mem[f]))
    && (forall f :: f in n.owner && Foreign(n.owner[f], f, d) ==> n.owner[f] == m.owner[f])
  }

  predicate Foreign(u: Use, f: nat, d: nat) {
    match u
    case Free => false
    case Held => false
    case Dir => f != d
    case Table(e, _) => e != d
    case User(e, _) => e != d
  }

  lemma OnlyUnderTwice(m: World, n: World, q: World, d: nat)
    requires OnlyUnder(m, n, d) && OnlyUnder(n, q, d)
    ensures OnlyUnder(m, q, d)
  {
  }

  ghost predicate SamePtes(mem: seq<Page>, mem': seq<Page>, d: nat) {
    forall v: nat {:trigger Pte(mem', d, v)} {:trigger Pte(mem, d, v)} :: v < VPAGES ==>
      Pte(mem', d, v) == Pte(mem, d, v)
  }

  lemma OtherTree(m: World, n: World, d: nat, e: nat, first: nat)
    requires Tree(m.mem, m.owner, e) && HasUse(m.owner, e, Dir) && Rooted(m.owner, first, |m.mem|)
    requires OnlyUnder(m, n, d) && d != e
    ensures Tree(n.mem, n.owner, e) && SamePtes(m.mem, n.mem, e) && HasUse(n.owner, e, Dir)
  {
    assert n.mem[e] == m.mem[e];
    forall v: nat | v < VPAGES ensures Pte(n.mem, e, v) == Pte(m.mem, e, v) {
      OtherPte(m, n, d, e, v, first);
    }
    forall i: nat | i < ENTRIES && Present(n.mem[e][i]) ensures HasUse(n.owner, Frame(n.mem[e][i]), Table(e, i)) {
      assert HasUse(m.owner, Frame(m.mem[e][i]), Table(e, i));
    }
    forall v: nat | v < USERPAGES && Present(Pte(n.mem, e, v))
      ensures HasUse(n.owner, Frame(Pte(n.mem, e, v)), User(e, v))
    {
      assert HasUse(m.owner, Frame(Pte(m.mem, e, v)), User(e, v));
    }
  }

  lemma OtherPte(m: World, n: World, d: nat, e: nat, v: nat, first: nat)
    requires Tree(m.mem, m.owner, e) && HasUse(m.owner, e, Dir) && Rooted(m.owner, first, |m.mem|)
    requires OnlyUnder(m, n, d) && d != e && v < VPAGES
    ensures Pte(n.mem, e, v) == Pte(m.mem, e, v)
  {
    var i := v / ENTRIES;
    if Present(m.mem[e][i]) {
      assert HasUse(m.owner, Frame(m.mem[e][i]), Table(e, i));
    }
  }

  /** The trees of all other directories survive. */
  lemma GoodAfter(m: World, n: World, d: nat, first: nat)
    requires Good(m, first) && OnlyUnder(m, n, d)
    requires HasUse(n.owner, d, Dir) ==> Tree(n.mem, n.owner, d)
    ensures Trees(n.mem, n.owner)
    ensures forall e :: e != d && HasUse(m.owner, e, Dir) ==> SamePtes(m.mem, n.mem, e) && HasUse(n.owner, e, Dir)
  {
    hide SamePtes, Tree, Pte, FreeListed, Rooted;
    forall e | e != d && HasUse(n.owner, e, Dir) ensures Tree(n.mem, n.owner, e) {
      assert Foreign(n.owner[e], e, d);
      OtherTree(m, n, d, e, first);
    }
    forall e | e != d && HasUse(m.owner, e, Dir) ensures SamePtes(m.mem, n.mem, e) && HasUse(n.owner, e, Dir) {
      OtherTree(m, n, d, e, first);
    }
  }

  // ---------------------------------------------------------------- changes of one tree

  /** walkpgdir puts the zeroed page t in as table i. No translation changes. */
  lemma TableAdded(mem: seq<Page>, owner: map<nat, Use>, d: nat, i: nat, t: nat)
    requires Tree(mem, owner, d) && HasUse(owner, d, Dir) && i < ENTRIES && !Present(mem[d][i])
    requires HasUse(owner, t, Held) && t < |mem| && mem[t] == Filled(0)
    ensures
      var mem' := mem[d := mem[d][i := Entry(t, PTE_P + PTE_W + PTE_U)]];
      Tree(mem', owner[t := Table(d, i)], d) && SamePtes(mem, mem', d)
  {
    EntryParts(t, PTE_P + PTE_W + PTE_U);
    var mem', owner' := mem[d := mem[d][i := Entry(t, PTE_P + PTE_W + PTE_U)]], owner[t := Table(d, i)];
    forall v: nat | v < VPAGES ensures Pte(mem', d, v) == Pte(mem, d, v) {
      TableAddedPte(mem, owner, d, i, t, v);
    }
    hide Pte;
    forall j: nat | j < ENTRIES && Present(mem'[d][j]) ensures HasUse(owner', Frame(mem'[d][j]), Table(d, j)) {
      if j != i {
        assert HasUse(owner, Frame(mem[d][j]), Table(d, j));
      }
    }
    forall v: nat | v < USERPAGES && Present(Pte(mem', d, v))
      ensures HasUse(owner', Frame(Pte(mem', d, v)), User(d, v))
    {
      assert HasUse(owner, Frame(Pte(mem, d, v)), User(d, v));
    }
    forall f | f in owner' && About(owner'[f], f, d) ensures Backed(mem', d, f, owner'[f]) {
      if f != t {
        assert Backed(mem, d, f, owner[f]);
      }
    }
  }

  lemma TableAddedPte(mem: seq<Page>, owner: map<nat, Use>, d: nat, i: nat, t: nat, v: nat)
    requires Tree(mem, owner, d) && HasUse(owner, d, Dir) && i < ENTRIES && !Present(mem[d][i]) && v < VPAGES
    requires HasUse(owner, t, Held) && t < |mem| && mem[t] == Filled(0)
    ensures Pte(mem[d := mem[d][i := Entry(t, PTE_P + PTE_W + PTE_U)]], d, v) == Pte(mem, d, v)
  {
    EntryParts(t, PTE_P + PTE_W + PTE_U);
    var j := v / ENTRIES;
    if j != i && Present(mem[d][j]) {
      assert HasUse(owner, Frame(mem[d][j]), Table(d, j));
    }
  }

  /** The entry for v is in the page of its table; storing it changes that translation alone. */
  lemma PteStored(mem: seq<Page>, owner: map<nat, Use>, d: nat, v: nat, w: nat, u: nat)
    requires Tree(mem, owner, d) && HasUse(owner, d, Dir) && v < VPAGES && u < VPAGES
    requires Present(mem[d][v / ENTRIES]) && Frame(mem[d][v / ENTRIES]) < |mem|
    ensures
      var t := Frame(mem[d][v / ENTRIES]);
      Pte(mem[t := mem[t][v % ENTRIES := w]], d, u) == if u == v then w else Pte(mem, d, u)
  {
    var i, j := v / ENTRIES, u / ENTRIES;
    assert HasUse(owner, Frame(mem[d][i]), Table(d, i));
    assert u == j * ENTRIES + u % ENTRIES && v == i * ENTRIES + v % ENTRIES;
    if Present(mem[d][j]) {
      assert HasUse(owner, Frame(mem[d][j]), Table(d, j));
    }
  }

  /** The frames that tables occupy stay what they are when an entry of table i is stored. */
  lemma PteSet(mem: seq<Page>, owner: map<nat, Use>, d: nat, v: nat, w: nat, owner': map<nat, Use>)
    requires Tree(mem, owner, d) && HasUse(owner, d, Dir) && v < VPAGES
    requires Present(mem[d][v / ENTRIES]) && Frame(mem[d][v / ENTRIES]) < |mem|
    requires forall f :: f in owner && About(owner[f], f, d) && owner[f] != User(d, v) ==> HasUse(owner', f, owner[f])
    requires forall f :: f in owner' && About(owner'[f], f, d) && owner'[f] != User(d, v) ==>
      HasUse(owner, f, owner'[f])
    requires v < USERPAGES && Present(w) ==> HasUse(owner', Frame(w), User(d, v))
    requires forall f :: HasUse(owner', f, User(d, v)) ==> v < USERPAGES && Present(w) && Frame(w) == f
    ensures
      var t := Frame(mem[d][v / ENTRIES]);
      var mem' := mem[t := mem[t][v % ENTRIES := w]];
      && HasUse(owner, t, Table(d, v / ENTRIES)) && t != d
      && Tree(mem', owner', d)
      && (forall u: nat {:trigger Pte(mem', d, u)} :: u < VPAGES ==>
        Pte(mem', d, u) == if u == v then w else Pte(mem, d, u))
  {
    var t := Frame(mem[d][v / ENTRIES]);
    assert HasUse(owner, t, Table(d, v / ENTRIES));
    var mem' := mem[t := mem[t][v % ENTRIES := w]];
    forall u: nat | u < VPAGES ensures Pte(mem', d, u) == if u == v then w else Pte(mem, d, u) {
      PteStored(mem, owner, d, v, w, u);
    }
    assert mem'[d] == mem[d];
    hide Pte;
    forall j: nat | j < ENTRIES && Present(mem'[d][j]) ensures HasUse(owner', Frame(mem'[d][j]), Table(d, j)) {
      assert HasUse(owner, Frame(mem[d][j]), Table(d, j));
    }
    forall u: nat | u < USERPAGES && Present(Pte(mem', d, u))
      ensures HasUse(owner', Frame(Pte(mem', d, u)), User(d, u))
    {
      if u != v {
        assert HasUse(owner, Frame(Pte(mem, d, u)), User(d, u));
      }
    }
    forall f | f in owner' && About(owner'[f], f, d) ensures Backed(mem', d, f, owner'[f]) {
      if owner'[f] == User(d, v) {
        assert HasUse(owner', f, User(d, v));
      } else {
        assert HasUse(owner, f, owner'[f]);
        assert Backed(mem, d, f, owner[f]);
      }
    }
  }

  // ---------------------------------------------------------------- allocating and freeing a page

  lemma FreeTaken(owner: map<nat, Use>, free: seq<nat>)
    requires FreeListed(owner, free) && free != []
    ensures HasUse(owner, free[0], Free) && FreeListed(owner[free[0] := Held], free[1..])
  {
    var f := free[0];
    assert HasUse(owner, f, Free);
    forall g | g in free[1..] ensures HasUse(owner[f := Held], g, Free) {
      assert g in free;
    }
  }

  lemma FreeGiven(owner: map<nat, Use>, free: seq<nat>, f: nat)
    requires FreeListed(owner, free) && f in owner && owner[f] != Free
    ensures FreeListed(owner[f := Free], [f] + free)
  {
    assert ([f] + free)[1..] == free;
    assert f in free ==> HasUse(owner, f, Free);
    forall g | g in [f] + free ensures HasUse(owner[f := Free], g, Free) {
      if g != f {
        assert g in free;
        assert HasUse(owner, g, Free);
      }
    }
  }

  /** A page that no directory has anything to do with may be filled, taken or returned. */
  lemma LoosePage(m: World, n: World, f: nat, first: nat)
    requires Good(m, first) && f in m.owner && (m.owner[f] == Free || m.owner[f] == Held)
    requires f in n.owner && n.owner == m.owner[f := n.owner[f]] && (n.owner[f] == Free || n.owner[f] == Held)
    requires |n.mem| == |m.mem| && f < |m.mem| && n.mem == m.mem[f := n.mem[f]]
    requires FreeListed(n.owner, n.free)
    ensures Good(n, first)
    ensures forall e :: HasUse(m.owner, e, Dir) ==>
      OnlyUnder(m, n, e) && SamePtes(m.mem, n.mem, e) && HasUse(n.owner, e, Dir)
  {
    hide SamePtes, Tree, FreeListed;
    LooseUnder(m, n, f, f);
    GoodAfter(m, n, f, first);
    LooseRooted(m.owner, n.owner[f], f, first, |m.mem|);
    hide Rooted;
    forall e | HasUse(m.owner, e, Dir) ensures OnlyUnder(m, n, e) {
      LooseUnder(m, n, f, e);
    }
    hide OnlyUnder;
  }

  lemma LooseUnder(m: World, n: World, f: nat, e: nat)
    requires f in m.owner && (m.owner[f] == Free || m.owner[f] == Held)
    requires f in n.owner && n.owner == m.owner[f := n.owner[f]] && (n.owner[f] == Free || n.owner[f] == Held)
    requires |n.mem| == |m.mem| && f < |m.mem| && n.mem == m.mem[f := n.mem[f]]
    ensures OnlyUnder(m, n, e)
  {
  }

  lemma LooseRooted(owner: map<nat, Use>, u: Use, f: nat, first: nat, count: nat)
    requires Rooted(owner, first, count) && f in owner && (owner[f] == Free || owner[f] == Held)
      && (u == Free || u == Held)
    ensures Rooted(owner[f := u], first, count)
  {
  }
}
