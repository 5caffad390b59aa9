/**
 What the processor allows through both levels of a page table. Every directory entry is open, so that the table
 entries alone decide. With CR0_WP, which entry.S sets, the kernel too writes only where both levels have PTE_W.
 */
module VmAccess {
  import opened VmModel
  import opened VmSteps
  import opened VmSpaces
  import opened VmBytes

  predicate WriteBit(w: nat) {
    w / PTE_W % 2 == 1
  }

  function Pde(mem: seq<Page>, d: nat, v: nat): nat {
    if d < |mem| && v < VPAGES then mem[d][v / ENTRIES] else 0
  }

  /** An access to page v under directory d, by the user or the kernel, a store or a load, meets no fault. */
  predicate Allows(mem: seq<Page>, d: nat, v: nat, user: bool, write: bool) {
    && Present(Pde(mem, d, v)) && Present(Pte(mem, d, v))
    && (user ==> UserBit(Pde(mem, d, v)) && UserBit(Pte(mem, d, v)))
    && (write ==> WriteBit(Pde(mem, d, v)) && WriteBit(Pte(mem, d, v)))
  }

  predicate EntryAllows(pte: nat, user: bool, write: bool) {
    Present(pte) && (user ==> UserBit(pte)) && (write ==> WriteBit(pte))
  }

  lemma OpenBits(w: nat)
    requires Open(w)
    ensures Present(w) && UserBit(w) && WriteBit(w)
  {
    FlagBits(w);
  }

  /** The flags are the low bits. */
  lemma FlagBits(w: nat)
    ensures Present(w) <==> Present(w % PGSIZE)
    ensures UserBit(w) <==> UserBit(w % PGSIZE)
    ensures WriteBit(w) <==> WriteBit(w % PGSIZE)
  {
    var q, r := w / PGSIZE, w % PGSIZE;
    assert w == PGSIZE * q + r;
    assert w == 2 * (2048 * q) + r;
    Halves(2048 * q, r);
    assert w / 2 == 2 * (1024 * q) + r / 2;
    Halves(1024 * q, r / 2);
    assert w / 4 == 2 * (512 * q) + r / 4;
    Halves(512 * q, r / 4);
  }

  /** Both levels together allow what the table entry allows. */
  lemma EntryDecides(w: World, d: nat, v: nat, user: bool, write: bool, first: nat)
    requires Good(w, first) && HasUse(w.owner, d, Dir)
    ensures Allows(w.mem, d, v, user, write) <==> EntryAllows(Pte(w.mem, d, v), user, write)
  {
    TreeOf(w, d, first);
    if d < |w.mem| && v < VPAGES && Present(w.mem[d][v / ENTRIES]) {
      OpenBits(w.mem[d][v / ENTRIES]);
    }
  }

  /** The same where the table is at hand. */
  lemma TableDecides(w: World, d: nat, v: nat, first: nat)
    requires Good(w, first) && HasUse(w.owner, d, Dir) && v < VPAGES && d < |w.mem|
    requires Present(w.mem[d][v / ENTRIES]) && Frame(w.mem[d][v / ENTRIES]) < |w.mem|
    ensures
      var pte := w.mem[Frame(w.mem[d][v / ENTRIES])][v % ENTRIES];
      forall user, write :: Allows(w.mem, d, v, user, write) <==> EntryAllows(pte, user, write)
  {
    hide Good, Allows, EntryAllows;
    forall user, write ensures Allows(w.mem, d, v, user, write) <==> EntryAllows(Pte(w.mem, d, v), user, write) {
      EntryDecides(w, d, v, user, write, first);
    }
  }

  /** The pages that the kernel may write: low memory, its data and free memory, and the devices, but not its text. */
  predicate KernelWritable(kdata: nat, v: nat) {
    || USERPAGES <= v < USERPAGES + EXTMEM / PGSIZE
    || USERPAGES + kdata <= v < USERPAGES + PHYSTOP / PGSIZE
    || DEVSPACE / PGSIZE <= v < VPAGES
  }

  predicate KernelReadable(kdata: nat, v: nat) {
    USERPAGES <= v < USERPAGES + PHYSTOP / PGSIZE || DEVSPACE / PGSIZE <= v < VPAGES
  }

  lemma KernelEntries(kdata: nat, v: nat)
    requires GoodKernel(kdata) && v >= USERPAGES
    ensures EntryAllows(KernelPte(kdata, v), false, true) <==> KernelWritable(kdata, v)
    ensures EntryAllows(KernelPte(kdata, v), false, false) <==> KernelReadable(kdata, v)
    ensures !EntryAllows(KernelPte(kdata, v), true, false)
  {
    hide Entry;
    var w := KernelPte(kdata, v);
    if KernelReadable(kdata, v) {
      var f := if v < DEVSPACE / PGSIZE then v - USERPAGES else v;
      var flags := if KernelWritable(kdata, v) then PTE_W + PTE_P else PTE_P;
      assert w == Entry(f, flags);
      EntryParts(f, flags);
      FlagBits(w);
    }
  }

  /** So with the kernel's map from hi on, all processes have the same access to it: none. */
  lemma KernelAccess(w: World, d: nat, kdata: nat, hi: nat, v: nat, first: nat)
    requires Good(w, first) && HasUse(w.owner, d, Dir) && GoodKernel(kdata) && KernelFrom(w.mem, d, kdata, hi)
    requires hi <= v && USERPAGES <= v < VPAGES
    ensures Allows(w.mem, d, v, false, true) <==> KernelWritable(kdata, v)
    ensures Allows(w.mem, d, v, false, false) <==> KernelReadable(kdata, v)
    ensures !Allows(w.mem, d, v, true, false)
  {
    hide Good, Allows, EntryAllows, KernelPte, Pte;
    KernelEntries(kdata, v);
    EntryDecides(w, d, v, false, true, first);
    EntryDecides(w, d, v, false, false, first);
    EntryDecides(w, d, v, true, false, first);
    assert Pte(w.mem, d, v) == KernelPte(kdata, v);
  }

  /** A page with these contents is open to what its flags say. */
  lemma PageAccess(w: World, d: nat, lo: nat, want: seq<Content>, v: nat, user: bool, write: bool, first: nat)
    requires Good(w, first) && HasUse(w.owner, d, Dir) && Pages(w.mem, d, lo, want) && lo <= v < lo + |want|
    ensures Allows(w.mem, d, v, user, write) <==> EntryAllows(want[v - lo].flags, user, write)
  {
    hide Good, Allows, Pte;
    EntryDecides(w, d, v, user, write, first);
    assert PageIs(w.mem, Pte(w.mem, d, v), want[v - lo]);
    FlagBits(Pte(w.mem, d, v));
  }

  /** After setupkvm. */
  lemma SetupAccess(w: World, d: nat, kdata: nat, first: nat)
    requires Good(w, first) && HasUse(w.owner, d, Dir) && GoodKernel(kdata) && KernelUpTo(w.mem, d, kdata, VPAGES)
    ensures OnlyKernel(w.mem, d, kdata)
  {
    hide Good, Allows, Pte;
    assert KernelFrom(w.mem, d, kdata, USERPAGES);
    forall v: nat | USERPAGES <= v < VPAGES ensures KernelPage(w.mem, d, kdata, v) {
      KernelAccess(w, d, kdata, USERPAGES, v, first);
    }
    forall v: nat | v < USERPAGES ensures !Allows(w.mem, d, v, false, false) {
      EntryDecides(w, d, v, false, false, first);
      assert Pte(w.mem, d, v) == KernelPte(kdata, v);
    }
  }

  ghost predicate KernelPage(mem: seq<Page>, d: nat, kdata: nat, v: nat) {
    && (Allows(mem, d, v, false, true) <==> KernelWritable(kdata, v))
    && (Allows(mem, d, v, false, false) <==> KernelReadable(kdata, v))
    && !Allows(mem, d, v, true, false)
  }

  /** In the upper half the kernel may write and read just these pages, and the user none. */
  ghost predicate AccessOfKernel(mem: seq<Page>, d: nat, kdata: nat) {
    forall v: nat :: USERPAGES <= v < VPAGES ==> KernelPage(mem, d, kdata, v)
  }

  /** And below it nobody may do anything. */
  ghost predicate OnlyKernel(mem: seq<Page>, d: nat, kdata: nat) {
    AccessOfKernel(mem, d, kdata) && forall v: nat :: v < USERPAGES ==> !Allows(mem, d, v, false, false)
  }

  /** After allocuvm. */
  lemma AllocAccess(w: World, d: nat, lo: nat, n: nat, first: nat)
    requires Good(w, first) && HasUse(w.owner, d, Dir)
    requires Pages(w.mem, d, lo, seq(n, _ => Content(7, Filled(0))))
    ensures forall v: nat :: lo <= v < lo + n ==> Allows(w.mem, d, v, true, true)
  {
    hide Good, Allows, Pages, Filled;
    var want := seq(n, _ => Content(7, Filled(0)));
    forall v: nat | lo <= v < lo + n ensures Allows(w.mem, d, v, true, true) {
      PageAccess(w, d, lo, want, v, true, true, first);
    }
  }

  /** Whatever is allowed on a page below hi under p is allowed under d, and nothing else. */
  ghost predicate SameAccess(mem: seq<Page>, p: nat, mem': seq<Page>, d: nat, hi: nat) {
    forall v: nat, user, write :: v < hi ==> (Allows(mem', d, v, user, write) <==> Allows(mem, p, v, user, write))
  }

  /** After copyuvm: m is before, n afterwards. */
  lemma CopyAccess(m: World, n: World, p: nat, d: nat, kdata: nat, hi: nat, first: nat)
    requires Good(m, first) && HasUse(m.owner, p, Dir) && Good(n, first) && HasUse(n.owner, d, Dir)
    requires Pages(n.mem, d, 0, ContentsOf(m.mem, p, hi)) && hi <= USERPAGES
    requires GoodKernel(kdata) && KernelFrom(n.mem, d, kdata, hi) && AllMapped(m.mem, p, hi)
    ensures SameAccess(m.mem, p, n.mem, d, hi) && AccessOfKernel(n.mem, d, kdata)
  {
    hide Good, Allows, Pages, Pte, EntryAllows;
    forall v: nat, user, write | v < hi
      ensures Allows(n.mem, d, v, user, write) <==> Allows(m.mem, p, v, user, write)
    {
      PageAccess(n, d, 0, ContentsOf(m.mem, p, hi), v, user, write, first);
      EntryDecides(m, p, v, user, write, first);
      SameFlags(Pte(m.mem, p, v), user, write);
    }
    forall v: nat | USERPAGES <= v < VPAGES ensures KernelPage(n.mem, d, kdata, v) {
      KernelAccess(n, d, kdata, hi, v, first);
    }
  }

  lemma SameFlags(w: nat, user: bool, write: bool)
    ensures EntryAllows(w % PGSIZE, user, write) <==> EntryAllows(w, user, write)
  {
    FlagBits(w);
  }
}
