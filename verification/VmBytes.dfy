/** The bytes of user memory, and what writing to a user page keeps. */
module VmBytes {
  import opened VmModel
  import opened VmSteps
  import opened VmSpaces

  // ---------------------------------------------------------------- bytes of a page of words

  type Byte = x: int | 0 <= x < 256

  /** Byte j of a word, the low byte first. */
  function ByteIn(w: nat, j: nat): nat {
    if j == 0 then w % 256 else ByteIn(w / 256, j - 1)
  }

  /** The word with byte j set to b. */
  function WithByteIn(w: nat, j: nat, b: Byte): nat {
    var x: int := b;
    if j == 0 then w / 256 * 256 + x else WithByteIn(w / 256, j - 1, b) * 256 + w % 256
  }

  lemma {:induction false} WordBytes(w: nat, j: nat, b: Byte, k: nat)
    ensures ByteIn(WithByteIn(w, j, b), k) == if k == j then b else ByteIn(w, k)
  {
    if j == 0 {
      var x: int := b;
      assert (w / 256 * 256 + x) / 256 == w / 256;
    } else {
      assert (WithByteIn(w / 256, j - 1, b) * 256 + w % 256) / 256 == WithByteIn(w / 256, j - 1, b);
      if k != 0 {
        WordBytes(w / 256, j - 1, b, k - 1);
      }
    }
  }

  function ByteOf(p: Page, o: nat): nat
    requires o < PGSIZE
  {
    ByteIn(p[o / 4], o % 4)
  }

  function WithByte(p: Page, o: nat, b: Byte): Page
    requires o < PGSIZE
  {
    p[o / 4 := WithByteIn(p[o / 4], o % 4, b)]
  }

  lemma WithByteBytes(p: Page, o: nat, b: Byte, q: nat)
    requires o < PGSIZE && q < PGSIZE
    ensures ByteOf(WithByte(p, o, b), q) == if q == o then b else ByteOf(p, q)
  {
    hide ByteIn, WithByteIn;
    WordBytes(p[o / 4], o % 4, b, q % 4);
    assert q == q / 4 * 4 + q % 4 && o == o / 4 * 4 + o % 4;
  }

  /** memmove of bytes into a page at offset o. */
  function WithBytes(p: Page, o: nat, bytes: seq<Byte>): Page
    requires o + |bytes| <= PGSIZE
    decreases |bytes|
  {
    if bytes == [] then p else WithBytes(WithByte(p, o, bytes[0]), o + 1, bytes[1..])
  }

  lemma {:induction false} WithBytesBytes(p: Page, o: nat, bytes: seq<Byte>, q: nat)
    requires o + |bytes| <= PGSIZE && q < PGSIZE
    ensures ByteOf(WithBytes(p, o, bytes), q) == if o <= q < o + |bytes| then bytes[q - o] else ByteOf(p, q)
    decreases |bytes|
  {
    hide ByteOf, WithByte;
    if bytes != [] {
      WithBytesBytes(WithByte(p, o, bytes[0]), o + 1, bytes[1..], q);
      WithByteBytes(p, o, bytes[0], q);
    }
  }

  // ---------------------------------------------------------------- user memory

  /** PTE_U */
  predicate UserBit(pte: nat) {
    pte / 4 % 2 == 1
  }

  /** The byte at user address a under d. */
  function UserByte(mem: seq<Page>, d: nat, a: nat): nat {
    var f := Frame(Pte(mem, d, a / PGSIZE));
    if f < |mem| then ByteOf(mem[f], a % PGSIZE) else 0
  }

  predicate Mapped(mem: seq<Page>, d: nat, a: nat) {
    a < KERNBASE && Present(Pte(mem, d, a / PGSIZE))
  }

  /** The bytes from va on are these; every other byte of d's user memory is as before. */
  ghost predicate Stored(mem: seq<Page>, mem': seq<Page>, d: nat, va: nat, bytes: seq<Byte>) {
    forall a: nat {:trigger UserByte(mem', d, a)} {:trigger UserByte(mem, d, a)} :: Mapped(mem, d, a) ==>
      UserByte(mem', d, a) == if va <= a < va + |bytes| then bytes[a - va] else UserByte(mem, d, a)
  }

  /** User pages of different directories, and different pages of one, are different pages. */
  lemma SeparatePages(w: World, d: nat, u: nat, e: nat, v: nat, first: nat)
    requires Good(w, first) && HasUse(w.owner, d, Dir) && HasUse(w.owner, e, Dir) && u < USERPAGES && v < USERPAGES
    requires Present(Pte(w.mem, d, u)) && Present(Pte(w.mem, e, v))
    requires Frame(Pte(w.mem, d, u)) == Frame(Pte(w.mem, e, v))
    ensures d == e && u == v
  {
    UserPage(w, d, u, first);
    UserPage(w, e, v, first);
    hide Pte, Good, Tree;
  }

  /** A user page of d is rewritten: no translation changes, under d or any other directory. */
  lemma UserWritten(m: World, n: World, d: nat, v: nat, f: nat, first: nat)
    requires Good(m, first) && HasUse(m.owner, d, Dir) && HasUse(m.owner, f, User(d, v)) && f < |m.mem|
    requires |n.mem| == |m.mem| && n == m.(mem := m.mem[f := n.mem[f]])
    ensures Good(n, first) && OnlyUnder(m, n, d) && SamePtes(m.mem, n.mem, d)
    ensures d < |m.mem| && n.mem[d] == m.mem[d]
  {
    TreeOf(m, d, first);
    hide FreeListed, Rooted, Trees;
    assert OnlyUnder(m, n, d);
    UserTree(m.mem, n.mem, m.owner, d, v, f);
    hide Tree, OnlyUnder, SamePtes;
    GoodParts(m, first);
    GoodAfter(m, n, d, first);
  }

  lemma UserTree(mem: seq<Page>, mem': seq<Page>, owner: map<nat, Use>, d: nat, v: nat, f: nat)
    requires Tree(mem, owner, d) && HasUse(owner, d, Dir) && HasUse(owner, f, User(d, v))
    requires |mem'| == |mem| && f < |mem| && mem' == mem[f := mem'[f]]
    ensures Tree(mem', owner, d) && SamePtes(mem, mem', d)
  {
    forall u: nat | u < VPAGES ensures Pte(mem', d, u) == Pte(mem, d, u) {
      var i := u / ENTRIES;
      if Present(mem[d][i]) {
        assert HasUse(owner, Frame(mem[d][i]), Table(d, i));
      }
    }
    hide Pte;
    forall i: nat | i < ENTRIES && Present(mem'[d][i]) ensures HasUse(owner, Frame(mem'[d][i]), Table(d, i)) {
      assert HasUse(owner, Frame(mem[d][i]), Table(d, i));
    }
    forall u: nat | u < USERPAGES && Present(Pte(mem', d, u))
      ensures HasUse(owner, Frame(Pte(mem', d, u)), User(d, u))
    {
      assert HasUse(owner, Frame(Pte(mem, d, u)), User(d, u));
    }
    forall g | g in owner && About(owner[g], g, d) ensures Backed(mem', d, g, owner[g]) {
      assert Backed(mem, d, g, owner[g]);
    }
  }

  /** One turn of copyout: a chunk within one page. */
  lemma ChunkStored(m: World, n: World, d: nat, va: nat, chunk: seq<Byte>, first: nat)
    requires Good(m, first) && HasUse(m.owner, d, Dir) && va + |chunk| <= KERNBASE
    requires chunk != [] && va % PGSIZE + |chunk| <= PGSIZE && Present(Pte(m.mem, d, va / PGSIZE))
    requires
      var f := Frame(Pte(m.mem, d, va / PGSIZE));
      f < |m.mem| && n == m.(mem := m.mem[f := WithBytes(m.mem[f], va % PGSIZE, chunk)])
    requires SamePtes(m.mem, n.mem, d)
    ensures Stored(m.mem, n.mem, d, va, chunk)
  {
    hide ByteOf, WithBytes;
    var f, v := Frame(Pte(m.mem, d, va / PGSIZE)), va / PGSIZE;
    forall a: nat | Mapped(m.mem, d, a)
      ensures UserByte(n.mem, d, a) == if va <= a < va + |chunk| then chunk[a - va] else UserByte(m.mem, d, a)
    {
      SameOne(m.mem, n.mem, d, a / PGSIZE);
      InPage(va, |chunk|, a);
      WithBytesBytes(m.mem[f], va % PGSIZE, chunk, a % PGSIZE);
      if Frame(Pte(m.mem, d, a / PGSIZE)) == f {
        SeparatePages(m, d, a / PGSIZE, d, v, first);
      }
    }
  }

  lemma InPage(va: nat, n: nat, a: nat)
    requires va % PGSIZE + n <= PGSIZE
    ensures va <= a < va + n <==> a / PGSIZE == va / PGSIZE && va % PGSIZE <= a % PGSIZE < va % PGSIZE + n
    ensures a / PGSIZE == va / PGSIZE ==> a - va == a % PGSIZE - va % PGSIZE
  {
    var k, o := va / PGSIZE, va % PGSIZE;
    assert va == k * PGSIZE + o && a == a / PGSIZE * PGSIZE + a % PGSIZE;
    if va <= a < va + n {
      assert k * PGSIZE <= a < (k + 1) * PGSIZE;
    }
  }

  lemma StoredTwice(mem: seq<Page>, mid: seq<Page>, after: seq<Page>, d: nat, va: nat, x: seq<Byte>, y: seq<Byte>)
    requires Stored(mem, mid, d, va, x) && Stored(mid, after, d, va + |x|, y) && SamePtes(mem, mid, d)
    ensures Stored(mem, after, d, va, x + y)
  {
    hide UserByte, Pte;
    forall a: nat | Mapped(mem, d, a)
      ensures UserByte(after, d, a) == if va <= a < va + |x + y| then (x + y)[a - va] else UserByte(mem, d, a)
    {
      SameOne(mem, mid, d, a / PGSIZE);
      assert Mapped(mid, d, a);
      assert UserByte(mid, d, a) == if va <= a < va + |x| then x[a - va] else UserByte(mem, d, a);
    }
  }

  lemma StoredNothing(mem: seq<Page>, d: nat, va: nat)
    ensures Stored(mem, mem, d, va, []) && SamePtes(mem, mem, d)
  {
    hide UserByte, Pte;
  }

  /** The directory has a table for virtual page v. */
  predicate HasTable(mem: seq<Page>, d: nat, v: nat) {
    d < |mem| && v < VPAGES && Present(mem[d][v / ENTRIES])
  }

  /** Virtual page v is the user's to write. */
  predicate UserPageAt(mem: seq<Page>, d: nat, v: nat) {
    Present(Pte(mem, d, v)) && UserBit(Pte(mem, d, v))
  }

  /** The kernel's own pages are not. */
  lemma KernelNotUser(mem: seq<Page>, d: nat, kdata: nat, v: nat)
    requires KernelFrom(mem, d, kdata, USERPAGES) && USERPAGES <= v < VPAGES
    ensures !UserPageAt(mem, d, v)
  {
    hide Pte;
    assert Pte(mem, d, v) == KernelPte(kdata, v);
    NoUserBit(v - USERPAGES, PTE_W + PTE_P);
    NoUserBit(v - USERPAGES, PTE_P);
    NoUserBit(v, PTE_W + PTE_P);
  }

  lemma NoUserBit(f: nat, flags: nat)
    requires flags < 4
    ensures !UserBit(Entry(f, flags))
  {
    assert Entry(f, flags) == 4 * (2 * (512 * f)) + flags;
    assert Entry(f, flags) / 4 == 2 * (512 * f);
  }

  lemma KernelStays(mem: seq<Page>, mem': seq<Page>, d: nat, kdata: nat)
    requires KernelFrom(mem, d, kdata, USERPAGES) && SamePtes(mem, mem', d)
    ensures KernelFrom(mem', d, kdata, USERPAGES)
  {
    hide Pte;
  }

  lemma SamePages(mem: seq<Page>, mem': seq<Page>, d: nat)
    requires SamePtes(mem, mem', d)
    ensures forall v: nat {:trigger UserPageAt(mem', d, v)} :: v < VPAGES ==>
      (UserPageAt(mem', d, v) <==> UserPageAt(mem, d, v))
  {
    hide Pte;
    forall v: nat | v < VPAGES ensures UserPageAt(mem', d, v) <==> UserPageAt(mem, d, v) {
      SameOne(mem, mem', d, v);
    }
  }

  /** All pages that va .. va + len touches are the user's. */
  ghost predicate UserRange(mem: seq<Page>, d: nat, va: nat, len: nat) {
    forall v: nat {:trigger UserPageAt(mem, d, v)} ::
      len > 0 && va / PGSIZE <= v && v * PGSIZE < va + len ==> v < VPAGES && UserPageAt(mem, d, v)
  }

  /** The next chunk of copyout. */
  lemma Chunk(va: nat, done: nat, len: nat, n: nat)
    requires done < len && n == Least(PGSIZE - (va + done) % PGSIZE, len - done)
    ensures n > 0 && (va + done) % PGSIZE + n <= PGSIZE && done + n <= len
    ensures done + n == len || va + done + n == (va + done) / PGSIZE * PGSIZE + PGSIZE
    ensures (va + done) % PGSIZE == va + done - (va + done) / PGSIZE * PGSIZE
    ensures va / PGSIZE <= (va + done) / PGSIZE && (va + done) / PGSIZE * PGSIZE < va + len
  {
    var k, o := (va + done) / PGSIZE, (va + done) % PGSIZE;
    assert va + done == k * PGSIZE + o;
  }

  lemma NotUserRange(mem: seq<Page>, d: nat, va: nat, len: nat, v: nat)
    requires len > 0 && va / PGSIZE <= v && v * PGSIZE < va + len && !UserPageAt(mem, d, v)
    ensures !UserRange(mem, d, va, len)
  {
    hide UserPageAt;
  }

  lemma InUserHalf(mem: seq<Page>, d: nat, kdata: nat, v: nat)
    requires KernelFrom(mem, d, kdata, USERPAGES) && v < VPAGES && UserPageAt(mem, d, v)
    ensures v < USERPAGES && Present(Pte(mem, d, v))
  {
    if v >= USERPAGES {
      KernelNotUser(mem, d, kdata, v);
    }
  }

  lemma LongerUser(mem: seq<Page>, d: nat, va: nat, done: nat, k: nat)
    requires UserRange(mem, d, va, done) && UserPageAt(mem, d, (va + done) / PGSIZE) && (va + done) / PGSIZE < VPAGES
    requires (va + done) % PGSIZE + k <= PGSIZE
    ensures UserRange(mem, d, va, done + k)
  {
    hide UserPageAt;
    var p, o := (va + done) / PGSIZE, (va + done) % PGSIZE;
    assert va + done == p * PGSIZE + o;
    forall v: nat | va / PGSIZE <= v && v * PGSIZE < va + (done + k) ensures v < VPAGES && UserPageAt(mem, d, v) {
      if v < p {
        assert v * PGSIZE + PGSIZE <= p * PGSIZE;
      } else {
        assert v == p;
      }
    }
  }

  lemma NoRange(mem: seq<Page>, d: nat, va: nat)
    ensures UserRange(mem, d, va, 0)
  {
    hide UserPageAt;
  }
}
