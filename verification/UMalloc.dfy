/**
 The user-level heap of umalloc.c: one circular list of free blocks in address order, through a static header of
 size 0. Addresses and sizes count units of one header (8 bytes).
 */
module UMalloc {

  const UNIT: nat := 8               // sizeof(Header)
  const CHUNK: nat := 4096           // least number of units asked of sbrk
  const WORD: nat := 0x1_0000_0000   // unsigned int arithmetic wraps here
  const SBRKMAX: nat := 0x8000_0000  // sbrk takes an int: from here on it would shrink the process

  // ---------------------------------------------------------------- request sizes

  /** malloc's nunits, as 32-bit unsigned arithmetic computes it. */
  function Nunits(nbytes: nat): (n: nat)
    ensures n >= 1
  {
    (nbytes + UNIT - 1) % WORD / UNIT + 1
  }

  /** What morecore hands to sbrk for nu units, again in 32 bits. */
  function SbrkBytes(nu: nat): nat {
    (if nu < CHUNK then CHUNK else nu) * UNIT % WORD
  }

  /** sbrk is asked to grow, and by all the units that morecore makes into a block. */
  predicate SbrkFits(nu: nat) {
    (if nu < CHUNK then CHUNK else nu) * UNIT <= SbrkBytes(nu) < SBRKMAX
  }

  /**
   The arithmetic does its job exactly for requests up to 2^31 - 16 bytes: the units hold the request behind
   their header, and sbrk is asked to grow by all of them. Of larger requests, those that wrap get a block too small;
   the others make sbrk's argument too small or negative.
   */
  lemma RequestFits(nbytes: nat)
    requires nbytes < WORD
    ensures nbytes <= (Nunits(nbytes) - 1) * UNIT <==> nbytes <= WORD - UNIT
    ensures SbrkFits(Nunits(nbytes)) <==> nbytes <= SBRKMAX - 2 * UNIT || nbytes > WORD - UNIT
  {
    if nbytes <= SBRKMAX - 2 * UNIT {
      assert (nbytes + 7) % WORD == nbytes + 7;
      assert Nunits(nbytes) <= SBRKMAX / UNIT - 1;
    } else if nbytes <= WORD - UNIT {
      assert (nbytes + 7) % WORD == nbytes + 7;
      assert SBRKMAX / UNIT <= Nunits(nbytes) <= WORD / UNIT;
    } else {
      assert (nbytes + 7) % WORD == nbytes + 7 - WORD;
      assert Nunits(nbytes) == 1;
    }
  }

  /** When the bytes to ask for pass the two tests there are as many as there should be. */
  lemma BytesFit(nu: nat)
    ensures
      var n := if nu < CHUNK then CHUNK else nu;
      && (SbrkFits(nu) <==> n * UNIT <= SbrkBytes(nu) < SBRKMAX)
      && (SbrkFits(nu) ==> UNIT <= SbrkBytes(nu) && SbrkBytes(nu) % UNIT == 0 && SbrkBytes(nu) / UNIT == n)
  {
    var n := if nu < CHUNK then CHUNK else nu;
    if SbrkFits(nu) {
      assert SbrkBytes(nu) == UNIT * n;
    }
  }

  /** The largest requests wrap to a block that cannot hold one byte. */
  lemma HugeRequestWraps()
    ensures Nunits(WORD - 1) == 1
  {
  }

  // ---------------------------------------------------------------- the ring

  type Words = map<int, int>

  function Next(i: nat, n: nat): nat
    requires i < n
  {
    if i + 1 == n then 0 else i + 1
  }

  /** Steps along the ring from position i to position j. */
  function Dist(i: nat, j: nat, n: nat): nat
    requires i < n && j < n
  {
    if i <= j then j - i else j + n - i
  }

  /** The listed block at position i ends before the one at position j starts, with a gap between them. */
  ghost predicate Apart(ring: seq<int>, size: Words, i: nat, j: nat)
    requires i < |ring| && j < |ring| && ring[i] in size
  {
    ring[i] + size[ring[i]] < ring[j]
  }

  /** Address order, and no two free blocks overlap or touch. */
  ghost predicate Ordered(ring: seq<int>, size: Words)
  {
    && (forall i :: 0 <= i < |ring| ==> ring[i] in size && size[ring[i]] >= 0)
    && (forall i: nat, j: nat {:trigger Apart(ring, size, i, j)} :: i < j < |ring| ==> Apart(ring, size, i, j))
  }

  ghost predicate Link(ring: seq<int>, ptr: Words, i: nat)
    requires i < |ring|
  {
    ring[i] in ptr && ptr[ring[i]] == ring[Next(i, |ring|)]
  }

  /** Following ptr goes once round the list in address order, and wraps once. */
  ghost predicate Linked(ring: seq<int>, ptr: Words)
  {
    forall i: nat {:trigger Link(ring, ptr, i)} :: i < |ring| ==> Link(ring, ptr, i)
  }

  /** The free list: the static header first, then the free blocks, none empty. */
  ghost predicate FreeList(base: int, ring: seq<int>, ptr: Words, size: Words)
  {
    && |ring| >= 1 && ring[0] == base
    && Ordered(ring, size) && Linked(ring, ptr)
    && size[base] == 0
    && forall i :: 1 <= i < |ring| ==> size[ring[i]] >= 1
  }

  /** No block is listed twice. */
  lemma PositionsDiffer(ring: seq<int>, size: Words, i: nat, j: nat)
    requires Ordered(ring, size) && i < |ring| && j < |ring|
    ensures ring[i] == ring[j] <==> i == j
    ensures ring[i] < ring[j] <==> i < j
  {
    if i < j {
      assert Apart(ring, size, i, j);
    } else if j < i {
      assert Apart(ring, size, j, i);
    }
  }

  // ---------------------------------------------------------------- who owns each unit

  /** All blocks, free and live, by address, with their sizes in units. */
  type Blocks = map<int, int>

  ghost predicate Within(blocks: Blocks, b: int, x: int)
    requires b in blocks
  {
    b <= x < b + blocks[b]
  }

  /**
   Every unit ever obtained belongs to exactly one block and every block owns just its own units: blocks never
   overlap, and none of the memory is lost.
   */
  ghost predicate Cover(blocks: Blocks, owner: map<int, int>)
  {
    && (forall b, x {:trigger Within(blocks, b, x)} :: b in blocks && Within(blocks, b, x) ==>
      x in owner && owner[x] == b)
    && (forall x :: x in owner ==> owner[x] in blocks && Within(blocks, owner[x], x))
    && (forall b :: b in blocks ==> blocks[b] >= 1)
  }

  /** Blocks are pairwise disjoint. */
  lemma BlocksDisjoint(blocks: Blocks, owner: map<int, int>, a: int, b: int)
    requires Cover(blocks, owner) && a in blocks && b in blocks && a < b
    ensures a + blocks[a] <= b
  {
    assert Within(blocks, b, b);
    assert !Within(blocks, a, b);
  }

  /** The units lo .. hi get a new owner. */
  ghost function Relabel(owner: map<int, int>, lo: int, hi: int, to: int): (r: map<int, int>)
    ensures forall x {:trigger x in r} {:trigger x in owner} :: x in r <==> x in owner
    ensures forall x {:trigger r[x]} {:trigger owner[x]} :: x in owner ==> r[x] == if lo <= x < hi then to else owner[x]
  {
    map x | x in owner :: if lo <= x < hi then to else owner[x]
  }

  /** Block a takes over its upper neighbour b. */
  lemma CoverMerge(blocks: Blocks, owner: map<int, int>, a: int, b: int)
    requires Cover(blocks, owner) && a in blocks && b in blocks && a + blocks[a] == b
    ensures Cover(blocks[a := blocks[a] + blocks[b]] - {b}, Relabel(owner, b, b + blocks[b], a))
  {
    var blocks', owner' := blocks[a := blocks[a] + blocks[b]] - {b}, Relabel(owner, b, b + blocks[b], a);
    forall c, x {:trigger Within(blocks', c, x)} | c in blocks' && Within(blocks', c, x)
      ensures x in owner' && owner'[x] == c
    {
      if c == a && b <= x {
        assert Within(blocks, b, x);
      } else {
        assert Within(blocks, c, x);
        assert b <= x < b + blocks[b] ==> Within(blocks, b, x);
      }
    }
    forall x | x in owner' ensures owner'[x] in blocks' && Within(blocks', owner'[x], x) {
      assert Within(blocks, b, x) <==> owner[x] == b;
    }
  }

  /** The last n units of block a become a block of their own. */
  lemma CoverSplit(blocks: Blocks, owner: map<int, int>, a: int, n: int)
    requires Cover(blocks, owner) && a in blocks && 1 <= n < blocks[a]
    ensures
      var h := a + blocks[a] - n;
      && h !in blocks
      && Cover(blocks[a := blocks[a] - n][h := n], Relabel(owner, h, h + n, h))
  {
    var h := a + blocks[a] - n;
    assert Within(blocks, a, h);
    assert h in blocks ==> Within(blocks, h, h);
    var blocks', owner' := blocks[a := blocks[a] - n][h := n], Relabel(owner, h, h + n, h);
    forall c, x {:trigger Within(blocks', c, x)} | c in blocks' && Within(blocks', c, x)
      ensures x in owner' && owner'[x] == c
    {
      assert Within(blocks, if c == h then a else c, x);
      assert h <= x < h + n ==> Within(blocks, a, x);
    }
    forall x | x in owner' ensures owner'[x] in blocks' && Within(blocks', owner'[x], x) {
      assert h <= x < h + n ==> Within(blocks, a, x);
    }
  }

  /** The old units and the n fresh ones from p on. */
  ghost function Grown(owner: map<int, int>, p: int, n: int): (r: map<int, int>)
    ensures forall x {:trigger x in r} {:trigger x in owner} :: x in r <==> x in owner || p <= x < p + n
    ensures forall x {:trigger r[x]} :: x in r ==> r[x] == if p <= x < p + n then p else owner[x]
  {
    owner + (map x: int {:trigger x in owner} | p <= x < p + n :: p)
  }

  /** One call of sbrk: the units asked for, and the address of the first one or 0. */
  datatype Grant = Grant(units: int, at: int)

  ghost predicate GivenBy(g: Grant, x: int) {
    g.at != 0 && g.at <= x < g.at + g.units
  }

  /** Unit x came from sbrk. */
  ghost predicate Given(grants: seq<Grant>, x: int) {
    exists k :: 0 <= k < |grants| && GivenBy(grants[k], x)
  }

  lemma GivenMore(grants: seq<Grant>, g: Grant, x: int)
    ensures Given(grants + [g], x) <==> Given(grants, x) || GivenBy(g, x)
  {
    var more := grants + [g];
    assert more[|grants|] == g;
    assert forall k :: 0 <= k < |grants| ==> more[k] == grants[k];
  }

  /** The units that have an owner are those that sbrk has given. */
  ghost predicate AllGiven(grants: seq<Grant>, owner: map<int, int>) {
    forall x :: x in owner <==> Given(grants, x)
  }

  lemma AllGivenMore(grants: seq<Grant>, owner: map<int, int>, p: int, n: int)
    requires AllGiven(grants, owner)
    ensures p == 0 ==> AllGiven(grants + [Grant(n, p)], owner)
    ensures p != 0 ==> AllGiven(grants + [Grant(n, p)], Grown(owner, p, n))
  {
    hide Given;
    forall x: int ensures Given(grants + [Grant(n, p)], x) <==> Given(grants, x) || GivenBy(Grant(n, p), x) {
      GivenMore(grants, Grant(n, p), x);
    }
  }

  /** n fresh units above everything obtained so far form a new block. */
  lemma CoverGrow(blocks: Blocks, owner: map<int, int>, p: int, n: int)
    requires Cover(blocks, owner) && n >= 1
    requires forall x :: x in owner ==> x < p
    ensures p !in blocks
    ensures Cover(blocks[p := n], Grown(owner, p, n))
  {
    assert p in blocks ==> Within(blocks, p, p);
    var blocks', owner' := blocks[p := n], Grown(owner, p, n);
    forall c, x {:trigger Within(blocks', c, x)} | c in blocks' && Within(blocks', c, x)
      ensures x in owner' && owner'[x] == c
    {
      assert c != p ==> Within(blocks, c, x);
    }
    forall x | x in owner' ensures owner'[x] in blocks' && Within(blocks', owner'[x], x) {
      assert x in owner ==> Within(blocks, owner[x], x);
    }
  }

  /** The listed blocks are exactly the blocks that are not live, and headers tell the sizes. */
  ghost predicate Sorted(base: int, ring: seq<int>, size: Words, live: Blocks, blocks: Blocks)
  {
    && base !in blocks
    && (forall b :: b in blocks ==> b in size && size[b] == blocks[b])
    && (forall b :: b in blocks ==> (b in live <==> b !in ring))
    && (forall a :: a in live ==> a in blocks && live[a] == blocks[a])
    && (forall i :: 1 <= i < |ring| ==> ring[i] in blocks)
  }

  // ---------------------------------------------------------------- freeing: where, and what it does to the list

  /** The position of the last listed block below bp. */
  ghost function Slot(ring: seq<int>, bp: int): (t: nat)
    requires |ring| >= 1 && ring[0] < bp && bp !in ring
    ensures t < |ring| && ring[t] < bp && (t + 1 < |ring| ==> bp < ring[t + 1])
  {
    var last := |ring| - 1;
    if ring[last] < bp then last else Slot(ring[..last], bp)
  }

  /** Where the element at position i of the list comes from when bp enters after position t. */
  function Inserted(ring: seq<int>, t: nat, bp: int): (r: seq<int>)
    requires t < |ring|
    ensures |r| == |ring| + 1
    ensures forall i :: 0 <= i < |r| ==> r[i] == if i <= t then ring[i] else if i == t + 1 then bp else ring[i - 1]
  {
    ring[..t + 1] + [bp] + ring[t + 1..]
  }

  /** The list without position t. */
  function Removed(ring: seq<int>, t: nat): (r: seq<int>)
    requires t < |ring|
    ensures |r| == |ring| - 1
    ensures forall i :: 0 <= i < |r| ==> r[i] == if i < t then ring[i] else ring[i + 1]
  {
    ring[..t] + ring[t + 1..]
  }

  lemma OrderAlone(ring: seq<int>, size: Words, t: nat, bp: int)
    requires Ordered(ring, size) && t < |ring|
    requires bp in size && size[bp] >= 1
    requires ring[t] + size[ring[t]] < bp
    requires t + 1 < |ring| ==> bp + size[bp] < ring[t + 1]
    ensures Ordered(Inserted(ring, t, bp), size)
  {
    var r := Inserted(ring, t, bp);
    forall i: nat, j: nat {:trigger Apart(r, size, i, j)} | i < j < |r| ensures Apart(r, size, i, j) {
      var i', j' := if i <= t then i else i - 1, if j <= t then j else j - 1;
      assert i' < j' ==> Apart(ring, size, i', j');
      assert i' < t ==> Apart(ring, size, i', t);
      assert t + 1 < j' ==> Apart(ring, size, t + 1, j');
    }
  }

  lemma LinksAlone(ring: seq<int>, ptr: Words, t: nat, bp: int)
    requires Linked(ring, ptr) && t < |ring| && ring[t] in ptr && bp !in ring
    requires forall i :: 0 <= i < |ring| && i != t ==> ring[i] != ring[t]
    ensures Linked(Inserted(ring, t, bp), ptr[bp := ptr[ring[t]]][ring[t] := bp])
  {
    var r, ptr' := Inserted(ring, t, bp), ptr[bp := ptr[ring[t]]][ring[t] := bp];
    forall i: nat {:trigger Link(r, ptr', i)} | i < |r| ensures Link(r, ptr', i) {
      assert Link(ring, ptr, t);
      if i < t {
        assert Link(ring, ptr, i);
      } else if i > t + 1 {
        assert Link(ring, ptr, i - 1);
      }
    }
  }

  /** bp enters the list on its own, between its neighbours. */
  lemma LinkAlone(base: int, ring: seq<int>, ptr: Words, size: Words, t: nat, bp: int)
    requires FreeList(base, ring, ptr, size) && t < |ring| && ring[t] in ptr
    requires bp in size && size[bp] >= 1 && bp !in ring
    requires ring[t] + size[ring[t]] < bp
    requires t + 1 < |ring| ==> bp + size[bp] < ring[t + 1]
    ensures FreeList(base, Inserted(ring, t, bp), ptr[bp := ptr[ring[t]]][ring[t] := bp], size)
  {
    hide Ordered, Linked;
    forall i | 0 <= i < |ring| && i != t ensures ring[i] != ring[t] {
      PositionsDiffer(ring, size, i, t);
    }
    OrderAlone(ring, size, t, bp);
    LinksAlone(ring, ptr, t, bp);
  }

  /** bp swallows its upper neighbour q, listed at t + 1. */
  lemma LinkUpper(base: int, ring: seq<int>, ptr: Words, size: Words, t: nat, bp: int)
    requires FreeList(base, ring, ptr, size) && t + 1 < |ring| && ring[t + 1] in ptr
    requires bp in size && size[bp] >= 1
    requires ring[t] + size[ring[t]] < bp && bp + size[bp] == ring[t + 1]
    ensures
      var q := ring[t + 1];
      FreeList(base, ring[t + 1 := bp], ptr[bp := ptr[q]][ring[t] := bp], size[bp := size[bp] + size[q]])
  {
    var q := ring[t + 1];
    var r, ptr', size' := ring[t + 1 := bp], ptr[bp := ptr[q]][ring[t] := bp], size[bp := size[bp] + size[q]];
    forall i | 0 <= i < |ring| && i != t + 1 ensures ring[i] != bp {
      PositionsDiffer(ring, size, i, t);
      PositionsDiffer(ring, size, i, t + 1);
    }
    forall i: nat, j: nat {:trigger Apart(r, size', i, j)} | i < j < |r| ensures Apart(r, size', i, j) {
      assert Apart(ring, size, i, j);
      assert i < t ==> Apart(ring, size, i, t);
    }
    forall i: nat {:trigger Link(r, ptr', i)} | i < |r| ensures Link(r, ptr', i) {
      PositionsDiffer(ring, size, i, t);
      PositionsDiffer(ring, size, Next(i, |ring|), t + 1);
      assert Link(ring, ptr, i);
    }
  }

  /** The lower neighbour, listed at t, swallows bp. */
  lemma LinkLower(base: int, ring: seq<int>, ptr: Words, size: Words, t: nat, bp: int)
    requires FreeList(base, ring, ptr, size) && t < |ring| && ring[t] in ptr
    requires bp in size && size[bp] >= 1 && bp !in ring
    requires ring[t] + size[ring[t]] == bp && t >= 1
    requires t + 1 < |ring| ==> bp + size[bp] < ring[t + 1]
    ensures
      var p := ring[t];
      FreeList(base, ring, ptr[bp := ptr[p]][p := ptr[p]], size[p := size[p] + size[bp]])
  {
    var p := ring[t];
    var ptr', size' := ptr[bp := ptr[p]][p := ptr[p]], size[p := size[p] + size[bp]];
    forall i: nat, j: nat {:trigger Apart(ring, size', i, j)} | i < j < |ring| ensures Apart(ring, size', i, j) {
      assert Apart(ring, size, i, j);
      PositionsDiffer(ring, size, i, t);
      assert t + 1 < j ==> Apart(ring, size, t + 1, j);
    }
    forall i: nat {:trigger Link(ring, ptr', i)} | i < |ring| ensures Link(ring, ptr', i) {
      PositionsDiffer(ring, size, i, t);
      assert Link(ring, ptr, i) && Link(ring, ptr, t);
    }
    forall i | 1 <= i < |ring| ensures size'[ring[i]] >= 1 {
    }
    PositionsDiffer(ring, size, 0, t);
  }

  lemma OrderBoth(ring: seq<int>, size: Words, t: nat, n: int)
    requires Ordered(ring, size) && t + 1 < |ring|
    requires n >= 0 && ring[t] + n == ring[t + 1] + size[ring[t + 1]]
    ensures Ordered(Removed(ring, t + 1), size[ring[t] := n])
  {
    var r, size' := Removed(ring, t + 1), size[ring[t] := n];
    forall i: nat, j: nat {:trigger Apart(r, size', i, j)} | i < j < |r| ensures Apart(r, size', i, j) {
      var i', j' := if i <= t then i else i + 1, if j <= t then j else j + 1;
      PositionsDiffer(ring, size, i', t);
      assert Apart(ring, size, i', j');
      assert t + 1 < j' ==> Apart(ring, size, t + 1, j');
    }
  }

  lemma LinksBoth(ring: seq<int>, ptr: Words, t: nat)
    requires Linked(ring, ptr) && t + 1 < |ring| && ring[t + 1] in ptr
    requires forall i :: 0 <= i < |ring| && i != t ==> ring[i] != ring[t]
    ensures Linked(Removed(ring, t + 1), ptr[ring[t] := ptr[ring[t + 1]]])
  {
    var r, ptr' := Removed(ring, t + 1), ptr[ring[t] := ptr[ring[t + 1]]];
    forall i: nat {:trigger Link(r, ptr', i)} | i < |r| ensures Link(r, ptr', i) {
      assert Link(ring, ptr, if i <= t then i else i + 1) && Link(ring, ptr, t + 1);
    }
  }

  /** Headers of blocks that are not listed do not matter. */
  lemma Unlisted(ring: seq<int>, ptr: Words, size: Words, bp: int, next: int, n: int)
    requires Ordered(ring, size) && Linked(ring, ptr) && bp !in ring
    ensures Ordered(ring, size[bp := n]) && Linked(ring, ptr[bp := next])
  {
    var size', ptr' := size[bp := n], ptr[bp := next];
    forall i: nat, j: nat {:trigger Apart(ring, size', i, j)} | i < j < |ring| ensures Apart(ring, size', i, j) {
      assert Apart(ring, size, i, j);
    }
    forall i: nat {:trigger Link(ring, ptr', i)} | i < |ring| ensures Link(ring, ptr', i) {
      assert Link(ring, ptr, i);
    }
  }

  /** Both neighbours and bp become one block. */
  lemma LinkBoth(base: int, ring: seq<int>, ptr: Words, size: Words, t: nat, bp: int)
    requires FreeList(base, ring, ptr, size) && 1 <= t && t + 1 < |ring| && ring[t + 1] in ptr
    requires bp in size && size[bp] >= 1 && bp !in ring
    requires ring[t] + size[ring[t]] == bp && bp + size[bp] == ring[t + 1]
    ensures
      var p, q := ring[t], ring[t + 1];
      var size' := size[bp := size[bp] + size[q]];
      FreeList(base, Removed(ring, t + 1), ptr[bp := ptr[q]][p := ptr[q]], size'[p := size'[p] + size'[bp]])
  {
    hide Linked;
    var p, q := ring[t], ring[t + 1];
    var size' := size[bp := size[bp] + size[q]];
    Unlisted(ring, ptr, size, bp, ptr[q], size'[bp]);
    forall i | 0 <= i < |ring| && i != t ensures ring[i] != p {
      PositionsDiffer(ring, size, i, t);
    }
    OrderBoth(ring, size', t, size'[p] + size'[bp]);
    LinksBoth(ring, ptr[bp := ptr[q]], t);
  }

  /** The test of free's search loop succeeds at the right place and nowhere else, and each step comes nearer. */
  lemma Place(base: int, ring: seq<int>, ptr: Words, size: Words, k: nat, t: nat, bp: int)
    requires FreeList(base, ring, ptr, size) && base < bp && bp !in ring
    requires k < |ring| && t < |ring| && ring[t] < bp && (t + 1 < |ring| ==> bp < ring[t + 1])
    ensures ring[k] in ptr && ptr[ring[k]] == ring[Next(k, |ring|)]
    ensures
      var p := ring[k];
      (bp > p && bp < ptr[p]) || (p >= ptr[p] && (bp > p || bp < ptr[p])) <==> k == t
    ensures k != t ==> Dist(Next(k, |ring|), t, |ring|) < Dist(k, t, |ring|)
  {
    assert Link(ring, ptr, k);
    PositionsDiffer(ring, size, k, t);
    PositionsDiffer(ring, size, k, Next(k, |ring|));
    if k < t {
      PositionsDiffer(ring, size, k + 1, t);
    } else if t < k {
      PositionsDiffer(ring, size, t + 1, k);
    }
  }

  /** All the heap's invariants at once, for a heap whose list is set up. */
  ghost predicate Good(base: int, ring: seq<int>, ptr: Words, size: Words, live: Blocks, blocks: Blocks,
          owner: map<int, int>)
  {
    FreeList(base, ring, ptr, size) && Sorted(base, ring, size, live, blocks) && Cover(blocks, owner)
  }

  /** The free neighbours that the list gives for bp leave room for it. */
  lemma Room(base: int, ring: seq<int>, ptr: Words, size: Words, live: Blocks, blocks: Blocks, owner: map<int, int>,
          t: nat, bp: int)
    requires Good(base, ring, ptr, size, live, blocks, owner)
    requires bp in live && base < bp
    requires t < |ring| && ring[t] < bp && (t + 1 < |ring| ==> bp < ring[t + 1])
    ensures bp in size && size[bp] >= 1 && bp !in ring
    ensures ring[t] in size && ring[t] + size[ring[t]] <= bp && (t == 0 ==> size[ring[t]] == 0)
    ensures t + 1 < |ring| ==> ring[t + 1] in size && bp + size[bp] <= ring[t + 1]
    ensures ring[t] in ptr && ptr[ring[t]] in ptr && ptr[ring[t]] in size
    ensures ptr[ring[t]] == if t + 1 < |ring| then ring[t + 1] else base
  {
    hide Cover;
    if t >= 1 {
      BlocksDisjoint(blocks, owner, ring[t], bp);
    }
    if t + 1 < |ring| {
      BlocksDisjoint(blocks, owner, bp, ring[t + 1]);
    }
    assert Link(ring, ptr, t) && Link(ring, ptr, Next(t, |ring|));
    assert forall b :: b in blocks ==> blocks[b] >= 1 by {
      BlocksNotEmpty(blocks, owner);
    }
  }

  lemma BlocksNotEmpty(blocks: Blocks, owner: map<int, int>)
    requires Cover(blocks, owner)
    ensures forall b :: b in blocks ==> blocks[b] >= 1
  {
  }

  lemma SortedAlone(base: int, ring: seq<int>, size: Words, live: Blocks, blocks: Blocks, t: nat, bp: int)
    requires Sorted(base, ring, size, live, blocks) && t < |ring| && bp in live
    ensures Sorted(base, Inserted(ring, t, bp), size, live - {bp}, blocks)
  {
    var r := Inserted(ring, t, bp);
    assert r[t + 1] == bp;
    forall b | b in blocks ensures b in r <==> b in ring || b == bp {
      if b in ring {
        var i :| 0 <= i < |ring| && ring[i] == b;
        assert r[if i <= t then i else i + 1] == b;
      }
    }
  }

  lemma SortedUpper(base: int, ring: seq<int>, size: Words, live: Blocks, blocks: Blocks, t: nat, bp: int)
    requires Sorted(base, ring, size, live, blocks) && t + 1 < |ring| && bp in live
    requires forall i :: 0 <= i < |ring| && i != t + 1 ==> ring[i] != ring[t + 1]
    ensures
      var q := ring[t + 1];
      q in blocks && Sorted(base, ring[t + 1 := bp], size[bp := size[bp] + size[q]], live - {bp},
        blocks[bp := blocks[bp] + blocks[q]] - {q})
  {
    var q := ring[t + 1];
    var r := ring[t + 1 := bp];
    assert r[t + 1] == bp;
    forall b | b in blocks && b != q ensures b in r <==> b in ring || b == bp {
      if b in ring {
        var i :| 0 <= i < |ring| && ring[i] == b;
        assert r[i] == b;
      }
    }
  }

  lemma SortedLower(base: int, ring: seq<int>, size: Words, live: Blocks, blocks: Blocks, t: nat, bp: int)
    requires Sorted(base, ring, size, live, blocks) && 1 <= t < |ring| && bp in live
    ensures
      var p := ring[t];
      p in blocks && Sorted(base, ring, size[p := size[p] + size[bp]], live - {bp},
        blocks[p := blocks[p] + blocks[bp]] - {bp})
  {
    assert ring[t] in ring;
  }

  lemma SortedBoth(base: int, ring: seq<int>, size: Words, live: Blocks, blocks: Blocks, t: nat, bp: int)
    requires Sorted(base, ring, size, live, blocks) && 1 <= t && t + 1 < |ring| && bp in live
    requires forall i :: 0 <= i < |ring| && i != t + 1 ==> ring[i] != ring[t + 1]
    ensures
      var p, q := ring[t], ring[t + 1];
      var size' := size[bp := size[bp] + size[q]];
      && p in blocks && q in blocks && p != q
      && var blocks' := blocks[bp := blocks[bp] + blocks[q]] - {q};
         Sorted(base, Removed(ring, t + 1), size'[p := size'[p] + size'[bp]], live - {bp},
           blocks'[p := blocks'[p] + blocks'[bp]] - {bp})
  {
    var r := Removed(ring, t + 1);
    assert ring[t] in ring && ring[t + 1] in ring;
    forall b | b in blocks && b != ring[t + 1] ensures b in r <==> b in ring {
      if b in ring {
        var i :| 0 <= i < |ring| && ring[i] == b;
        assert r[if i <= t then i else i - 1] == b;
      }
    }
  }

  /** The place found for bp: Room's facts, and position t is unique. */
  ghost predicate Found(base: int, ring: seq<int>, ptr: Words, size: Words, live: Blocks, t: nat, bp: int)
  {
    && bp in live && t < |ring| && ring[t] in size && ring[t] in ptr && bp in size && size[bp] >= 1 && bp !in ring
    && (t == 0 ==> size[ring[t]] == 0 && ring[t] < bp)
    && size[ring[t]] >= 0 && (t + 1 < |ring| ==> ring[t + 1] in size && size[ring[t + 1]] >= 1)
    && ptr[ring[t]] in ptr && ptr[ring[t]] in size
    && ptr[ring[t]] == (if t + 1 < |ring| then ring[t + 1] else base)
    && (forall i :: 0 <= i < |ring| && i != t + 1 && t + 1 < |ring| ==> ring[i] != ring[t + 1])
  }

  lemma FreedAlone(base: int, ring: seq<int>, ptr: Words, size: Words, live: Blocks, blocks: Blocks,
          owner: map<int, int>, t: nat, bp: int)
      returns (ring': seq<int>)
    requires Good(base, ring, ptr, size, live, blocks, owner) && Found(base, ring, ptr, size, live, t, bp)
    requires ring[t] + size[ring[t]] < bp && (t + 1 < |ring| ==> bp + size[bp] < ring[t + 1])
    ensures Good(base, ring', ptr[bp := ptr[ring[t]]][ring[t] := bp], size, live - {bp}, blocks, owner)
    ensures ring[t] in ring' && bp in ring' && ring' == Inserted(ring, t, bp)
  {
    hide FreeList, Sorted, Cover;
    LinkAlone(base, ring, ptr, size, t, bp) by { FreeListPositions(base, ring, ptr, size); }
    SortedAlone(base, ring, size, live, blocks, t, bp);
    ring' := Inserted(ring, t, bp);
    assert ring'[t] == ring[t] && ring'[t + 1] == bp;
  }

  lemma FreeListPositions(base: int, ring: seq<int>, ptr: Words, size: Words)
    requires FreeList(base, ring, ptr, size)
    ensures |ring| >= 1 && ring[0] == base
    ensures forall i :: 0 <= i < |ring| ==> ring[i] in size
  {
  }

  lemma FreedUpper(base: int, ring: seq<int>, ptr: Words, size: Words, live: Blocks, blocks: Blocks,
          owner: map<int, int>, t: nat, bp: int)
      returns (ring': seq<int>, blocks': Blocks, owner': map<int, int>)
    requires Good(base, ring, ptr, size, live, blocks, owner) && Found(base, ring, ptr, size, live, t, bp)
    requires ring[t] + size[ring[t]] < bp && t + 1 < |ring| && bp + size[bp] == ring[t + 1]
    ensures
      var q := ring[t + 1];
      Good(base, ring', ptr[bp := ptr[q]][ring[t] := bp], size[bp := size[bp] + size[q]], live - {bp}, blocks', owner')
    ensures owner'.Keys == owner.Keys && ring[t] in ring' && bp in ring' && ring' == ring[t + 1 := bp]
  {
    hide FreeList, Cover;
    var q := ring[t + 1];
    LinkUpper(base, ring, ptr, size, t, bp);
    SortedUpper(base, ring, size, live, blocks, t, bp);
    CoverMerge(blocks, owner, bp, q);
    ring' := ring[t + 1 := bp];
    assert ring'[t] == ring[t] && ring'[t + 1] == bp;
    blocks' := blocks[bp := blocks[bp] + blocks[q]] - {q};
    owner' := Relabel(owner, q, q + blocks[q], bp);
  }

  lemma FreedLower(base: int, ring: seq<int>, ptr: Words, size: Words, live: Blocks, blocks: Blocks,
          owner: map<int, int>, t: nat, bp: int)
      returns (blocks': Blocks, owner': map<int, int>)
    requires Good(base, ring, ptr, size, live, blocks, owner) && Found(base, ring, ptr, size, live, t, bp)
    requires ring[t] + size[ring[t]] == bp && (t + 1 < |ring| ==> bp + size[bp] < ring[t + 1])
    ensures
      var p := ring[t];
      Good(base, ring, ptr[bp := ptr[p]][p := ptr[p]], size[p := size[p] + size[bp]], live - {bp}, blocks', owner')
    ensures owner'.Keys == owner.Keys
  {
    hide FreeList, Cover;
    var p := ring[t];
    LinkLower(base, ring, ptr, size, t, bp);
    SortedLower(base, ring, size, live, blocks, t, bp);
    CoverMerge(blocks, owner, p, bp);
    blocks' := blocks[p := blocks[p] + blocks[bp]] - {bp};
    owner' := Relabel(owner, bp, bp + blocks[bp], p);
  }

  lemma FreedBoth(base: int, ring: seq<int>, ptr: Words, size: Words, live: Blocks, blocks: Blocks,
          owner: map<int, int>, t: nat, bp: int)
      returns (ring': seq<int>, blocks': Blocks, owner': map<int, int>)
    requires Good(base, ring, ptr, size, live, blocks, owner) && Found(base, ring, ptr, size, live, t, bp)
    requires ring[t] + size[ring[t]] == bp && t + 1 < |ring| && bp + size[bp] == ring[t + 1]
    ensures
      var p, q := ring[t], ring[t + 1];
      var size' := size[bp := size[bp] + size[q]];
      Good(base, ring', ptr[bp := ptr[q]][p := ptr[q]], size'[p := size'[p] + size'[bp]], live - {bp}, blocks', owner')
    ensures owner'.Keys == owner.Keys && ring[t] in ring' && ring' == Removed(ring, t + 1)
  {
    hide FreeList, Cover;
    var p, q := ring[t], ring[t + 1];
    LinkBoth(base, ring, ptr, size, t, bp);
    SortedBoth(base, ring, size, live, blocks, t, bp);
    ring' := Removed(ring, t + 1);
    assert ring'[t] == p;
    CoverMerge(blocks, owner, bp, q);
    var blocks1 := blocks[bp := blocks[bp] + blocks[q]] - {q};
    var owner1 := Relabel(owner, q, q + blocks[q], bp);
    CoverMerge(blocks1, owner1, p, bp);
    blocks' := blocks1[p := blocks1[p] + blocks1[bp]] - {bp};
    owner' := Relabel(owner1, bp, bp + blocks1[bp], p);
  }

  /** No word inside a block that is in use has changed. */
  ghost predicate Untouched(live: Blocks, ptr: Words, size: Words, ptr': Words, size': Words)
  {
    forall a, x {:trigger Inside(live, a, x)} :: a in live && Inside(live, a, x) ==>
      && (x in ptr' <==> x in ptr) && (x in ptr ==> ptr'[x] == ptr[x])
      && (x in size' <==> x in size) && (x in size ==> size'[x] == size[x])
  }

  /** x is a unit of live block a behind its header. */
  ghost predicate Inside(live: Blocks, a: int, x: int)
    requires a in live
  {
    a < x < a + live[a]
  }

  /** Writing headers of blocks, or the static header, touches nothing inside a block in use. */
  lemma HeadersOnly(base: int, ring: seq<int>, ptr: Words, size: Words, live: Blocks, blocks: Blocks,
          owner: map<int, int>, ptr': Words, size': Words, p: int, b: int)
    requires Sorted(base, ring, size, live, blocks) && Cover(blocks, owner) && base !in owner
    requires p in blocks || p == base
    requires b in blocks || b == base
    requires forall x :: x != p && x != b ==>
      && (x in ptr' <==> x in ptr) && (x in ptr ==> ptr'[x] == ptr[x])
      && (x in size' <==> x in size) && (x in size ==> size'[x] == size[x])
    ensures Untouched(live, ptr, size, ptr', size')
  {
    forall a, x {:trigger Inside(live, a, x)} | a in live && Inside(live, a, x) ensures x != p && x != b {
      assert Within(blocks, a, x);
      assert p in blocks ==> Within(blocks, p, p);
      assert b in blocks ==> Within(blocks, b, b);
    }
  }

  lemma FewerUntouched(live: Blocks, bp: int, ptr: Words, size: Words, ptr': Words, size': Words)
    requires Untouched(live, ptr, size, ptr', size')
    ensures Untouched(live - {bp}, ptr, size, ptr', size')
  {
    forall a, x {:trigger Inside(live - {bp}, a, x)} | a in live - {bp} && Inside(live - {bp}, a, x)
      ensures Inside(live, a, x)
    {
    }
  }

  lemma PlaceFound(base: int, ring: seq<int>, ptr: Words, size: Words, live: Blocks, blocks: Blocks,
          owner: map<int, int>, t: nat, bp: int)
    requires Good(base, ring, ptr, size, live, blocks, owner) && bp in live && base < bp
    requires t < |ring| && ring[t] < bp && (t + 1 < |ring| ==> bp < ring[t + 1])
    ensures Found(base, ring, ptr, size, live, t, bp)
    ensures ring[t] in blocks || ring[t] == base
    ensures ring[t] >= base
  {
    hide Cover;
    PositionsDiffer(ring, size, 0, t);
    Room(base, ring, ptr, size, live, blocks, owner, t, bp);
    if t + 1 < |ring| {
      forall i | 0 <= i < |ring| && i != t + 1 ensures ring[i] != ring[t + 1] {
        PositionsDiffer(ring, size, i, t + 1);
      }
    }
  }

  // ---------------------------------------------------------------- allocating: what it does to the list

  /** The block at position k leaves the list. */
  lemma LinkRemoved(base: int, ring: seq<int>, ptr: Words, size: Words, k: nat)
    requires FreeList(base, ring, ptr, size) && 1 <= k < |ring| && ring[k] in ptr
    ensures FreeList(base, Removed(ring, k), ptr[ring[k - 1] := ptr[ring[k]]], size)
  {
    var r, ptr' := Removed(ring, k), ptr[ring[k - 1] := ptr[ring[k]]];
    forall i: nat, j: nat {:trigger Apart(r, size, i, j)} | i < j < |r| ensures Apart(r, size, i, j) {
      assert Apart(ring, size, if i < k then i else i + 1, if j < k then j else j + 1);
    }
    forall i: nat {:trigger Link(r, ptr', i)} | i < |r| ensures Link(r, ptr', i) {
      var i' := if i < k then i else i + 1;
      PositionsDiffer(ring, size, i', k - 1);
      assert Link(ring, ptr, i') && Link(ring, ptr, k);
    }
  }

  /** The block at position k keeps fewer units. */
  lemma LinkShrunk(base: int, ring: seq<int>, ptr: Words, size: Words, k: nat, n: int, h: int, m: int)
    requires FreeList(base, ring, ptr, size) && 1 <= k < |ring| && 1 <= n < size[ring[k]] && h !in ring
    ensures FreeList(base, ring, ptr, size[ring[k] := n][h := m])
  {
    var size' := size[ring[k] := n][h := m];
    forall i: nat, j: nat {:trigger Apart(ring, size', i, j)} | i < j < |ring| ensures Apart(ring, size', i, j) {
      PositionsDiffer(ring, size, i, k);
      assert Apart(ring, size, i, j);
    }
    PositionsDiffer(ring, size, 0, k);
  }

  lemma SortedRemoved(base: int, ring: seq<int>, size: Words, live: Blocks, blocks: Blocks, k: nat)
    requires Sorted(base, ring, size, live, blocks) && 1 <= k < |ring|
    requires forall i :: 0 <= i < |ring| && i != k ==> ring[i] != ring[k]
    ensures ring[k] in blocks && ring[k] !in live
    ensures Sorted(base, Removed(ring, k), size, live[ring[k] := blocks[ring[k]]], blocks)
  {
    var r := Removed(ring, k);
    var b := ring[k];
    assert b in blocks && b in ring;
    forall b | b in blocks ensures b in r <==> b in ring && b != ring[k] {
      if b in ring && b != ring[k] {
        var i :| 0 <= i < |ring| && ring[i] == b;
        assert r[if i < k then i else i - 1] == b;
      }
    }
  }

  lemma SortedSplit(base: int, ring: seq<int>, size: Words, live: Blocks, blocks: Blocks, k: nat, n: int, h: int,
          m: int)
    requires Sorted(base, ring, size, live, blocks) && 1 <= k < |ring| && h !in blocks && h != base && h !in ring
    ensures ring[k] in blocks
    ensures Sorted(base, ring, size[ring[k] := n][h := m], live[h := m], blocks[ring[k] := n][h := m])
  {
    assert ring[k] in ring;
  }

  /** An exact fit is unlinked and becomes live; nothing else moves. */
  lemma TakenWhole(base: int, ring: seq<int>, ptr: Words, size: Words, live: Blocks, blocks: Blocks,
          owner: map<int, int>, k: nat, j: nat)
    requires Good(base, ring, ptr, size, live, blocks, owner) && base !in owner
    requires j < |ring| && k == Next(j, |ring|) && ring[k] in size && size[ring[k]] >= 1
    ensures ring[k] in ptr && ring[k] !in live && j < |Removed(ring, k)| && ring[j] in Removed(ring, k)
    ensures
      var ptr' := ptr[ring[j] := ptr[ring[k]]];
      && Good(base, Removed(ring, k), ptr', size, live[ring[k] := size[ring[k]]], blocks, owner)
      && Untouched(live, ptr, size, ptr', size)
  {
    hide Sorted, Cover, Untouched;
    assert k >= 1;
    assert Link(ring, ptr, k);
    forall i | 0 <= i < |ring| && i != k ensures ring[i] != ring[k] {
      PositionsDiffer(ring, size, i, k);
    }
    LinkRemoved(base, ring, ptr, size, k);
    SortedRemoved(base, ring, size, live, blocks, k);
    assert Removed(ring, k)[j] == ring[j];
    BlockSizes(base, ring, size, live, blocks, k);
    HeadersOnly(base, ring, ptr, size, live, blocks, owner, ptr[ring[j] := ptr[ring[k]]], size, ring[j], ring[j]);
  }

  lemma BlockSizes(base: int, ring: seq<int>, size: Words, live: Blocks, blocks: Blocks, k: nat)
    requires Sorted(base, ring, size, live, blocks) && 1 <= k < |ring| && ring[0] == base
    ensures ring[k] in blocks && ring[k] in size && size[ring[k]] == blocks[ring[k]]
    ensures ring[k - 1] in blocks || ring[k - 1] == base
  {
    var b := ring[k];
    assert b in blocks;
    if k >= 2 {
      assert ring[k - 1] in blocks;
    }
  }

  /** A larger block gives up its upper end; the rest stays listed where it was. */
  lemma TakenSplit(base: int, ring: seq<int>, ptr: Words, size: Words, live: Blocks, blocks: Blocks,
          owner: map<int, int>, k: nat, n: int)
      returns (blocks': Blocks, owner': map<int, int>)
    requires Good(base, ring, ptr, size, live, blocks, owner) && base !in owner
    requires k < |ring| && ring[k] in size && 1 <= n < size[ring[k]]
    ensures
      var h := ring[k] + size[ring[k]] - n;
      var size' := size[ring[k] := size[ring[k]] - n][h := n];
      && h !in live
      && Good(base, ring, ptr, size', live[h := n], blocks', owner')
      && Untouched(live, ptr, size, ptr, size')
    ensures owner'.Keys == owner.Keys
  {
    hide FreeList, Sorted, Cover, Untouched;
    var h := ring[k] + size[ring[k]] - n;
    var size' := size[ring[k] := size[ring[k]] - n][h := n];
    assert k >= 1 && ring[0] == base by { FirstIsBase(base, ring, ptr, size, k); }
    BlockSizes(base, ring, size, live, blocks, k);
    CoverSplit(blocks, owner, ring[k], n);
    blocks' := blocks[ring[k] := size[ring[k]] - n][h := n];
    owner' := Relabel(owner, h, h + n, h);
    SplitApart(base, ring, size, live, blocks, owner, k, h);
    LinkShrunk(base, ring, ptr, size, k, size[ring[k]] - n, h, n);
    SortedSplit(base, ring, size, live, blocks, k, size[ring[k]] - n, h, n);
    HeadersOnly(base, ring, ptr, size', live[h := n], blocks', owner', ptr, size, ring[k], h);
    UntouchedBack(live[h := n], ptr, size', ptr, size);
    FewerUntouched(live[h := n], h, ptr, size, ptr, size');
    assert live[h := n] - {h} == live;
  }

  lemma UntouchedBack(live: Blocks, ptr: Words, size: Words, ptr': Words, size': Words)
    requires Untouched(live, ptr, size, ptr', size')
    ensures Untouched(live, ptr', size', ptr, size)
  {
  }

  lemma FirstIsBase(base: int, ring: seq<int>, ptr: Words, size: Words, k: nat)
    requires FreeList(base, ring, ptr, size) && k < |ring| && size[ring[k]] >= 1
    ensures k >= 1 && ring[0] == base
  {
  }

  /** A unit in the middle of a free block is nobody's header. */
  lemma SplitApart(base: int, ring: seq<int>, size: Words, live: Blocks, blocks: Blocks, owner: map<int, int>,
          k: nat, h: int)
    requires Sorted(base, ring, size, live, blocks) && Cover(blocks, owner) && base !in owner
    requires 1 <= k < |ring| && ring[0] == base && ring[k] in blocks && ring[k] < h < ring[k] + blocks[ring[k]]
    ensures h !in blocks && h !in ring && h != base && h !in live
  {
    assert Within(blocks, ring[k], h);
    assert h in blocks ==> Within(blocks, h, h);
    if h in ring {
      var i :| 0 <= i < |ring| && ring[i] == h;
    }
  }

  lemma HeapFacts(h: Heap, bp: int)
    requires h.Valid() && bp in h.live
    ensures h.freep != 0 && h.base < bp && bp !in h.ring && bp in h.blocks && h.base !in h.owner
    ensures bp in h.size && h.size[bp] == h.live[bp]
  {
    assert Within(h.blocks, bp, bp);
  }

  /** The size and ptr fields after free has linked bp in behind p. */
  ghost function FreedSize(ptr: Words, size: Words, p: int, bp: int): Words
    requires p in ptr && p in size && bp in size && ptr[p] in size
  {
    var up := if bp + size[bp] == ptr[p] then size[bp := size[bp] + size[ptr[p]]] else size;
    if p + up[p] == bp then up[p := up[p] + up[bp]] else up
  }

  ghost predicate FreedSizes(ptr: Words, size: Words, p: int, bp: int, size': Words) {
    && p in ptr && p in size && bp in size && ptr[p] in size
    && size' == FreedSize(ptr, size, p, bp)
  }

  ghost function FreedPtr(ptr: Words, size: Words, p: int, bp: int): Words
    requires p in ptr && p in size && bp in size && ptr[p] in ptr
  {
    var up := if bp + size[bp] == ptr[p] then ptr[bp := ptr[ptr[p]]] else ptr[bp := ptr[p]];
    if p + size[p] == bp then up[p := up[bp]] else up[p := bp]
  }

  function SizeAt(size: Words, h: int): int {
    if h in size then size[h] else 0
  }

  /** The free list after bp has come in behind position t. */
  function FreedRing(ring: seq<int>, size: Words, t: nat, bp: int): seq<int>
    requires t < |ring|
  {
    var up := t + 1 < |ring| && bp + SizeAt(size, bp) == ring[t + 1];
    var low := ring[t] + SizeAt(size, ring[t]) == bp;
    if up then if low then Removed(ring, t + 1) else ring[t + 1 := bp]
    else if low then ring
    else Inserted(ring, t, bp)
  }

  lemma FreedRingIs(ring: seq<int>, size: Words, t: nat, bp: int)
    requires t < |ring| && bp in size && ring[t] in size
    ensures
      var p, r := ring[t], FreedRing(ring, size, t, bp);
      && (t + 1 < |ring| && bp + size[bp] == ring[t + 1] && p + size[p] == bp ==> r == Removed(ring, t + 1))
      && (t + 1 < |ring| && bp + size[bp] == ring[t + 1] && p + size[p] != bp ==> r == ring[t + 1 := bp])
      && (!(t + 1 < |ring| && bp + size[bp] == ring[t + 1]) && p + size[p] == bp ==> r == ring)
      && (!(t + 1 < |ring| && bp + size[bp] == ring[t + 1]) && p + size[p] != bp ==> r == Inserted(ring, t, bp))
  {
  }

  /** The list after units from p on, above all others, have come in. */
  function ListGrown(ring: seq<int>, size: Words, p: int): seq<int>
    requires ring != []
  {
    var top := ring[|ring| - 1];
    if top + SizeAt(size, top) == p then ring else ring + [p]
  }

  function SizesGrown(ring: seq<int>, size: Words, p: int, n: int): Words
    requires ring != []
  {
    var top := ring[|ring| - 1];
    if top + SizeAt(size, top) == p then size[p := n][top := SizeAt(size, top) + n] else size[p := n]
  }

  /** The listed block before the one that these units have become part of. */
  function Behind(ring: seq<int>, size: Words, p: int): int
    requires ring != []
  {
    var top := ring[|ring| - 1];
    if top + SizeAt(size, top) == p && |ring| >= 2 then ring[|ring| - 2] else top
  }

  lemma Topmost(base: int, ring: seq<int>, ptr: Words, size: Words, live: Blocks, blocks: Blocks,
          owner: map<int, int>, p: int)
    requires Good(base, ring, ptr, size, live, blocks, owner) && base < p && forall x :: x in owner ==> x < p
    ensures ring != [] && (forall i :: 0 <= i < |ring| ==> ring[i] < p && ring[i] in size)
    ensures ring[|ring| - 1] in ptr && ptr[ring[|ring| - 1]] == base && base in size
    ensures forall i, j :: 0 <= i < j < |ring| ==> ring[i] < ring[j]
  {
    forall i: nat, j: nat | i < j < |ring| ensures ring[i] < ring[j] {
      assert Apart(ring, size, i, j);
    }
    forall i | 0 <= i < |ring| ensures ring[i] < p {
      if i > 0 {
        assert Within(blocks, ring[i], ring[i]);
      }
    }
    assert Link(ring, ptr, |ring| - 1);
  }

  /** What free of units above all others makes of the list. */
  lemma GrownAtTop(base: int, ring: seq<int>, ptr: Words, size: Words, p: int, n: int, ring': seq<int>, size': Words)
    requires ring != [] && n >= 1 && base < p && p !in ring
    requires forall i :: 0 <= i < |ring| ==> ring[i] in size
    requires
      var top := ring[|ring| - 1];
      && top in ptr && ptr[top] == base && base in size
      && ring' == FreedRing(ring, size[p := n], |ring| - 1, p) && FreedSizes(ptr, size[p := n], top, p, size')
    ensures ring' == ListGrown(ring, size, p) && size' == SizesGrown(ring, size, p, n)
  {
    var top := ring[|ring| - 1];
    assert top in ring;
    if top + SizeAt(size, top) != p {
      assert Inserted(ring, |ring| - 1, p) == ring + [p];
    }
  }

  lemma LastIsTop(ring: seq<int>, t: nat, p: int)
    requires t < |ring| && LastBelow(ring, ring[t], p) && forall i :: 0 <= i < |ring| ==> ring[i] < p
    requires forall i, j :: 0 <= i < j < |ring| ==> ring[i] < ring[j]
    ensures t == |ring| - 1
  {
    var top := ring[|ring| - 1];
    assert top in ring;
  }

  /** p is the last listed block below bp. */
  predicate LastBelow(ring: seq<int>, p: int, bp: int) {
    p in ring && p < bp && forall h :: h in ring && h < bp ==> h <= p
  }

  lemma ListOrdered(base: int, ring: seq<int>, ptr: Words, size: Words)
    requires FreeList(base, ring, ptr, size)
    ensures Ordered(ring, size)
  {
  }

  lemma LastBelowAt(ring: seq<int>, size: Words, t: nat, bp: int)
    requires Ordered(ring, size) && t < |ring| && ring[t] < bp && (t + 1 < |ring| ==> bp < ring[t + 1])
    ensures LastBelow(ring, ring[t], bp)
  {
    forall h | h in ring && h < bp ensures h <= ring[t] {
      var i :| 0 <= i < |ring| && ring[i] == h;
      PositionsDiffer(ring, size, i, t);
      if t + 1 < |ring| {
        PositionsDiffer(ring, size, i, t + 1);
      }
    }
  }

  /** Whichever neighbours bp touches, the heap stays in order; bp's units stay accounted for. */
  lemma Freed(base: int, ring: seq<int>, ptr: Words, size: Words, live: Blocks, blocks: Blocks, owner: map<int, int>,
          t: nat, bp: int)
      returns (ring': seq<int>, blocks': Blocks, owner': map<int, int>)
    requires Good(base, ring, ptr, size, live, blocks, owner) && Found(base, ring, ptr, size, live, t, bp)
    requires base !in owner && bp in blocks && (ring[t] in blocks || ring[t] == base)
    requires ring[t] + size[ring[t]] <= bp && (t + 1 < |ring| ==> bp + size[bp] <= ring[t + 1])
    requires base < bp && ring[t] != bp
    ensures Good(base, ring', FreedPtr(ptr, size, ring[t], bp), FreedSize(ptr, size, ring[t], bp), live - {bp},
      blocks', owner')
    ensures owner'.Keys == owner.Keys && ring[t] in ring' && ring' == FreedRing(ring, size, t, bp)
    ensures
      var size' := FreedSize(ptr, size, ring[t], bp);
      var h := if ring[t] + size[ring[t]] == bp then ring[t] else bp;
      h in ring' && h in size' && size'[h] >= size[bp]
    ensures Untouched(live - {bp}, ptr, size, FreedPtr(ptr, size, ring[t], bp), FreedSize(ptr, size, ring[t], bp))
  {
    hide FreeList, Sorted, Cover, Untouched, FreedRing;
    FreedRingIs(ring, size, t, bp);
    var p, q := ring[t], ptr[ring[t]];
    ring', blocks', owner' := ring, blocks, owner;
    if bp + size[bp] == q {
      if p + size[p] == bp {
        ring', blocks', owner' := FreedBoth(base, ring, ptr, size, live, blocks, owner, t, bp);
      } else {
        ring', blocks', owner' := FreedUpper(base, ring, ptr, size, live, blocks, owner, t, bp);
      }
    } else if p + size[p] == bp {
      blocks', owner' := FreedLower(base, ring, ptr, size, live, blocks, owner, t, bp);
    } else {
      ring' := FreedAlone(base, ring, ptr, size, live, blocks, owner, t, bp);
    }
    HeadersOnly(base, ring, ptr, size, live, blocks, owner, FreedPtr(ptr, size, p, bp), FreedSize(ptr, size, p, bp),
      p, bp);
    FewerUntouched(live, bp, ptr, size, FreedPtr(ptr, size, p, bp), FreedSize(ptr, size, p, bp));
  }

  lemma UntouchedTrans(live: Blocks, ptr0: Words, size0: Words, ptr1: Words, size1: Words, ptr2: Words, size2: Words)
    requires Untouched(live, ptr0, size0, ptr1, size1) && Untouched(live, ptr1, size1, ptr2, size2)
    ensures Untouched(live, ptr0, size0, ptr2, size2)
  {
    forall a, x {:trigger Inside(live, a, x)} | a in live && Inside(live, a, x)
      ensures (x in ptr2 <==> x in ptr0) && (x in ptr0 ==> ptr2[x] == ptr0[x])
      ensures (x in size2 <==> x in size0) && (x in size0 ==> size2[x] == size0[x])
    {
    }
  }

  /** Fresh units from sbrk, with a size written in their first header, make one more live block. */
  lemma Obtained(base: int, ring: seq<int>, ptr: Words, size: Words, live: Blocks, blocks: Blocks,
          owner: map<int, int>, p: int, n: int)
    requires Good(base, ring, ptr, size, live, blocks, owner) && base !in owner && base < p && n >= 1
    requires forall x :: x in owner ==> x < p
    ensures p !in live && p !in blocks
    ensures Good(base, ring, ptr, size[p := n], live[p := n], blocks[p := n], Grown(owner, p, n))
    ensures Untouched(live, ptr, size, ptr, size[p := n])
  {
    hide FreeList, Cover, Untouched;
    CoverGrow(blocks, owner, p, n);
    FreeListPositions(base, ring, ptr, size);
    NotListed(base, ring, size, live, blocks, p);
    LinkNews(base, ring, ptr, size, p, n);
    HeadersOnly(base, ring, ptr, size[p := n], live[p := n], blocks[p := n], Grown(owner, p, n), ptr, size, p, p);
    UntouchedBack(live[p := n], ptr, size[p := n], ptr, size);
    FewerUntouched(live[p := n], p, ptr, size, ptr, size[p := n]);
    assert live[p := n] - {p} == live;
  }

  lemma LinkNews(base: int, ring: seq<int>, ptr: Words, size: Words, p: int, n: int)
    requires FreeList(base, ring, ptr, size) && p !in ring
    ensures FreeList(base, ring, ptr, size[p := n])
  {
    forall i: nat, j: nat {:trigger Apart(ring, size[p := n], i, j)} | i < j < |ring|
      ensures Apart(ring, size[p := n], i, j)
    {
      assert Apart(ring, size, i, j);
    }
  }

  lemma NotListed(base: int, ring: seq<int>, size: Words, live: Blocks, blocks: Blocks, p: int)
    requires Sorted(base, ring, size, live, blocks) && p !in blocks && p != base
    requires |ring| >= 1 ==> ring[0] == base
    ensures p !in ring
  {
    if p in ring {
      var i :| 0 <= i < |ring| && ring[i] == p;
    }
  }

  // ---------------------------------------------------------------- walking the ring

  lemma AboveBase(base: int, ring: seq<int>, ptr: Words, size: Words, i: nat)
    requires FreeList(base, ring, ptr, size) && i < |ring|
    ensures ring[i] >= base
  {
    PositionsDiffer(ring, size, 0, i);
  }

  lemma FirstList(base: int, ptr: Words, size: Words, live: Blocks)
    requires base in ptr && ptr[base] == base && base in size && size[base] == 0 && live == map[]
    ensures FreeList(base, [base], ptr, size) && Sorted(base, [base], size, live, map[])
    ensures forall ptr0: Words, size0: Words :: Untouched(live, ptr0, size0, ptr, size)
  {
  }

  /** What ptr says about position i, and that position e is found by its address. */
  lemma Follow(base: int, ring: seq<int>, ptr: Words, size: Words, i: nat, e: nat)
    requires FreeList(base, ring, ptr, size) && i < |ring| && e < |ring|
    ensures ring[i] in ptr && ptr[ring[i]] == ring[Next(i, |ring|)]
    ensures ring[Next(i, |ring|)] in ptr && ring[Next(i, |ring|)] in size
    ensures ring[i] == ring[e] ==> i == e
  {
    assert Link(ring, ptr, i) && Link(ring, ptr, Next(i, |ring|));
    PositionsDiffer(ring, size, i, e);
  }

  lemma SameSpot(base: int, ring: seq<int>, ptr: Words, size: Words, i: nat, e: nat)
    requires FreeList(base, ring, ptr, size) && i < |ring| && e < |ring| && ring[i] == ring[e]
    ensures i == e
  {
    PositionsDiffer(ring, size, i, e);
  }

  /** Some listed block is large enough. */
  ghost predicate SomeFits(ring: seq<int>, size: Words, nunits: int) {
    exists h :: h in ring && h in size && size[h] >= nunits
  }

  lemma NothingListed(size: Words, nunits: int)
    ensures !SomeFits([], size, nunits)
  {
  }

  lemma FitsLess(ring: seq<int>, size: Words, nunits: int, more: int)
    requires SomeFits(ring, size, more) && nunits <= more
    ensures SomeFits(ring, size, nunits)
  {
  }

  lemma FitsHere(ring: seq<int>, size: Words, i: nat, nunits: int)
    requires i < |ring| && ring[i] in size && size[ring[i]] >= nunits
    ensures SomeFits(ring, size, nunits)
  {
    var h := ring[i];
    assert h in ring && h in size && size[h] >= nunits;
  }

  /** No block met from position a on, and before position b, is large enough. */
  ghost predicate NoneFits(ring: seq<int>, size: Words, a: nat, b: nat, nunits: int)
    requires a < |ring| && b < |ring|
  {
    forall i :: 0 <= i < |ring| && Dist(a, i, |ring|) < Dist(a, b, |ring|) ==> ring[i] in size && size[ring[i]] < nunits
  }

  /**
   Next fit: from the block behind freep on, the one at position k is the first large enough, and h is the upper end
   of it.
   */
  ghost predicate NextFit(ring: seq<int>, size: Words, freep: int, e: nat, k: nat, nunits: int, h: int) {
    && e < |ring| && ring[e] == freep && k < |ring|
    && NoneFits(ring, size, Next(e, |ring|), k, nunits)
    && ring[k] in size && size[ring[k]] >= nunits
    && h == ring[k] + size[ring[k]] - nunits
  }

  lemma NextFitHere(ring: seq<int>, size: Words, freep: int, e: nat, k: nat, nunits: int)
    requires e < |ring| && ring[e] == freep && k < |ring| && NoneFits(ring, size, Next(e, |ring|), k, nunits)
    requires ring[k] in size && size[ring[k]] >= nunits
    ensures NextFit(ring, size, freep, e, k, nunits, ring[k] + size[ring[k]] - nunits)
  {
    hide NoneFits;
  }

  /** Some block met from position a on, up to and including position e, is large enough. */
  ghost predicate FitAhead(ring: seq<int>, size: Words, a: nat, e: nat, nunits: int)
    requires a < |ring| && e < |ring|
  {
    exists f :: 0 <= f < |ring| && ring[f] in size && size[ring[f]] >= nunits
      && Dist(a, f, |ring|) <= Dist(a, e, |ring|)
  }

  lemma NoneYet(ring: seq<int>, size: Words, a: nat, nunits: int)
    requires a < |ring|
    ensures NoneFits(ring, size, a, a, nunits)
  {
  }

  lemma WholeTurn(ring: seq<int>, size: Words, e: nat, nunits: int)
    requires e < |ring| && ring[e] in size && size[ring[e]] < nunits
    ensures NoneFits(ring, size, Next(e, |ring|), e, nunits) ==>
              !SomeFits(ring, size, nunits)
    ensures !FitAhead(ring, size, e, e, nunits)
  {
    if NoneFits(ring, size, Next(e, |ring|), e, nunits) {
      forall i | 0 <= i < |ring| ensures ring[i] in size && size[ring[i]] < nunits {
        assert i != e ==> Dist(Next(e, |ring|), i, |ring|) < Dist(Next(e, |ring|), e, |ring|);
      }
    }
  }

  lemma SomewhereAhead(ring: seq<int>, size: Words, a: nat, e: nat, nunits: int)
    requires e < |ring| && a == Next(e, |ring|)
    requires SomeFits(ring, size, nunits)
    ensures FitAhead(ring, size, a, e, nunits)
  {
    var h :| h in ring && h in size && size[h] >= nunits;
    var f :| 0 <= f < |ring| && ring[f] == h;
    assert Dist(a, f, |ring|) <= Dist(a, e, |ring|);
  }

  lemma Onward(ring: seq<int>, size: Words, j: nat, e: nat, nunits: int)
    requires j < |ring| && e < |ring| && Next(j, |ring|) != e
    requires ring[Next(j, |ring|)] in size && size[ring[Next(j, |ring|)]] < nunits
    ensures
      var k := Next(j, |ring|);
      && Dist(Next(k, |ring|), e, |ring|) < Dist(k, e, |ring|)
      && (NoneFits(ring, size, Next(e, |ring|), k, nunits) ==>
        NoneFits(ring, size, Next(e, |ring|), Next(k, |ring|), nunits))
      && (FitAhead(ring, size, k, e, nunits) ==> FitAhead(ring, size, Next(k, |ring|), e, nunits))
  {
    var n := |ring|;
    var k, a := Next(j, n), Next(e, n);
    if NoneFits(ring, size, a, k, nunits) {
      forall i | 0 <= i < n && Dist(a, i, n) < Dist(a, Next(k, n), n)
        ensures ring[i] in size && size[ring[i]] < nunits
      {
        assert i != k ==> Dist(a, i, n) < Dist(a, k, n);
      }
    }
    if FitAhead(ring, size, k, e, nunits) {
      var f :| 0 <= f < n && ring[f] in size && size[ring[f]] >= nunits && Dist(k, f, n) <= Dist(k, e, n);
      assert Dist(Next(k, n), f, n) <= Dist(Next(k, n), e, n);
    }
  }

  /** Of the listed blocks only that at position k is large enough, and it ends at brk. */
  ghost predicate OnlyFit(ring: seq<int>, size: Words, k: nat, nunits: int, brk: int) {
    && k < |ring| && (forall i :: 0 <= i < |ring| && i != k ==> SizeAt(size, ring[i]) < nunits)
    && ring[k] + SizeAt(size, ring[k]) == brk
  }

  lemma OnlyFitHere(ring: seq<int>, size: Words, k: nat, nunits: int, brk: int, j: nat)
    requires OnlyFit(ring, size, k, nunits, brk) && j < |ring| && k > 0
    requires ring[Next(j, |ring|)] in size && size[ring[Next(j, |ring|)]] >= nunits
    ensures j == k - 1 && ring[Next(j, |ring|)] + size[ring[Next(j, |ring|)]] == brk
  {
    assert Next(j, |ring|) == k;
  }

  /** What SomeFits says when it fails, and where the list begins. */
  lemma TooSmall(base: int, ring: seq<int>, ptr: Words, size: Words, nunits: int)
    requires FreeList(base, ring, ptr, size) && !SomeFits(ring, size, nunits)
    ensures forall i :: 0 <= i < |ring| ==> SizeAt(size, ring[i]) < nunits
    ensures ring != [] && ring[0] == base && SizeAt(size, base) == 0
    ensures forall i, j :: 0 <= i < j < |ring| ==> ring[i] != ring[j]
  {
    forall i, j | 0 <= i < j < |ring| ensures ring[i] != ring[j] {
      PositionsDiffer(ring, size, i, j);
    }
    forall i | 0 <= i < |ring| ensures SizeAt(size, ring[i]) < nunits {
      assert ring[i] in ring;
    }
  }

  /** After morecore the block that has got the new units is the only one that fits. */
  lemma GrownFits(base: int, ring: seq<int>, size: Words, ring': seq<int>, size': Words, nunits: nat, brk: int)
      returns (k: nat)
    requires ring != [] && ring[0] == base && SizeAt(size, base) == 0
    requires forall i :: 0 <= i < |ring| ==> SizeAt(size, ring[i]) < nunits
    requires forall i, j :: 0 <= i < j < |ring| ==> ring[i] != ring[j]
    requires
      var n := if nunits < CHUNK then CHUNK else nunits;
      && base < brk - n && (brk - n) !in ring
      && ring' == ListGrown(ring, size, brk - n) && size' == SizesGrown(ring, size, brk - n, n)
    ensures OnlyFit(ring', size', k, nunits, brk) && k > 0
    ensures
      var n := if nunits < CHUNK then CHUNK else nunits;
      ring'[k - 1] == Behind(ring, size, brk - n)
  {
    var n := if nunits < CHUNK then CHUNK else nunits;
    var p, top := brk - n, ring[|ring| - 1];
    if top + SizeAt(size, top) == p {
      k := |ring| - 1;
    } else {
      k := |ring|;
    }
  }

  // ---------------------------------------------------------------- the heap

  class Heap {
    const base: int                 // address of the static header
    var freep: int                  // 0 before the first malloc
    var ptr: Words
    var size: Words
    var brk: int                    // the program break that sbrk moves, in units

    ghost var ring: seq<int>        // the free list in address order, static header first
    ghost var live: Blocks          // blocks handed out, with their units
    ghost var blocks: Blocks        // all blocks
    ghost var owner: map<int, int>  // every unit of the blocks, with its block
    ghost var grants: seq<Grant>    // the calls of sbrk so far

    ghost predicate Valid()
      reads this
    {
      && 0 < base < brk
      && Cover(blocks, owner)
      && AllGiven(grants, owner)
      && (forall x :: x in owner ==> base < x < brk)
      && (freep == 0 ==> ring == [] && blocks == map[] && live == map[] && owner == map[])
      && (freep != 0 ==> freep in ring && Good(base, ring, ptr, size, live, blocks, owner))
    }

    constructor (base: int, brk: int)
      requires 0 < base < brk
      ensures Valid() && freep == 0 && live == map[] && grants == []
      ensures this.base == base && this.brk == brk
    {
      this.base, this.brk := base, brk;
      freep := 0;
      ptr, size := map[], map[];
      ring, live, blocks, owner, grants := [], map[], map[], map[], [];
    }

    /**
     The search loop of free: the listed block after which bp belongs. One turn round the ring at most, wherever
     freep points.
     */
    method FindPlace(bp: int) returns (p: int, ghost t: nat)
      requires FreeList(base, ring, ptr, size) && freep in ring && base < bp && bp !in ring
      ensures t < |ring| && p == ring[t] && p < bp && (t + 1 < |ring| ==> bp < ring[t + 1])
    {
      hide Ordered;
      t := Slot(ring, bp);
      ghost var k: nat :| k < |ring| && ring[k] == freep;
      p := freep;
      Place(base, ring, ptr, size, k, t, bp);
      while !(bp > p && bp < ptr[p])
        invariant k < |ring| && p == ring[k] && p in ptr
        invariant (bp > p && bp < ptr[p]) || (p >= ptr[p] && (bp > p || bp < ptr[p])) <==> k == t
        decreases Dist(k, t, |ring|)
      {
        if p >= ptr[p] && (bp > p || bp < ptr[p]) {
          break;
        }
        Place(base, ring, ptr, size, k, t, bp);
        k := Next(k, |ring|);
        p := ptr[p];
        Place(base, ring, ptr, size, k, t, bp);
      }
    }

    /** The rest of free: link bp in behind p, merging it with its upper and its lower neighbour where they touch. */
    method Join(p: int, bp: int)
      requires p in ptr && p in size && bp in size && ptr[p] in size && ptr[p] in ptr && p != bp
      modifies this`ptr, this`size
      ensures size == FreedSize(old(ptr), old(size), p, bp)
      ensures ptr == FreedPtr(old(ptr), old(size), p, bp)
    {
      if bp + size[bp] == ptr[p] {
        size := size[bp := size[bp] + size[ptr[p]]];
        ptr := ptr[bp := ptr[ptr[p]]];
      } else {
        ptr := ptr[bp := ptr[p]];
      }
      if p + size[p] == bp {
        size := size[p := size[p] + size[bp]];
        ptr := ptr[p := ptr[bp]];
      } else {
        ptr := ptr[p := bp];
      }
    }

    /**
     free: the block joins the list and merges with whichever neighbours it touches. freep is left at the last listed
     block below it, so that the next search begins there.
     */
    method Free(ap: int) returns (ghost t: nat)
      requires Valid() && ap - 1 in live
      modifies this`freep, this`ptr, this`size, this`ring, this`live, this`blocks, this`owner
      ensures Valid() && freep != 0
      ensures LastBelow(old(ring), freep, ap - 1) && freep in ring
      ensures t < |old(ring)| && freep == old(ring)[t] && ring == FreedRing(old(ring), old(size), t, ap - 1)
      ensures FreedSizes(old(ptr), old(size), freep, ap - 1, size)
      ensures live == old(live) - {ap - 1}
      ensures owner.Keys == old(owner.Keys)
      ensures Untouched(live, old(ptr), old(size), ptr, size)
      ensures SomeFits(ring, size, old(live)[ap - 1])
    {
      hide FreeList, Sorted, Cover, Untouched, LastBelow, FreedRing;
      var bp := ap - 1;
      HeapFacts(this, bp);
      var p;
      p, t := FindPlace(bp);
      LastBelowAt(ring, size, t, bp) by { ListOrdered(base, ring, ptr, size); }
      Room(base, ring, ptr, size, live, blocks, owner, t, bp);
      PlaceFound(base, ring, ptr, size, live, blocks, owner, t, bp);
      ghost var ring', blocks', owner' := Freed(base, ring, ptr, size, live, blocks, owner, t, bp);
      Join(p, bp);
      freep := p;
      ring, blocks, owner, live := ring', blocks', owner', live - {bp};
    }

    /** The system call sbrk: it fails, or gives fresh units above the break; other callers may have moved the break. */
    method Sbrk(bytes: nat) returns (p: int)
      requires UNIT <= bytes < SBRKMAX && bytes % UNIT == 0 && brk > 0
      modifies this`brk, this`grants
      ensures grants == old(grants) + [Grant(bytes / UNIT, p)]
      ensures p == 0 ==> brk == old(brk)
      ensures p != 0 ==> old(brk) <= p && brk == p + bytes / UNIT
    {
      var failed: bool := *;
      if failed {
        p := 0;
      } else {
        var gap: int :| 0 <= gap;
        p := brk + gap;
        brk := p + bytes / UNIT;
      }
      grants := grants + [Grant(bytes / UNIT, p)];
    }

    /** The rest of morecore: n fresh units from p on become a block, which is freed. */
    method Enlist(p: int, n: int)
      requires 0 < base < brk && freep in ring && freep != 0 && n >= 1 && base < p && p + n == brk
      requires Good(base, ring, ptr, size, live, blocks, owner)
      requires forall x :: x in owner ==> base < x < p
      requires AllGiven(grants, Grown(owner, p, n))
      modifies this`freep, this`ptr, this`size, this`ring, this`live, this`blocks, this`owner
      ensures Valid() && freep != 0 && live == old(live)
      ensures SomeFits(ring, size, n)
      ensures ring == ListGrown(old(ring), old(size), p) && size == SizesGrown(old(ring), old(size), p, n)
      ensures freep == old(ring)[|old(ring)| - 1] && p !in old(ring)
      ensures Untouched(live, old(ptr), old(size), ptr, size)
    {
      hide FreeList, Sorted, Cover, Untouched, AllGiven, SomeFits, LastBelow, FreedRing, FreedSizes, ListGrown,
        SizesGrown;
      ghost var ptr0, size0, ring0 := ptr, size, ring;
      Topmost(base, ring, ptr, size, live, blocks, owner, p);
      Obtained(base, ring, ptr, size, live, blocks, owner, p, n);
      size := size[p := n];
      live, blocks, owner := live[p := n], blocks[p := n], Grown(owner, p, n);
      ghost var t := Free(p + 1);
      LastIsTop(ring0, t, p);
      GrownAtTop(base, ring0, ptr0, size0, p, n, ring, size);
      assert live == old(live);
      UntouchedTrans(live, ptr0, size0, ptr0, size0[p := n], ptr, size);
    }

    /**
     morecore: ask for at least CHUNK units, and free them into the list. bad says that 32 bits cannot hold the bytes
     to ask for, so that sbrk would shrink the process or give less than the block's header will say.
     */
    method MoreCore(nu: nat) returns (r: int, bad: bool)
      requires Valid() && freep != 0 && nu >= 1
      modifies this
      ensures Valid() && freep != 0 && live == old(live)
      ensures bad <==> !SbrkFits(nu)
      ensures bad ==> unchanged(this)
      ensures r == 0 ==> unchanged(`freep, `ptr, `size, `brk, `ring, `live, `blocks, `owner)
      ensures r == 0 && !bad ==> grants == old(grants) + [Grant(if nu < CHUNK then CHUNK else nu, 0)]
      ensures r != 0 ==> r == freep && SomeFits(ring, size, nu)
      ensures r != 0 ==>
        var n := if nu < CHUNK then CHUNK else nu;
        && grants == old(grants) + [Grant(n, brk - n)] && brk - n >= old(brk) && old(ring) != []
        && ring == ListGrown(old(ring), old(size), brk - n) && size == SizesGrown(old(ring), old(size), brk - n, n)
        && r == old(ring)[|old(ring)| - 1] && (brk - n) !in old(ring)
      ensures Untouched(live, old(ptr), old(size), ptr, size)
    {
      hide FreeList, Sorted, Cover, Untouched, AllGiven, SbrkBytes, SbrkFits, SomeFits, ListGrown,
        SizesGrown;
      BytesFit(nu);
      var n := if nu < CHUNK then CHUNK else nu;
      NothingTouched(live, ptr, size);
      var bytes := SbrkBytes(nu);
      if bytes >= SBRKMAX || bytes < n * UNIT {
        return 0, true;
      }
      var p := Sbrk(bytes);
      AllGivenMore(old(grants), owner, p, n);
      if p == 0 {
        return 0, false;
      }
      Enlist(p, n);
      FitsLess(ring, size, nu, n);
      return freep, false;
    }

    /** The tail of malloc's loop: block p fits; unlink it, or cut the request off its upper end. */
    method Take(prevp: int, p: int, nunits: int, ghost j: nat, ghost k: nat) returns (h: int)
      requires Valid() && freep != 0 && nunits >= 1
      requires j < |ring| && k == Next(j, |ring|) && ring[j] == prevp && ring[k] == p
      requires p in size && p in ptr && size[p] >= nunits
      modifies this`freep, this`ptr, this`size, this`ring, this`live, this`blocks, this`owner
      ensures Valid() && freep == prevp
      ensures h == p + old(size)[p] - nunits > 0 && h !in old(live) && live == old(live)[h := nunits]
      ensures owner.Keys == old(owner.Keys)
      ensures Untouched(old(live), old(ptr), old(size), ptr, size)
    {
      hide FreeList, Sorted, Cover, Untouched;
      AboveBase(base, ring, ptr, size, j);
      AboveBase(base, ring, ptr, size, k);
      h := p;
      if size[p] == nunits {
        TakenWhole(base, ring, ptr, size, live, blocks, owner, k, j);
        ptr := ptr[prevp := ptr[p]];
        ring := Removed(ring, k);
      } else {
        blocks, owner := TakenSplit(base, ring, ptr, size, live, blocks, owner, k, nunits);
        size := size[h := size[h] - nunits];
        h := h + size[h];
        size := size[h := nunits];
      }
      live := live[h := nunits];
      freep := prevp;
    }

    /** malloc's own start: the first call makes the list of the static header alone. */
    method SetUp()
      requires Valid()
      modifies this`freep, this`ptr, this`size, this`ring
      ensures Valid() && freep != 0
      ensures Untouched(live, old(ptr), old(size), ptr, size)
      ensures forall n :: n >= 1 ==> (SomeFits(ring, size, n) <==> old(SomeFits(ring, size, n)))
      ensures old(freep) != 0 ==> unchanged(this)
      ensures old(freep) == 0 ==> ring == [base] && freep == base
    {
      hide FreeList, Sorted, Untouched;
      NothingTouched(live, ptr, size);
      if freep == 0 {
        ptr := ptr[base := base];
        size := size[base := 0];
        freep := base;
        ring := [base];
        FirstList(base, ptr, size, live);
      }
    }

    /** morecore as the search calls it: afterwards one block fits, that which has got the new units. */
    method Refill(nunits: nat) returns (p: int, bad: bool, ghost e: nat, ghost fit: nat)
      requires Valid() && freep != 0 && nunits >= 1 && !SomeFits(ring, size, nunits)
      modifies this
      ensures Valid() && freep != 0 && live == old(live)
      ensures bad <==> !SbrkFits(nunits)
      ensures bad || p == 0 ==> p == 0 && unchanged(`freep, `ptr, `size, `brk, `ring, `live, `blocks, `owner)
      ensures bad ==> grants == old(grants)
      ensures p == 0 && !bad ==> grants == old(grants) + [Grant(if nunits < CHUNK then CHUNK else nunits, 0)]
      ensures Untouched(live, old(ptr), old(size), ptr, size)
      ensures p != 0 ==> |grants| == |old(grants)| + 1 && old(grants) <= grants && old(ring) != []
      ensures p != 0 ==>
        && e < |ring| && ring[e] == freep == p && p in ptr && ptr[p] == ring[Next(e, |ring|)]
        && ptr[p] in ptr && ptr[p] in size && FitAhead(ring, size, Next(e, |ring|), e, nunits)
      ensures p != 0 ==>
        && OnlyFit(ring, size, fit, nunits, brk) && 0 < fit <= |ring|
        && ring[fit - 1] == Behind(old(ring), old(size), grants[|old(grants)|].at)
    {
      hide FreeList, Sorted, Cover, Untouched, FitAhead, SomeFits, AllGiven, SbrkFits, OnlyFit, ListGrown, SizesGrown,
        Behind;
      ghost var ring0, size0 := ring, size;
      TooSmall(base, ring, ptr, size, nunits);
      p, bad := MoreCore(nunits);
      e, fit := 0, 0;
      if !bad && p != 0 {
        fit := GrownFits(base, ring0, size0, ring, size, nunits, brk);
        e :| 0 <= e < |ring| && ring[e] == freep;
        Follow(base, ring, ptr, size, e, e);
        SomewhereAhead(ring, size, Next(e, |ring|), e, nunits);
      }
    }

    /**
     malloc's search: next fit, starting behind freep. It asks for memory exactly if no block fits, and then once; it
     fails exactly if sbrk does. bad is morecore's.
     */
    method Search(nunits: nat) returns (r: int, bad: bool, ghost e: nat, ghost j: nat)
      requires Valid() && freep != 0 && nunits >= 1
      modifies this
      ensures Valid()
      ensures bad <==> !old(SomeFits(ring, size, nunits)) && !SbrkFits(nunits)
      ensures r == 0 ==> live == old(live) && !old(SomeFits(ring, size, nunits)) && brk == old(brk)
      ensures r == 0 ==> freep == old(freep)
      ensures bad ==> r == 0 && grants == old(grants)
      ensures r == 0 && !bad ==> grants == old(grants) + [Grant(if nunits < CHUNK then CHUNK else nunits, 0)]
      ensures r != 0 ==> r - 1 !in old(live) && live == old(live)[r - 1 := nunits]
      ensures r != 0 ==> old(grants) <= grants
      ensures r != 0 ==> |grants| == |old(grants)| + if old(SomeFits(ring, size, nunits)) then 0 else 1
      ensures Untouched(old(live), old(ptr), old(size), ptr, size)
      ensures old(SomeFits(ring, size, nunits)) ==>
        && brk == old(brk) && j < |old(ring)| && freep == old(ring)[j]
        && NextFit(old(ring), old(size), old(freep), e, Next(j, |old(ring)|), nunits, r - 1)
      ensures r != 0 && !old(SomeFits(ring, size, nunits)) ==>
        && r - 1 == brk - nunits && old(ring) != [] && |grants| > |old(grants)|
        && freep == Behind(old(ring), old(size), grants[|old(grants)|].at)
    {
      hide FreeList, Sorted, Cover, Untouched, NoneFits, FitAhead, SomeFits, AllGiven, SbrkFits, OnlyFit,
        ListGrown, SizesGrown, Behind, NextFit, Dist;
      NothingTouched(live, ptr, size);
      var prevp := freep;
      j :| j < |ring| && ring[j] == freep;
      e := j;
      ghost var grown, fit: nat := false, 0;
      Follow(base, ring, ptr, size, j, e);
      NoneYet(ring, size, Next(e, |ring|), nunits);
      var p := ptr[prevp];
      while true
        invariant Valid() && freep != 0 && live == old(live)
        invariant old(grants) <= grants && Untouched(live, old(ptr), old(size), ptr, size)
        invariant j < |ring| && e < |ring| && ring[e] == freep && ring[j] == prevp && ring[Next(j, |ring|)] == p
        invariant p in size && p in ptr
        invariant !grown ==> grants == old(grants) && brk == old(brk)
        invariant !grown ==> freep == old(freep) && ring == old(ring) && size == old(size)
        invariant !grown ==> NoneFits(ring, size, Next(e, |ring|), Next(j, |ring|), nunits)
        invariant grown ==> FitAhead(ring, size, Next(j, |ring|), e, nunits)
        invariant grown ==> !old(SomeFits(ring, size, nunits)) && |grants| == |old(grants)| + 1 && SbrkFits(nunits)
        invariant grown ==>
          && OnlyFit(ring, size, fit, nunits, brk)
          && old(ring) != [] && 0 < fit <= |ring|
          && ring[fit - 1] == Behind(old(ring), old(size), grants[|old(grants)|].at)
        decreases if grown then 0 else 1, Dist(Next(j, |ring|), e, |ring|)
      {
        if size[p] >= nunits {
          ghost var ptr0, size0 := ptr, size;
          FitsHere(ring, size, Next(j, |ring|), nunits);
          if !grown {
            NextFitHere(ring, size, freep, e, Next(j, |ring|), nunits);
          } else {
            OnlyFitHere(ring, size, fit, nunits, brk, j);
          }
          var h := Take(prevp, p, nunits, j, Next(j, |ring|));
          UntouchedTrans(old(live), old(ptr), old(size), ptr0, size0, ptr, size);
          return h + 1, false, e, j;
        }
        if p == freep {
          SameSpot(base, ring, ptr, size, Next(j, |ring|), e);
          WholeTurn(ring, size, e, nunits);
          ghost var ptr0, size0 := ptr, size;
          p, bad, e, fit := Refill(nunits);
          UntouchedTrans(live, old(ptr), old(size), ptr0, size0, ptr, size);
          if bad || p == 0 {
            return 0, bad, e, j;
          }
          grown := true;
          j := e;
        } else {
          Follow(base, ring, ptr, size, Next(j, |ring|), e);
          Onward(ring, size, j, e, nunits);
          j := Next(j, |ring|);
        }
        prevp := p;
        p := ptr[p];
      }
    }

    /**
     malloc: the first free block after freep that is large enough, or more memory. 0 if there is none to be had;
     otherwise a block whose units nobody else uses. The block holds the request unless the request has wrapped, which
     RequestFits says exactly.
     */
    method Malloc(nbytes: nat) returns (r: int, bad: bool, ghost e: nat, ghost j: nat)
      requires Valid() && nbytes < WORD
      modifies this
      ensures Valid()
      ensures bad <==> !old(SomeFits(ring, size, Nunits(nbytes))) && SBRKMAX - 2 * UNIT < nbytes <= WORD - UNIT
      ensures r == 0 ==> live == old(live) && !old(SomeFits(ring, size, Nunits(nbytes))) && brk == old(brk)
      ensures r == 0 ==> freep == if old(freep) == 0 then base else old(freep)
      ensures bad ==> r == 0 && grants == old(grants)
      ensures r == 0 && !bad ==>
        grants == old(grants) + [Grant(if Nunits(nbytes) < CHUNK then CHUNK else Nunits(nbytes), 0)]
      ensures r != 0 ==> r - 1 !in old(live) && live == old(live)[r - 1 := Nunits(nbytes)]
      ensures r != 0 ==> old(grants) <= grants
      ensures r != 0 ==> |grants| == |old(grants)| + if old(SomeFits(ring, size, Nunits(nbytes))) then 0 else 1
      ensures nbytes <= (Nunits(nbytes) - 1) * UNIT <==> nbytes <= WORD - UNIT
      ensures Untouched(old(live), old(ptr), old(size), ptr, size)
      ensures old(SomeFits(ring, size, Nunits(nbytes))) ==>
        && brk == old(brk) && j < |old(ring)| && freep == old(ring)[j]
        && NextFit(old(ring), old(size), old(freep), e, Next(j, |old(ring)|), Nunits(nbytes), r - 1)
      ensures r != 0 && !old(SomeFits(ring, size, Nunits(nbytes))) ==>
        && r - 1 == brk - Nunits(nbytes) && |grants| > |old(grants)|
        && freep == Behind(if old(ring) == [] then [base] else old(ring), old(size), grants[|old(grants)|].at)
    {
      hide FreeList, Sorted, Cover, Untouched, SomeFits, AllGiven, Nunits, SbrkFits, NextFit;
      RequestFits(nbytes);
      NothingListed(size, Nunits(nbytes));
      SetUp();
      ghost var ptr0, size0 := ptr, size;
      r, bad, e, j := Search(Nunits(nbytes));
      UntouchedTrans(old(live), old(ptr), old(size), ptr0, size0, ptr, size);
    }

    /** A client fills its own memory with anything at all. */
    method ClientWrites(a: int, x: int, word0: int, word1: int)
      requires Valid() && a in live && Inside(live, a, x)
      modifies this`ptr, this`size
      ensures Valid()
    {
      NobodysHeader(base, ring, ptr, size, live, blocks, owner, a, x);
      hide FreeList, Sorted, Cover;
      HeadersElsewhere(base, ring, ptr, size, live, blocks, x, word0, word1);
      ptr, size := ptr[x := word0], size[x := word1];
    }
  }

  lemma NothingTouched(live: Blocks, ptr: Words, size: Words)
    ensures Untouched(live, ptr, size, ptr, size)
  {
  }

  lemma NobodysHeader(base: int, ring: seq<int>, ptr: Words, size: Words, live: Blocks, blocks: Blocks,
          owner: map<int, int>, a: int, x: int)
    requires Good(base, ring, ptr, size, live, blocks, owner) && base !in owner && a in live && Inside(live, a, x)
    ensures x !in blocks && x !in ring && x != base
  {
    assert Within(blocks, a, x);
    assert x in blocks ==> Within(blocks, x, x);
    NotListed(base, ring, size, live, blocks, x);
  }

  lemma HeadersElsewhere(base: int, ring: seq<int>, ptr: Words, size: Words, live: Blocks, blocks: Blocks, x: int,
          word0: int, word1: int)
    requires FreeList(base, ring, ptr, size) && Sorted(base, ring, size, live, blocks)
    requires x !in blocks && x !in ring && x != base
    ensures FreeList(base, ring, ptr[x := word0], size[x := word1])
    ensures Sorted(base, ring, size[x := word1], live, blocks)
  {
    Unlisted(ring, ptr, size, x, word0, word1);
  }

  /**
   What validity means for the clients of a heap: blocks in use are disjoint from each other and from every free
   block, the units that sbrk has given are those of all blocks, free or in use, each in exactly one, and no two
   free blocks touch.
   */
  lemma HeapMeaning(h: Heap)
    requires h.Valid() && h.freep != 0
    ensures forall a, b :: a in h.live && b in h.live && a < b ==> a + h.live[a] <= b
    ensures forall a, i :: a in h.live && 1 <= i < |h.ring| ==>
              a + h.live[a] <= h.ring[i] || h.ring[i] + h.size[h.ring[i]] <= a
    ensures forall x :: Given(h.grants, x) <==>
              (exists b :: b in h.blocks && Within(h.blocks, b, x))
    ensures forall x, b, c :: b in h.blocks && c in h.blocks && Within(h.blocks, b, x) && Within(h.blocks, c, x) ==>
      b == c
    ensures forall i, j :: 1 <= i < j < |h.ring| ==> h.ring[i] + h.size[h.ring[i]] < h.ring[j]
  {
    forall a, b | a in h.live && b in h.live && a < b ensures a + h.live[a] <= b {
      BlocksDisjoint(h.blocks, h.owner, a, b);
    }
    forall a, i | a in h.live && 1 <= i < |h.ring|
      ensures a + h.live[a] <= h.ring[i] || h.ring[i] + h.size[h.ring[i]] <= a
    {
      var b := h.ring[i];
      assert b in h.blocks && b in h.ring;
      if a < b {
        BlocksDisjoint(h.blocks, h.owner, a, b);
      } else {
        BlocksDisjoint(h.blocks, h.owner, b, a);
      }
    }
    forall i, j | 1 <= i < j < |h.ring| ensures h.ring[i] + h.size[h.ring[i]] < h.ring[j] {
      assert Apart(h.ring, h.size, i, j);
    }
  }
}
