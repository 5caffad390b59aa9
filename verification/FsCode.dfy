/** fs.c and the chunk loop of file.c, over the array of latest block contents. */
module FsCode {
  import opened Blocks
  import opened FsLayout
  import opened FsInvariant
  import opened FsContents
  import opened FsFree
  import opened SetSizes

  const T_DEV := 3
  const NDEV := 10

  // ---------------------------------------------------------------- relations between two moments

  datatype Moment = Moment(disk: Disk, table: seq<Dinode>, files: seq<seq<int>>, owner: Owner)

  /** New owners belong to file i; old ones stay. */
  ghost predicate Grown(owner: Owner, after: Owner, i: nat) {
    && (forall b :: b in owner ==> b in after && after[b] == owner[b])
    && (forall b :: b in after && b !in owner ==> after[b].inum == i)
  }

  /** Only file i differs. */
  ghost predicate OthersSame(files: seq<seq<int>>, after: seq<seq<int>>, table: seq<Dinode>, table': seq<Dinode>,
          i: nat) {
    && |after| == |files| && |table'| == |table|
    && forall j: nat :: j < |files| && j < |table| && j != i ==> after[j] == files[j] && table'[j] == table[j]
  }

  /** The data blocks in use stay as they are; only the indirect block of file i may change. */
  ghost predicate DataKept(disk: Disk, after: Disk, owner: Owner, i: nat) {
    && |after| == |disk|
    && forall b :: b in owner && owner[b] != Indirect(i) && 0 <= b < |disk| ==> after[b] == disk[b]
  }

  /** Blocks of the free map; a map of one block is block bmapstart. */
  ghost predicate MapBlocks(g: Super, bits: set<int>) {
    forall b :: b in bits ==> g.bmapstart <= b < g.datastart && (g.size <= BPB ==> b == g.bmapstart)
  }

  /** From m to n only file i changed, the blocks changed are all of touched, and none of them holds inodes. */
  ghost predicate Kept(g: Super, m: Moment, n: Moment, i: nat, touched: set<int>) {
    && OthersKept(m.disk, n.disk, m.owner, i)
    && OnlyTouched(m.disk, n.disk, touched)
    && OthersSame(m.files, n.files, m.table, n.table, i)
    && forall b :: b in touched ==> g.bmapstart <= b
  }

  /** The same, with blocks gained and none lost. */
  ghost predicate Framed(g: Super, m: Moment, n: Moment, i: nat, touched: set<int>) {
    && Grown(m.owner, n.owner, i)
    && Kept(g, m, n, i, touched)
  }

  lemma FramedTwice(g: Super, m: Moment, n: Moment, q: Moment, i: nat, s: set<int>, t: set<int>)
    requires Framed(g, m, n, i, s) && Framed(g, n, q, i, t)
    ensures Framed(g, m, q, i, s + t)
  {
  }

  lemma DataKeptOthers(disk: Disk, after: Disk, owner: Owner, i: nat)
    requires DataKept(disk, after, owner, i)
    ensures OthersKept(disk, after, owner, i)
  {
  }

  /** An allocation changes a map block and a block that nobody owned. */
  lemma AllocKeeps(g: Super, disk: Disk, after: Disk, owner: Owner, i: nat, b: int)
    requires g.Valid() && g.datastart <= b < g.size == |disk| && b !in owner
      && OnlyTouched(disk, after, {g.BBlock(b), b})
    requires forall c :: c in owner ==> g.datastart <= c
    ensures DataKept(disk, after, owner, i) && (forall c :: c in owner && c < |disk| ==> after[c] == disk[c])
    ensures MapBlocks(g, {g.BBlock(b)}) && g.bmapstart <= g.BBlock(b)
  {
    BlockRanges(g, 0, b);
  }

  lemma RealRange(g: Super, table: seq<Dinode>, files: seq<seq<int>>, owner: Owner)
    requires Real(g, table, files, owner)
    ensures forall c :: c in owner ==> g.datastart <= c < g.size
  {
  }

  lemma GrownBy(owner: Owner, b: int, p: Place)
    requires b !in owner
    ensures Grown(owner, owner[b := p], p.inum)
  {
  }

  /** Block b was free; it and its bit in the map are all that changed, and it is zeroed. */
  ghost predicate Allocated(g: Super, disk: Disk, after: Disk, owner: Owner, b: int) {
    && g.Valid() && |disk| == g.size
    && g.datastart <= b < g.size && b !in owner
    && OnlyTouched(disk, after, {g.BBlock(b), b}) && after[b] == Zeros()
    && (forall c: nat :: c < g.size ==> (Used(g, after, c) <==> c == b || Used(g, disk, c)))
  }

  /** What the map of an inode says of its first missing block and of those it has. */
  lemma Listed(g: Super, disk: Disk, table: seq<Dinode>, files: seq<seq<int>>, owner: Owner, i: nat, k: nat)
    requires Consistent(g, disk, table, files, owner) && i < |table| && k <= |files[i]| && k < MAXFILE
    ensures Maps(disk, table[i], files[i]) && |table[i].addrs| == NDIRECT + 1 && |files| == |table|
    ensures AddrAt(files[i], k) == 0 <==> k == |files[i]|
    ensures k < NDIRECT ==> table[i].addrs[k] == AddrAt(files[i], k)
    ensures Ind(table[i]) == table[i].addrs[NDIRECT]
    ensures Ind(table[i]) != 0 ==>
      0 < g.datastart <= Ind(table[i]) < |disk| && HasPlace(owner, Ind(table[i]), Indirect(i))
    ensures k >= NDIRECT && Ind(table[i]) != 0 ==> Word(disk[Ind(table[i])], k - NDIRECT) == AddrAt(files[i], k)
  {
    FileInRange(g, disk, table, files, owner, i);
    hide Used, Word;
    assert Maps(disk, table[i], files[i]);
    if Ind(table[i]) != 0 {
      assert HasPlace(owner, Ind(table[i]), Indirect(i));
    }
    if k >= NDIRECT && Ind(table[i]) != 0 {
      assert Word(disk[Ind(table[i])], k - NDIRECT) == AddrAt(files[i], NDIRECT + (k - NDIRECT));
    }
  }

  // ---------------------------------------------------------------- the three ways a file gains a block

  ghost predicate Sound(g: Super, m: Moment) {
    Consistent(g, m.disk, m.table, m.files, m.owner)
  }

  lemma SoundMap(g: Super, m: Moment)
    requires Sound(g, m)
    ensures BitmapAgrees(g, m.disk, m.owner)
  {
  }

  lemma GainDirect(g: Super, m: Moment, after: Disk, i: nat, d: Dinode, b: int)
    requires Sound(g, m) && Allocated(g, m.disk, after, m.owner, b)
    requires i < |m.table| && |m.files| == |m.table| && |m.files[i]| < NDIRECT && |m.table[i].addrs| == NDIRECT + 1
    requires d.addrs == m.table[i].addrs[|m.files[i]| := b]
    ensures
      var n := Moment(after, m.table[i := d], m.files[i := m.files[i] + [b]], m.owner[b := Slot(i, |m.files[i]|)]);
      && Sound(g, n) && Framed(g, m, n, i, {g.BBlock(b), b}) && DataKept(m.disk, after, m.owner, i)
      && Ind(d) == Ind(m.table[i]) == 0
  {
    hide Used, Maps, Owned, Refers, ListsWords;
    assert Maps(m.disk, m.table[i], m.files[i]);
    MapsDirect(m.disk, after, m.table[i], d, m.files[i], b);
    RealRange(g, m.table, m.files, m.owner);
    AllocKeeps(g, m.disk, after, m.owner, i, b);
    DataKeptOthers(m.disk, after, m.owner, i);
    BitmapClaim(g, m.disk, after, m.owner, b, Slot(i, |m.files[i]|));
    GrownBy(m.owner, b, Slot(i, |m.files[i]|));
    hide BitmapAgrees, Real, AllMap, DataKept, OthersKept, Grown;
    Appended(g, m.disk, after, m.table, m.files, m.owner, i, d, b);
  }

  lemma GainIndirect(g: Super, m: Moment, after: Disk, i: nat, d: Dinode, b: int)
    requires Sound(g, m) && Allocated(g, m.disk, after, m.owner, b)
    requires i < |m.table| && |m.files| == |m.table| && |m.files[i]| == NDIRECT && |m.table[i].addrs| == NDIRECT + 1
    requires Ind(m.table[i]) == 0 && d.addrs == m.table[i].addrs[NDIRECT := b]
    ensures
      var n := Moment(after, m.table[i := d], m.files, m.owner[b := Indirect(i)]);
      && Sound(g, n) && Framed(g, m, n, i, {g.BBlock(b), b}) && DataKept(m.disk, after, m.owner, i)
      && Ind(d) == b
  {
    hide Used, Maps, Owned, Refers, ListsWords;
    assert Maps(m.disk, m.table[i], m.files[i]);
    MapsNewIndirect(m.disk, after, m.table[i], d, m.files[i], b);
    RealRange(g, m.table, m.files, m.owner);
    AllocKeeps(g, m.disk, after, m.owner, i, b);
    DataKeptOthers(m.disk, after, m.owner, i);
    BitmapClaim(g, m.disk, after, m.owner, b, Indirect(i));
    GrownBy(m.owner, b, Indirect(i));
    hide BitmapAgrees, Real, AllMap, DataKept, OthersKept, Grown;
    GotIndirect(g, m.disk, after, m.table, m.files, m.owner, i, d, b);
  }

  lemma GainSlot(g: Super, m: Moment, mid: Disk, i: nat, b: int)
    requires Sound(g, m) && Allocated(g, m.disk, mid, m.owner, b)
    requires i < |m.table| && |m.files| == |m.table| && NDIRECT <= |m.files[i]| < MAXFILE && Ind(m.table[i]) != 0
    ensures 0 <= Ind(m.table[i]) < |m.disk| == |mid| && mid[Ind(m.table[i])] == m.disk[Ind(m.table[i])] && b < UINT
    ensures
      var ind := Ind(m.table[i]);
      var after := mid[ind := PutWord(mid[ind], |m.files[i]| - NDIRECT, b)];
      var n := Moment(after, m.table, m.files[i := m.files[i] + [b]], m.owner[b := Slot(i, |m.files[i]|)]);
      && Sound(g, n) && Framed(g, m, n, i, {g.BBlock(b), b} + {ind}) && DataKept(m.disk, after, m.owner, i)
      && after[b] == Zeros()
  {
    hide Consistent, Used, Maps, Owned, Refers, ListsWords, PutWord, Allocated, BitmapAgrees, Real, AllMap, DataKept,
      OthersKept,
      Grown, OnlyTouched, Zeros, HasPlace, Ind;
    var d, ind := m.table[i], Ind(m.table[i]);
    Listed(g, m.disk, m.table, m.files, m.owner, i, |m.files[i]|);
    SlotStored(g, m, mid, i, b);
    var after := mid[ind := PutWord(mid[ind], |m.files[i]| - NDIRECT, b)];
    DataKeptOthers(m.disk, after, m.owner, i);
    MapsIndirect(m.disk, after, d, m.files[i], b);
    GrownBy(m.owner, b, Slot(i, |m.files[i]|));
    Appended(g, m.disk, after, m.table, m.files, m.owner, i, d, b);
    assert m.table[i := d] == m.table;
  }

  /** The writes of balloc and of the indirect block, before the ghost state follows. */
  lemma SlotStored(g: Super, m: Moment, mid: Disk, i: nat, b: int)
    requires Sound(g, m) && Allocated(g, m.disk, mid, m.owner, b)
    requires i < |m.table| && |m.files| == |m.table| && NDIRECT <= |m.files[i]| < MAXFILE
    requires 0 < g.datastart <= Ind(m.table[i]) < |m.disk| && HasPlace(m.owner, Ind(m.table[i]), Indirect(i))
    ensures |m.disk| == |mid| && mid[Ind(m.table[i])] == m.disk[Ind(m.table[i])]
      && g.bmapstart <= g.datastart <= b < UINT && b < |mid|
    ensures
      var ind := Ind(m.table[i]);
      var after := mid[ind := PutWord(mid[ind], |m.files[i]| - NDIRECT, b)];
      && DataKept(m.disk, after, m.owner, i) && BitmapAgrees(g, after, m.owner[b := Slot(i, |m.files[i]|)])
      && OnlyTouched(m.disk, after, {g.BBlock(b), b} + {ind}) && g.bmapstart <= g.BBlock(b)
      && after[b] == Zeros() && b !in m.owner && b < g.size
  {
    hide Used, Owned, AllMap, PutWord, Zeros;
    var ind := Ind(m.table[i]);
    RealRange(g, m.table, m.files, m.owner);
    hide Real;
    AllocKeeps(g, m.disk, mid, m.owner, i, b);
    BitmapClaim(g, m.disk, mid, m.owner, b, Slot(i, |m.files[i]|));
    hide BitmapAgrees;
    var after := mid[ind := PutWord(mid[ind], |m.files[i]| - NDIRECT, b)];
    IndirectWritten(m.disk, mid, after, m.owner, i, ind);
    BitmapKept(g, mid, after, m.owner[b := Slot(i, |m.files[i]|)], {ind});
    TouchedTwice(m.disk, mid, after, {g.BBlock(b), b}, {ind});
    hide DataKept;
  }

  lemma TouchedTwice(disk: Disk, mid: Disk, after: Disk, s: set<int>, t: set<int>)
    requires OnlyTouched(disk, mid, s) && OnlyTouched(mid, after, t)
    ensures OnlyTouched(disk, after, s + t)
  {
  }

  lemma IndirectWritten(disk: Disk, mid: Disk, after: Disk, owner: Owner, i: nat, ind: int)
    requires DataKept(disk, mid, owner, i) && HasPlace(owner, ind, Indirect(i)) && OnlyTouched(mid, after, {ind})
    ensures DataKept(disk, after, owner, i)
  {
  }

  /** From m to n file i may have got a block and an indirect block, and nothing else changed. */
  ghost predicate Extended(g: Super, m: Moment, n: Moment, i: nat, touched: set<int>, bits: set<int>) {
    && Framed(g, m, n, i, touched)
    && DataKept(m.disk, n.disk, m.owner, i)
    && MapBlocks(g, bits)
    && i < |m.table| && i < |n.table|
    && n.table[i] == m.table[i].(addrs := n.table[i].addrs)
  }

  /**
   Entry bn of file i is block b. Either it was there and nothing changed, or it is the file's next block: new,
   zeroed, everything else kept, and the blocks written are b, the indirect block and those of bits.
   */
  ghost predicate Mapped(g: Super, m: Moment, n: Moment, i: nat, bn: nat, b: int, touched: set<int>, bits: set<int>) {
    && i < |m.files| && i < |m.table| && i < |n.files| && i < |n.table|
    && bn < |n.files[i]| && b == n.files[i][bn]
    && (bn < |m.files[i]| ==> n == m && touched == {} && bits == {})
    && (bn >= |m.files[i]| ==> NextBlock(g, m, n, i, b, touched, bits))
    && (Ind(n.table[i]) == Ind(m.table[i]) || (Ind(m.table[i]) == 0 && bn >= NDIRECT))
    && (bn >= NDIRECT ==> Ind(n.table[i]) != 0)
  }

  ghost predicate NextBlock(g: Super, m: Moment, n: Moment, i: nat, b: int, touched: set<int>, bits: set<int>) {
    && i < |m.files| && i < |m.table| && i < |n.files| && i < |n.table|
    && n.files[i] == m.files[i] + [b] && b !in m.owner
    && 0 <= b < |n.disk| && n.disk[b] == Zeros()
    && Extended(g, m, n, i, touched, bits)
    && (forall x :: x in touched ==> x in bits || x == b || x == Ind(n.table[i]))
    && |bits| <= 1 + if Ind(m.table[i]) == 0 && Ind(n.table[i]) != 0 then 1 else 0
  }

  /** The indirect block of file i is ind: it was there and nothing changed, or it is new and lists nothing. */
  ghost predicate Loaded(g: Super, m: Moment, n: Moment, i: nat, ind: int, touched: set<int>, bits: set<int>) {
    && i < |m.files| && i < |m.table| && i < |n.table|
    && Ind(n.table[i]) == ind && ind != 0
    && n.files == m.files
    && Extended(g, m, n, i, touched, bits)
    && (Ind(m.table[i]) != 0 ==> n == m && touched == {} && bits == {})
    && (forall x :: x in touched ==> x in bits || x == ind)
    && |bits| <= if Ind(m.table[i]) == 0 then 1 else 0
  }

  lemma LoadedThenSlot(g: Super, m: Moment, mid: Moment, n: Moment, i: nat, b: int, touched: set<int>,
          bits: set<int>, more: set<int>, bit: int)
    requires i < |mid.table| && Loaded(g, m, mid, i, Ind(mid.table[i]), touched, bits)
    requires Extended(g, mid, n, i, more, {bit})
    requires n.table == mid.table && i < |n.files| && i < |mid.files| && n.files[i] == mid.files[i] + [b]
    requires b !in mid.owner && 0 <= b < |n.disk| && n.disk[b] == Zeros()
    requires forall x :: x in more ==> x == bit || x == b || x == Ind(n.table[i])
    ensures NextBlock(g, m, n, i, b, touched + more, bits + {bit})
  {
    hide DataKept, OthersKept, MapBlocks, OnlyTouched, OthersSame, Zeros, Ind;
    ExtendedTwice(g, m, mid, n, i, touched, more, bits, {bit});
  }

  lemma WrittenFree(g: Super, m: Moment, n: Moment, i: nat, touched: set<int>, bits: set<int>, data: set<int>)
    requires Sound(g, m) && Sound(g, n) && Written(g, m, n, i, touched, bits, data)
    ensures FreeBlocks(g, m.disk) == FreeBlocks(g, n.disk) + Lacks(|m.files[i]|, Ind(m.table[i]), |n.files[i]|)
    ensures Ind(m.table[i]) != 0 ==> Ind(n.table[i]) != 0
    ensures Ind(m.table[i]) == 0 ==> (Ind(n.table[i]) != 0 <==> |n.files[i]| > NDIRECT) && |m.files[i]| <= NDIRECT
  {
    IndAgrees(g, m, i);
    IndAgrees(g, n, i);
    hide Consistent, FreeBlocks, Ind, Kept;
    GrownFree(g, m, n, i);
  }

  lemma LacksTwice(has: nat, ind: int, has': nat, ind': int, upto: nat)
    requires has <= has' <= upto && (ind != 0 ==> ind' != 0)
    requires ind == 0 ==> (ind' != 0 <==> has' > NDIRECT) && has <= NDIRECT
    ensures Lacks(has, ind, upto) == Lacks(has, ind, has') + Lacks(has', ind', upto)
  {
  }

  lemma LacksMore(has: nat, ind: int, upto: nat, more: nat)
    requires upto <= more
    ensures Lacks(has, ind, upto) <= Lacks(has, ind, more)
  {
  }

  lemma LacksSized(d: Dinode, blocks: seq<int>, size: nat)
    requires Sized(d, blocks) && size >= d.size
    ensures Lacks(|blocks|, Ind(d), BlocksFor(size)) == BlocksWith(size) - BlocksWith(d.size)
  {
  }

  lemma EnoughFor(g: Super, m: Moment, i: nat, size: nat)
    requires AtRest(g, m) && i < |m.table| && size >= m.table[i].size
    ensures i < |m.files| && Lacks(|m.files[i]|, Ind(m.table[i]), BlocksFor(size))
      == BlocksWith(size) - BlocksWith(m.table[i].size)
    ensures BlocksWith(size) >= BlocksWith(m.table[i].size)
  {
    SizedLocked(g, m, i);
    RestSized(g, m, i);
    LacksSized(m.table[i], m.files[i], size);
  }

  lemma SameFree(g: Super, m: Moment, n: Moment)
    requires Sound(g, m) && Sound(g, n) && n.owner == m.owner
    ensures FreeBlocks(g, n.disk) == FreeBlocks(g, m.disk)
  {
    FreeIsUnowned(g, m.disk, m.owner);
    FreeIsUnowned(g, n.disk, n.owner);
    assert FreeSet(g, m.disk) == FreeSet(g, n.disk);
  }

  /** What file i gains from m to n, the map loses. */
  lemma GrownFree(g: Super, m: Moment, n: Moment, i: nat)
    requires Sound(g, m) && Sound(g, n) && Grown(m.owner, n.owner, i)
    requires i < |m.files| && i < |n.files| && i < |m.table| && i < |n.table| && m.files[i] <= n.files[i]
    requires Ind(m.table[i]) != 0 ==> Ind(n.table[i]) == Ind(m.table[i])
    ensures FreeBlocks(g, m.disk) == FreeBlocks(g, n.disk) + (|n.files[i]| - |m.files[i]|)
              + if Ind(m.table[i]) == 0 && Ind(n.table[i]) != 0 then 1 else 0
  {
    SoundValid(g, m);
    SoundValid(g, n);
    hide Consistent, FreeBlocks, Ind;
    FreeGone(g, m.disk, m.table, m.files, m.owner, n.disk, n.table, n.files, n.owner, i);
  }

  lemma LoadedFree(g: Super, m: Moment, n: Moment, i: nat, ind: int, touched: set<int>, bits: set<int>)
    requires Sound(g, m) && Sound(g, n) && Loaded(g, m, n, i, ind, touched, bits) && i < |m.files| && i < |n.files|
    ensures FreeBlocks(g, m.disk) == FreeBlocks(g, n.disk) + if Ind(m.table[i]) == 0 then 1 else 0
  {
    hide Consistent, FreeBlocks, Ind, Kept, DataKept;
    GrownFree(g, m, n, i);
  }

  lemma MappedFree(g: Super, m: Moment, n: Moment, i: nat, bn: nat, b: int, touched: set<int>, bits: set<int>)
    requires Sound(g, m) && Sound(g, n) && Mapped(g, m, n, i, bn, b, touched, bits) && bn <= |m.files[i]|
    ensures FreeBlocks(g, m.disk) == FreeBlocks(g, n.disk) + Lacks(|m.files[i]|, Ind(m.table[i]), bn + 1)
  {
    hide Consistent, FreeBlocks, Ind, Kept, DataKept;
    if bn >= |m.files[i]| {
      GrownFree(g, m, n, i);
    }
  }

  // ---------------------------------------------------------------- turns of the loop of writei

  /**
   From m to n file i was written to in the data blocks data, growing by whole blocks; the other blocks written are
   its indirect block and bits of the map, one for each block gained.
   */
  ghost predicate Written(g: Super, m: Moment, n: Moment, i: nat, touched: set<int>, bits: set<int>, data: set<int>) {
    && g.Valid()
    && i < |m.files| && i < |m.table| && i < |n.files| && i < |n.table|
    && Framed(g, m, n, i, touched) && MapBlocks(g, bits)
    && m.files[i] <= n.files[i]
    && (forall x :: x in touched ==> x in bits || x in data || x == Ind(n.table[i]))
    && |bits| <= |n.files[i]| - |m.files[i]| + (if Ind(m.table[i]) == 0 && Ind(n.table[i]) != 0 then 1 else 0)
    && n.table[i] == m.table[i].(addrs := n.table[i].addrs)
    && (|n.files[i]| == |m.files[i]| ==> n.table == m.table)
    && (Ind(m.table[i]) != 0 ==> Ind(n.table[i]) == Ind(m.table[i]))
    && ((Ind(m.table[i]) != 0 <==> |m.files[i]| > NDIRECT) ==> (Ind(n.table[i]) != 0 <==> |n.files[i]| > NDIRECT))
  }

  lemma WrittenNothing(g: Super, m: Moment, i: nat)
    requires g.Valid() && i < |m.files| && i < |m.table|
    ensures Written(g, m, m, i, {}, {}, {})
  {
  }

  lemma WrittenTwice(g: Super, m: Moment, n: Moment, q: Moment, i: nat,
                     s: set<int>, t: set<int>, bits: set<int>, more: set<int>, data: set<int>, b: int)
    requires Written(g, m, n, i, s, bits, data) && Written(g, n, q, i, t, more, {b})
    ensures Written(g, m, q, i, s + t, bits + more, data + {b})
    ensures |data + {b}| <= |data| + 1
  {
    SizeOfUnion(bits, more);
    AddOne(data, b);
    FramedTwice(g, m, n, q, i, s, t);
    assert forall x :: x in s ==> x != 0 by { NotZero(g, m, n, i, s); }
    hide Ind, OnlyTouched, OthersKept, Grown;
  }

  lemma WrittenTouched(g: Super, m: Moment, n: Moment, i: nat, touched: set<int>, bits: set<int>, data: set<int>)
    requires Written(g, m, n, i, touched, bits, data)
    ensures OnlyTouched(m.disk, n.disk, touched)
  {
  }

  lemma NotZero(g: Super, m: Moment, n: Moment, i: nat, s: set<int>)
    requires g.Valid() && Framed(g, m, n, i, s)
    ensures forall x :: x in s ==> x != 0
  {
  }

  ghost predicate DataHeld(disk: Disk, after: Disk, blocks: seq<int>, blocks': seq<int>)
    requires InRange(disk, blocks)
  {
    && |after| == |disk|
    && blocks <= blocks'
    && InRange(after, blocks')
    && forall k: nat :: k < |blocks| ==> after[blocks[k]] == disk[blocks[k]]
  }

  /** bmap keeps the bytes that the file has. */
  lemma MappedHolds(g: Super, m: Moment, n: Moment, i: nat, bn: nat, b: int, touched: set<int>, bits: set<int>)
    requires Sound(g, m) && Sound(g, n) && Mapped(g, m, n, i, bn, b, touched, bits)
    ensures InRange(m.disk, m.files[i]) && DataHeld(m.disk, n.disk, m.files[i], n.files[i]) && Lone(n.files[i], bn)
  {
    hide Used, Maps, Refers, Zeros, ListsWords;
    FileInRange(g, m.disk, m.table, m.files, m.owner, i);
    FileInRange(g, n.disk, n.table, n.files, n.owner, i);
    hide Owned, Real, BitmapAgrees, AllMap;
    forall j: nat | j < |n.files[i]| && j != bn ensures n.files[i][j] != b {
      assert HasPlace(n.owner, n.files[i][j], Slot(i, j));
    }
    if bn >= |m.files[i]| {
      forall k: nat | k < |m.files[i]| ensures n.disk[m.files[i][k]] == m.disk[m.files[i][k]] {
        assert HasPlace(m.owner, m.files[i][k], Slot(i, k));
      }
    }
  }

  /** bmap, then the memmove and log_write of one turn. */
  lemma OneTurn(g: Super, m: Moment, mid: Moment, i: nat, bn: nat, b: int, data: Data, touched: set<int>,
          bits: set<int>)
    requires Sound(g, m) && Sound(g, mid) && Mapped(g, m, mid, i, bn, b, touched, bits) && bn <= |m.files[i]|
    ensures 0 <= b < |mid.disk|
    ensures
      var n := mid.(disk := mid.disk[b := data]);
      Sound(g, n) && Written(g, m, n, i, touched + {b}, bits, {b})
  {
    hide Used, Owned, Refers, Zeros, ListsWords, BitmapAgrees, AllMap, Real;
    FileInRange(g, mid.disk, mid.table, mid.files, mid.owner, i);
    assert HasPlace(mid.owner, b, Slot(i, bn));
    DataWritten(g, mid.disk, mid.table, mid.files, mid.owner, i, bn, data);
    var n := mid.(disk := mid.disk[b := data]);
    SoundValid(g, m);
    assert Framed(g, mid, n, i, {b}) by {
      DataPlace(mid.owner, b, Slot(i, bn), mid.disk, data);
    }
    assert Framed(g, m, mid, i, touched);
    FramedTwice(g, m, mid, n, i, touched, {b});
    IndAgrees(g, mid, i);
    hide Framed, Maps, Consistent, HasPlace;
  }

  lemma SoundValid(g: Super, m: Moment)
    requires Sound(g, m)
    ensures g.Valid() && |m.disk| == g.size && |m.files| == |m.table|
  {
  }

  lemma IndAgrees(g: Super, m: Moment, i: nat)
    requires Sound(g, m) && i < |m.table|
    ensures |m.files| == |m.table|
    ensures |m.files[i]| > NDIRECT ==> Ind(m.table[i]) != 0
    ensures Ind(m.table[i]) != 0 ==> |m.files[i]| >= NDIRECT
  {
    assert Maps(m.disk, m.table[i], m.files[i]);
  }

  /** The dinode of inode i. */
  function InodeAt(g: Super, disk: Disk, i: nat): Dinode
    requires g.Valid() && |disk| == g.size && i < g.ninodes
  {
    BlockRanges(g, i, 0);
    InodeIn(disk[g.IBlock(i)], i % IPB)
  }

  /** Between operations. */
  ghost predicate AtRest(g: Super, m: Moment) {
    && Sound(g, m)
    && SoundTable(g, m.table)
    && (forall i: nat :: i < |m.table| ==> InodeAt(g, m.disk, i) == m.table[i])
    && (forall i: nat :: i < |m.table| && i < |m.files| ==> Sized(m.table[i], m.files[i]))
  }

  ghost predicate SoundTable(g: Super, table: seq<Dinode>) {
    && |table| == g.ninodes
    && forall i: nat :: i < |table| ==> table[i].Valid()
  }

  ghost function BytesOf(g: Super, m: Moment, i: nat): (s: seq<Byte>)
    requires Sound(g, m) && i < |m.table| && i < |m.files| && Sized(m.table[i], m.files[i])
    ensures |s| == m.table[i].size
  {
    FileInRange(g, m.disk, m.table, m.files, m.owner, i);
    EnoughBlocks(m.table[i].size);
    Contents(m.disk, m.files[i], m.table[i].size)
  }

  /** An operation on file i leaves every other file as it is, on disk and in memory. */
  ghost predicate OthersUntouched(g: Super, m: Moment, n: Moment, i: nat)
    requires AtRest(g, m) && AtRest(g, n)
  {
    forall j: nat :: j < g.ninodes && j != i ==>
      n.table[j] == m.table[j] && n.files[j] == m.files[j] && BytesOf(g, n, j) == BytesOf(g, m, j)
  }

  /** The end of a write to file i: q is n after iupdate, or n itself. */
  lemma ComesToRest(g: Super, m: Moment, n: Moment, q: Moment, i: nat, d: Dinode, touched: set<int>, s: set<int>)
    requires AtRest(g, m) && Kept(g, m, n, i, touched) && Sound(g, q) && i < |m.table|
    requires q.files == n.files && q.owner == n.owner && |n.table| == |m.table| && q.table == n.table[i := d]
    requires SoundTable(g, q.table) && i < |q.files| && Sized(d, q.files[i])
    requires OnlyTouched(n.disk, q.disk, s) && (forall b :: b in s ==> b < g.bmapstart)
    requires InodeAt(g, q.disk, i) == d
    requires forall j: nat :: j < g.ninodes && j != i ==>
      |n.disk| == g.size && InodeAt(g, q.disk, j) == InodeAt(g, n.disk, j)
    ensures AtRest(g, q) && OthersUntouched(g, m, q, i)
  {
    hide Consistent, Used, Sized, Dinode.Valid, InodeIn;
    SoundValid(g, m);
    SoundValid(g, q);
    KeptBelow(g, m, n, q, i, s);
    forall j: nat | j < g.ninodes && j != i
      ensures InodeAt(g, q.disk, j) == q.table[j] && Sized(q.table[j], q.files[j])
    {
      BlockRanges(g, j, 0);
      assert n.disk[g.IBlock(j)] == m.disk[g.IBlock(j)];
      assert InodeAt(g, m.disk, j) == m.table[j];
    }
    forall j: nat | j < g.ninodes && j != i
      ensures q.table[j] == m.table[j] && q.files[j] == m.files[j] && BytesOf(g, q, j) == BytesOf(g, m, j)
    {
      SizedRoom(m.table[j], m.files[j]);
      OtherContents(g, m.disk, q.disk, m.table, m.files, m.owner, i, j, m.table[j].size);
    }
  }

  lemma SizedRoom(d: Dinode, blocks: seq<int>)
    requires Sized(d, blocks)
    ensures 0 <= d.size <= BSIZE * |blocks|
  {
    EnoughBlocks(d.size);
  }

  lemma KeptBelow(g: Super, m: Moment, n: Moment, q: Moment, i: nat, s: set<int>)
    requires Sound(g, m) && OthersKept(m.disk, n.disk, m.owner, i)
    requires OnlyTouched(n.disk, q.disk, s) && (forall b :: b in s ==> b < g.bmapstart)
    ensures OthersKept(m.disk, q.disk, m.owner, i)
  {
    RealRange(g, m.table, m.files, m.owner);
  }

  /** A disk without files satisfies the invariant: dinodes zeroed, the metadata alone marked in the map. */
  lemma EmptyDisk(g: Super, disk: Disk)
    requires g.Valid() && |disk| == g.size
    requires forall b: nat :: b < g.size ==> (Used(g, disk, b) <==> b < g.datastart)
    requires forall b :: g.inodestart <= b < g.bmapstart ==> disk[b] == Zeros()
    ensures AtRest(g, Moment(disk, seq(g.ninodes, _ => ZeroInode()), seq(g.ninodes, _ => []), map[]))
  {
    hide Used;
    forall i: nat | i < g.ninodes ensures InodeAt(g, disk, i) == ZeroInode() {
      BlockRanges(g, i, 0);
      ZeroDecodes(i % IPB);
    }
  }

  /**
   The image that mkfs makes when it is given no files: a root directory of one block, and the map marked up to it.
   */
  lemma RootImage(g: Super, disk: Disk)
    requires g.Valid() && |disk| == g.size && g.datastart < g.size && g.ninodes > 1
    requires forall b: nat :: b < g.size ==> (Used(g, disk, b) <==> b < g.datastart + 1)
    requires forall i: nat :: i < g.ninodes ==>
      InodeAt(g, disk, i) == if i == 1 then RootInode(g.datastart) else ZeroInode()
    ensures AtRest(g, Moment(disk, seq(g.ninodes, i => if i == 1 then RootInode(g.datastart) else ZeroInode()),
                             seq(g.ninodes, i => if i == 1 then [g.datastart] else []), map[g.datastart := Slot(1, 0)]))
  {
    hide Used, InodeAt;
    var table := seq(g.ninodes, i => if i == 1 then RootInode(g.datastart) else ZeroInode());
    var files := seq(g.ninodes, i => if i == 1 then [g.datastart] else []);
    var owner := map[g.datastart := Slot(1, 0)];
    assert Real(g, table, files, owner) by {
      assert Refers(table, files, g.datastart, Slot(1, 0));
    }
    assert BitmapAgrees(g, disk, owner);
    RootMaps(disk, g.datastart);
    assert AllMap(disk, table, files);
    assert Owned(table, files, owner);
    assert SoundTable(g, table);
  }

  lemma RootMaps(disk: Disk, b: int)
    requires 0 <= b < UINT
    ensures Maps(disk, RootInode(b), [b]) && RootInode(b).Valid()
    ensures Maps(disk, ZeroInode(), []) && ZeroInode().Valid()
  {
    var d := RootInode(b);
    assert d.addrs[0] == b && forall k :: 1 <= k <= NDIRECT ==> d.addrs[k] == seq(NDIRECT, _ => 0)[k - 1];
  }

  /** mkfs counts the size of the root directory up to whole blocks before it ends. */
  function RootInode(b: int): Dinode {
    Dinode(1, 0, 0, 1, BSIZE, [b] + seq(NDIRECT, _ => 0))
  }

  /**
   The last step of mkfs makes the size of the root directory the next multiple of BSIZE above it. The blocks that the
   directory has are then as many as its size says exactly when the size was not a multiple already.
   */
  lemma RootSizeRounded(d: Dinode, blocks: seq<int>)
    requires Sized(d, blocks) && (d.size / BSIZE + 1) * BSIZE <= MAXFILE * BSIZE
    ensures Sized(d.(size := (d.size / BSIZE + 1) * BSIZE), blocks) <==> d.size % BSIZE != 0
  {
    var k, o := d.size / BSIZE, d.size % BSIZE;
    assert d.size == BSIZE * k + o;
    assert BlocksFor(BSIZE * (k + 1)) == k + 1;
    assert BlocksFor(d.size) == if o == 0 then k else k + 1;
  }

  /**
   A root directory of 32 entries fills its block; rounded up, its size reaches a second block that it does not have.
   */
  lemma AlignedRootBreaks(d: Dinode, b: int)
    requires d.size == BSIZE && Sized(d, [b])
    ensures !Sized(d.(size := (d.size / BSIZE + 1) * BSIZE), [b])
  {
    RootSizeRounded(d, [b]);
  }

  function ZeroInode(): Dinode {
    Dinode(0, 0, 0, 0, 0, seq(NDIRECT + 1, _ => 0))
  }

  lemma ZeroDecodes(t: nat)
    requires t < IPB
    ensures InodeIn(Zeros(), t) == ZeroInode()
  {
    assert InodeIn(Zeros(), t).addrs == ZeroInode().addrs;
  }

  // ---------------------------------------------------------------- counting the blocks of a transaction

  lemma MapCount(g: Super, bits: set<int>)
    requires MapBlocks(g, bits) && g.size <= BPB
    ensures |bits| <= 1
  {
    SizeOfPart(bits, {g.bmapstart});
  }

  /** The blocks that a write of n bytes at start logs, its inode's block ib included. */
  lemma WriteCount(g: Super, m: Moment, n: Moment, i: nat, touched: set<int>, bits: set<int>, data: set<int>,
                   size: nat, start: nat, len: nat, ib: int)
    requires Written(g, m, n, i, touched, bits, data) && start <= size && len <= 1536
    requires |data| <= if len == 0 then 0 else BlocksFor(start + len) - start / BSIZE
    requires |m.files[i]| == BlocksFor(size) && |n.files[i]| == BlocksFor(Max(size, start + len))
    ensures |touched + {ib}| <= MAXOPBLOCKS
    ensures g.size <= BPB ==> |touched + {ib}| <= 7
  {
    hide Framed, Ind;
    ThreeChunks(size, start, len);
    var rest := {Ind(n.table[i]), ib};
    assert |rest| <= 2;
    SizeOfUnion(bits, data);
    SizeOfUnion(bits + data, rest);
    SizeOfPart(touched + {ib}, bits + data + rest);
    if g.size <= BPB {
      MapCount(g, bits);
    }
  }

  lemma ThreeChunks(size: nat, start: nat, len: nat)
    requires start <= size && len <= 1536
    ensures BlocksFor(start + len) - start / BSIZE <= 4
    ensures BlocksFor(Max(size, start + len)) - BlocksFor(size) <= 3
  {
  }

  // ---------------------------------------------------------------- the inode in memory

  class Inode {
    const inum: nat
    var kind: int
    var major: int
    var minor: int
    var nlink: int
    var size: int
    var addrs: seq<int>
    var valid: bool               // the fields have been read from disk

    constructor (i: nat)
      ensures inum == i && !valid && Value() == Dinode(0, 0, 0, 0, 0, [])
    {
      inum, valid := i, false;
      kind, major, minor, nlink, size, addrs := 0, 0, 0, 0, 0, [];
    }

    /** The fields that the disk stores. */
    function Value(): Dinode
      reads this
    {
      Dinode(kind, major, minor, nlink, size, addrs)
    }
  }

  /** One call of log_write. */
  datatype Write = Write(b: int, data: Data)

  /** The disk after these calls. */
  ghost function Replayed(disk: Disk, ws: seq<Write>): (r: Disk)
    ensures |r| == |disk|
  {
    if ws == [] then disk
    else
      var d, w := Replayed(disk, ws[..|ws| - 1]), ws[|ws| - 1];
      if 0 <= w.b < |d| then d[w.b := w.data] else d
  }

  lemma ReplayedMore(disk: Disk, ws: seq<Write>, w: Write)
    requires 0 <= w.b < |disk|
    ensures Replayed(disk, ws + [w]) == Replayed(disk, ws)[w.b := w.data]
  {
    assert (ws + [w])[..|ws|] == ws;
  }

  /** What one transaction found and left, the blocks that it gave to log_write, and its calls. */
  datatype Transaction = Transaction(before: Disk, after: Moment, blocks: set<int>, writes: seq<Write>)

  predicate Noted(writes: seq<Write>, blocks: set<int>) {
    forall k :: 0 <= k < |writes| ==> writes[k].b in blocks
  }

  /**
   Its calls make what it leaves, which is at rest; only blocks logged differ, and they are within the reservation:
   within 7 when one block holds the map.
   */
  ghost predicate Fits(g: Super, t: Transaction) {
    && OnlyTouched(t.before, t.after.disk, t.blocks)
    && Replayed(t.before, t.writes) == t.after.disk
    && Noted(t.writes, t.blocks)
    && AtRest(g, t.after)
    && |t.blocks| <= MAXOPBLOCKS
    && (g.size <= BPB ==> |t.blocks| <= 7)
  }

  /** Transactions that fit lead from one disk to the other, with nothing changed between them. */
  ghost predicate Chain(g: Super, before: Disk, ts: seq<Transaction>, after: Disk) {
    if ts == [] then before == after else
      var t := ts[|ts| - 1];
      t.after.disk == after && Fits(g, t) && Chain(g, before, ts[..|ts| - 1], t.before)
  }

  /** File i is as it was, or with the beginning of src written into it from start on. */
  ghost predicate Partly(g: Super, m: Moment, i: nat, whole: seq<Byte>, start: nat, src: seq<Byte>) {
    && AtRest(g, m) && i < |m.table| && i < |m.files|
    && (start > |whole| ==> BytesOf(g, m, i) == whole)
    && (start <= |whole| ==> exists c: nat {:trigger src[..c]} ::
          c <= |src| && BytesOf(g, m, i) == Splice(whole, start, src[..c]))
  }

  ghost predicate AllPartly(g: Super, ts: seq<Transaction>, i: nat, whole: seq<Byte>, start: nat, src: seq<Byte>) {
    forall t :: 0 <= t < |ts| ==> Partly(g, ts[t].after, i, whole, start, src)
  }

  lemma OneMorePartly(g: Super, ts: seq<Transaction>, t: Transaction, i: nat, whole: seq<Byte>, start: nat,
          src: seq<Byte>, c: nat)
    requires AllPartly(g, ts, i, whole, start, src) && AtRest(g, t.after) && i < |t.after.table| && i < |t.after.files|
    requires c <= |src|
    requires if start > |whole| then BytesOf(g, t.after, i) == whole
      else BytesOf(g, t.after, i) == Splice(whole, start, src[..c])
    ensures AllPartly(g, ts + [t], i, whole, start, src)
  {
    hide AtRest, BytesOf, Splice;
    var some := src[..c];
    assert Partly(g, t.after, i, whole, start, src);
  }

  lemma NonePartly(g: Super, i: nat, whole: seq<Byte>, start: nat, src: seq<Byte>)
    ensures AllPartly(g, [], i, whole, start, src)
  {
  }

  lemma ChainNone(g: Super, disk: Disk)
    ensures Chain(g, disk, [], disk)
  {
  }

  lemma Chained(g: Super, before: Disk, ts: seq<Transaction>, t: Transaction)
    requires Chain(g, before, ts, t.before) && Fits(g, t)
    ensures Chain(g, before, ts + [t], t.after.disk)
  {
    assert (ts + [t])[..|ts|] == ts;
  }

  class FileSystem {
    const g: Super
    const drivers: set<int>              // the major numbers with functions in devsw
    var disk: Disk
    ghost var table: seq<Dinode>         // every inode's fields, as of its last holder
    ghost var files: seq<seq<int>>       // every inode's data blocks in order
    ghost var owner: Owner               // the place that refers to each data block in use
    ghost var logged: set<int>           // the blocks that the current transaction has given to log_write
    ghost var writes: seq<Write>         // these calls in order
    ghost var before: Disk               // the blocks as that transaction found them
    ghost var done: seq<Transaction>     // the transactions that have ended

    ghost predicate Valid()
      reads this
    {
      && Consistent(g, disk, table, files, owner)
      && SoundTable(g, table)
      && Recorded()
    }

    /** The calls of log_write have made the disk what it is, and their blocks are noted. */
    ghost predicate Recorded()
      reads `disk, `before, `writes, `logged
    {
      disk == Replayed(before, writes) && Noted(writes, logged)
    }

    /** ip is inode ip.inum as its lock holder sees it. */
    ghost predicate Locked(ip: Inode)
      reads this, ip
    {
      && Valid()
      && ip.inum < |table|
      && table[ip.inum] == ip.Value()
    }

    ghost predicate Full()
      reads this
      requires g.Valid() && |disk| == g.size
    {
      forall b: nat :: b < g.size ==> Used(g, disk, b)
    }

    /** The only place where a block changes: log_write notes which. */
    method LogWrite(b: int, data: Data)
      requires 0 <= b < |disk| && Recorded()
      modifies `disk, `logged, `writes
      ensures disk == old(disk)[b := data] && logged == old(logged) + {b} && writes == old(writes) + [Write(b, data)]
      ensures Recorded()
    {
      ReplayedMore(before, writes, Write(b, data));
      disk, logged, writes := disk[b := data], logged + {b}, writes + [Write(b, data)];
    }

    /** begin_op, for one operation at a time */
    ghost method BeginOp()
      modifies `logged, `writes, `before
      ensures logged == {} && writes == [] && before == disk && Recorded()
    {
      logged, writes, before := {}, [], disk;
    }

    /** end_op */
    ghost method EndOp()
      modifies `done
      ensures done == old(done) + [Transaction(before, Now(), logged, writes)]
    {
      done := done + [Transaction(before, Now(), logged, writes)];
    }

    /** The lowest free block is taken, marked and cleared to zeros. */
    method Balloc() returns (o: Outcome<int>, ghost touched: set<int>)
      requires BitmapAgrees(g, disk, owner) && Recorded()
      modifies `disk, `logged, `writes
      ensures Recorded()
      ensures logged == old(logged) + touched
      ensures g.Valid() && |disk| == g.size
      ensures o.Panic? ==> disk == old(disk) && touched == {} && Full()
      ensures o.Panic? <==> FreeBlocks(g, old(disk)) == 0
      ensures o.Done? ==>
        && Allocated(g, old(disk), disk, owner, o.value)
        && (forall c: nat :: c < o.value ==> Used(g, old(disk), c))
        && touched == {g.BBlock(o.value), o.value}
    {
      hide Used, Marked, Zeros, OnlyTouched, BitmapAgrees, Allocated, Replayed, Noted, FreeBlocks;
      Geometry(g, disk, owner);
      var b := 0;
      while b < g.size
        invariant b % BPB == 0
        invariant disk == old(disk) && logged == old(logged) && Recorded()
        invariant forall c: nat :: c < b && c < g.size ==> Used(g, disk, c)
      {
        BlockRanges(g, 0, b);
        var bp := disk[g.BBlock(b)];
        var bi := 0;
        while bi < BPB && b + bi < g.size
          invariant bi <= BPB
          invariant disk == old(disk) && logged == old(logged) && Recorded()
          invariant forall c: nat :: c < b + bi && c < g.size ==> Used(g, disk, c)
        {
          BitPlace(g, disk, b, bi);
          if !BitOf(bp[bi / 8], bi % 8) {
            MarkAndZero(g, disk, owner, b + bi);
            SomeFree(g, disk, b + bi);
            LogWrite(g.BBlock(b), Marked(bp, bi));
            LogWrite(b + bi, Zeros());
            touched := {g.BBlock(b + bi), b + bi};
            return Done(b + bi), touched;
          }
          bi := bi + 1;
        }
        b := b + BPB;
      }
      NoneFree(g, disk);
      return Panic, {};
    }

    ghost function Now(): Moment
      reads this
    {
      Moment(disk, table, files, owner)
    }

    // ------------------------------------------------------------ bmap, in its three parts

    /** bn < NDIRECT */
    method BmapDirect(ip: Inode, bn: nat) returns (o: Outcome<int>, ghost touched: set<int>, ghost bits: set<int>)
      requires Locked(ip) && bn < NDIRECT && bn <= |files[ip.inum]|
      modifies this`disk, this`logged, this`writes, this`table, this`files, this`owner, ip`addrs
      ensures bn < |old(files[ip.inum])| ==> writes == old(writes)
      ensures logged == old(logged) + touched
      ensures o.Panic? <==> FreeBlocks(g, old(disk)) < old(Lacks(|files[ip.inum]|, Ind(table[ip.inum]), bn + 1))
      ensures o.Panic? ==> g.Valid() && |disk| == g.size && Full()
      ensures o.Done? ==> Locked(ip) && Mapped(g, old(Now()), Now(), ip.inum, bn, o.value, touched, bits)
    {
      hide Consistent, Framed, DataKept, Used, Allocated, AllMap, Owned, Real, Replayed, Noted,
        FreeBlocks;
      Listed(g, disk, table, files, owner, ip.inum, bn);
      var addr := ip.addrs[bn];
      touched, bits := {}, {};
      if addr == 0 {
        ghost var m := Now();
        SoundMap(g, m);
        o, touched := Balloc();
        if o.Panic? {
          return;
        }
        addr := o.value;
        NewAddress(g, m, disk, addr);
        bits := {g.BBlock(addr)};
        ip.addrs := ip.addrs[bn := addr];
        GainDirect(g, m, disk, ip.inum, ip.Value(), addr);
        table, files, owner := table[ip.inum := ip.Value()], files[ip.inum := files[ip.inum] + [addr]],
          owner[addr := Slot(ip.inum, bn)];
      }
      return Done(addr), touched, bits;
    }

    /** The file's indirect block, which is made first if the file has none. */
    method LoadIndirect(ip: Inode) returns (o: Outcome<int>, ghost touched: set<int>, ghost bits: set<int>)
      requires Locked(ip) && |files[ip.inum]| >= NDIRECT
      modifies this`disk, this`logged, this`writes, this`table, this`files, this`owner, ip`addrs
      ensures Ind(old(table[ip.inum])) != 0 ==> writes == old(writes)
      ensures logged == old(logged) + touched
      ensures o.Panic? <==> Ind(old(table[ip.inum])) == 0 && FreeBlocks(g, old(disk)) == 0
      ensures o.Panic? ==> g.Valid() && |disk| == g.size && Full()
      ensures o.Done? ==> Locked(ip) && Loaded(g, old(Now()), Now(), ip.inum, o.value, touched, bits)
    {
      hide Consistent, Framed, DataKept, Used, Allocated, AllMap, Owned, Real, Replayed, Noted,
        FreeBlocks;
      ghost var m := Now();
      Listed(g, disk, table, files, owner, ip.inum, NDIRECT);
      FullDirect(disk, table[ip.inum], files[ip.inum]);
      var addr := ip.addrs[NDIRECT];
      touched, bits := {}, {};
      ExtendedSelf(g, m, ip.inum);
      if addr == 0 {
        SoundMap(g, m);
        o, touched := Balloc();
        if o.Panic? {
          return;
        }
        addr := o.value;
        NewAddress(g, m, disk, addr);
        bits := {g.BBlock(addr)};
        ip.addrs := ip.addrs[NDIRECT := addr];
        GainIndirect(g, m, disk, ip.inum, ip.Value(), addr);
        table, owner := table[ip.inum := ip.Value()], owner[addr := Indirect(ip.inum)];
      }
      return Done(addr), touched, bits;
    }

    /** bn >= NDIRECT */
    method BmapIndirect(ip: Inode, bn: nat) returns (o: Outcome<int>, ghost touched: set<int>, ghost bits: set<int>)
      requires Locked(ip) && NDIRECT <= bn < MAXFILE && bn <= |files[ip.inum]|
      modifies this`disk, this`logged, this`writes, this`table, this`files, this`owner, ip`addrs
      ensures bn < |old(files[ip.inum])| ==> writes == old(writes)
      ensures logged == old(logged) + touched
      ensures o.Panic? <==> FreeBlocks(g, old(disk)) < old(Lacks(|files[ip.inum]|, Ind(table[ip.inum]), bn + 1))
      ensures o.Panic? ==> g.Valid() && |disk| == g.size && Full()
      ensures o.Done? ==> Locked(ip) && Mapped(g, old(Now()), Now(), ip.inum, bn, o.value, touched, bits)
    {
      hide Consistent, Framed, DataKept, Used, Allocated, AllMap, Owned, Real, Replayed, Noted,
        FreeBlocks;
      ghost var m := Now();
      hide Maps, NextBlock, MapBlocks, Zeros, PutWord, Word;
      Listed(g, disk, table, files, owner, ip.inum, bn);
      FullDirect(disk, table[ip.inum], files[ip.inum]);
      o, touched, bits := LoadIndirect(ip);
      if o.Panic? {
        return;
      }
      ghost var mid := Now();
      LoadedFree(g, m, mid, ip.inum, o.value, touched, bits);
      ghost var more;
      o, more := IndirectEntry(ip, bn, o.value);
      if o.Panic? {
        touched := touched + more;
        return;
      }
      if bn >= |m.files[ip.inum]| {
        LoadedThenSlot(g, m, mid, Now(), ip.inum, o.value, touched, bits, more, g.BBlock(o.value));
        touched, bits := touched + more, bits + {g.BBlock(o.value)};
      }
      MappedFree(g, m, Now(), ip.inum, bn, o.value, touched, bits);
    }

    /** Entry bn in the indirect block addr, which gets a block if it has none. */
    method IndirectEntry(ip: Inode, bn: nat, addr: int) returns (o: Outcome<int>, ghost touched: set<int>)
      requires Locked(ip) && NDIRECT <= bn < MAXFILE && bn <= |files[ip.inum]|
      requires Ind(table[ip.inum]) == addr != 0
      modifies this`disk, this`logged, this`writes, this`files, this`owner
      ensures bn < |old(files[ip.inum])| ==> writes == old(writes)
      ensures logged == old(logged) + touched
      ensures o.Panic? <==> bn == |old(files[ip.inum])| && FreeBlocks(g, old(disk)) == 0
      ensures o.Panic? ==> g.Valid() && |disk| == g.size && Full()
      ensures o.Done? ==> Locked(ip) && ip.inum < |files|
      ensures o.Done? && bn < |old(files[ip.inum])| ==>
        Now() == old(Now()) && touched == {} && o.value == files[ip.inum][bn]
      ensures o.Done? && bn == |old(files[ip.inum])| ==>
        && files[ip.inum] == old(files[ip.inum]) + [o.value] && o.value !in old(owner)
        && 0 <= o.value < |disk| && disk[o.value] == Zeros()
        && Extended(g, old(Now()), Now(), ip.inum, touched, {g.BBlock(o.value)})
        && touched == {g.BBlock(o.value), o.value, addr}
    {
      hide Consistent, Framed, DataKept, Used, Allocated, AllMap, Owned, Real, Replayed, Noted, FreeBlocks, Maps,
        MapBlocks, Zeros, PutWord, Word;
      ghost var m := Now();
      Listed(g, disk, table, files, owner, ip.inum, bn);
      touched := {};
      var bp := disk[addr];
      var a := Word(bp, bn - NDIRECT);
      if a == 0 {
        SoundMap(g, m);
        o, touched := Balloc();
        if o.Panic? {
          return;
        }
        a := o.value;
        NewAddress(g, m, disk, a);
        GainSlot(g, m, disk, ip.inum, a);
        LogWrite(addr, PutWord(bp, bn - NDIRECT, a));
        files, owner := files[ip.inum := files[ip.inum] + [a]], owner[a := Slot(ip.inum, bn)];
        touched := touched + {addr};
      }
      return Done(a), touched;
    }

    /** The disk block of entry bn, allocated if the file ends just before it. */
    method Bmap(ip: Inode, bn: nat) returns (o: Outcome<int>, ghost touched: set<int>, ghost bits: set<int>)
      requires Locked(ip)
      requires bn < MAXFILE ==> bn <= |files[ip.inum]|
      modifies this`disk, this`logged, this`writes, this`table, this`files, this`owner, ip`addrs
      ensures bn < MAXFILE && bn < |old(files[ip.inum])| ==> writes == old(writes)
      ensures logged == old(logged) + touched
      ensures bn >= MAXFILE ==> o.Panic?
      ensures bn < MAXFILE ==>
        (o.Panic? <==> FreeBlocks(g, old(disk)) < old(Lacks(|files[ip.inum]|, Ind(table[ip.inum]), bn + 1)))
      ensures o.Panic? && bn < MAXFILE ==> g.Valid() && |disk| == g.size && Full()
      ensures o.Done? ==> Locked(ip) && Mapped(g, old(Now()), Now(), ip.inum, bn, o.value, touched, bits)
    {
      if bn < NDIRECT {
        o, touched, bits := BmapDirect(ip, bn);
      } else if bn - NDIRECT < NINDIRECT {
        o, touched, bits := BmapIndirect(ip, bn);
      } else {
        return Panic, {}, {};
      }
    }

    // ------------------------------------------------------------ inodes on disk

    /** Every inode is on disk as its holders left it, and has an address for each block that its size reaches. */
    ghost predicate Settled()
      reads this
    {
      AtRest(g, Now()) && Recorded()
    }

    /** The contents of file i. */
    ghost function Bytes(i: nat): seq<Byte>
      reads this
      requires Settled() && i < g.ninodes
    {
      BytesOf(g, Now(), i)
    }

    /** The inode's fields go to its place in the inode blocks. */
    method Iupdate(ip: Inode) returns (ghost touched: set<int>)
      requires Locked(ip)
      modifies `disk, `logged, `writes
      ensures logged == old(logged) + touched
      ensures Locked(ip)
      ensures InodeAt(g, disk, ip.inum) == ip.Value()
      ensures forall i: nat :: i < g.ninodes && i != ip.inum ==> InodeAt(g, disk, i) == InodeAt(g, old(disk), i)
      ensures touched == {g.IBlock(ip.inum)} && g.IBlock(ip.inum) < g.bmapstart
      ensures OnlyTouched(old(disk), disk, touched)
    {
      hide Consistent, Used, Replayed, Noted;
      SoundValid(g, Now());
      var ib := g.IBlock(ip.inum);
      BlockRanges(g, ip.inum, 0);
      LogWrite(ib, PutInode(disk[ib], ip.inum % IPB, ip.Value()));
      touched := {ib};
      InodeWritten(g, old(disk), disk, table, files, owner, ib);
      forall i: nat | i < g.ninodes
        ensures InodeAt(g, disk, i) == if i == ip.inum then ip.Value() else InodeAt(g, old(disk), i)
      {
        InodeStored(g, old(disk), ip.inum, ip.Value(), i);
      }
    }

    /**
     ilock once it has the sleep lock: fields that are not valid are read from disk, valid ones are as the last holder
     left them. The panic is the one about an inode without a type.
     */
    method Ilock(ip: Inode) returns (panic: bool)
      requires Settled() && ip.inum < g.ninodes && (ip.valid ==> Locked(ip))
      modifies ip
      ensures Locked(ip) && ip.valid
      ensures panic <==> !old(ip.valid) && ip.kind == 0
      ensures old(ip.valid) ==> ip.Value() == old(ip.Value())
    {
      hide Consistent, Used, Replayed, Noted;
      panic := false;
      if !ip.valid {
        SoundValid(g, Now());
        BlockRanges(g, ip.inum, 0);
        var dip := InodeIn(disk[g.IBlock(ip.inum)], ip.inum % IPB);
        ip.kind, ip.major, ip.minor, ip.nlink, ip.size, ip.addrs := dip.kind, dip.major, dip.minor, dip.nlink,
          dip.size, dip.addrs;
        ip.valid := true;
        assert InodeAt(g, disk, ip.inum) == table[ip.inum];
        panic := ip.kind == 0;
      }
    }

    // ------------------------------------------------------------ writei

    /** One turn of the loop of writei. It runs out of blocks only where the file lacks one. */
    method WriteTurn(ip: Inode, off: nat, bytes: seq<Byte>, ghost len: nat)
      returns (o: Outcome<()>, ghost touched: set<int>, ghost bits: set<int>, ghost b: int)
      requires Locked(ip) && InRange(disk, files[ip.inum])
      requires off <= len && 0 < |bytes| <= BSIZE - off % BSIZE && off + |bytes| <= MAXFILE * BSIZE
      requires |files[ip.inum]| == BlocksFor(len) && len <= BSIZE * |files[ip.inum]|
      modifies this`disk, this`logged, this`writes, this`table, this`files, this`owner, ip`addrs
      ensures logged == old(logged) + touched
      ensures o.Panic? <==>
        FreeBlocks(g, old(disk)) < old(Lacks(|files[ip.inum]|, Ind(table[ip.inum]), off / BSIZE + 1))
      ensures o.Panic? ==> g.Valid() && |disk| == g.size && Full()
      ensures o.Done? ==>
        && Locked(ip) && ip.inum < |files| && InRange(disk, files[ip.inum])
        && Written(g, old(Now()), Now(), ip.inum, touched, bits, {b})
        && |files[ip.inum]| == BlocksFor(Max(len, off + |bytes|))
        && Max(len, off + |bytes|) <= BSIZE * |files[ip.inum]|
        && Contents(disk, files[ip.inum], Max(len, off + |bytes|))
          == Splice(old(Contents(disk, files[ip.inum], len)), off, bytes)
    {
      hide Consistent, Used, Written, Splice, Put, Lone, Extended, Zeros, BlocksFor, Contents, Dinode.Valid,
        Replayed, Noted, FreeBlocks, Ind;
      ghost var m := Now();
      NextEntry(len, off, |bytes|);
      o, touched, bits, b := Panic, {}, {}, 0;
      var r;
      r, touched, bits := Bmap(ip, off / BSIZE);
      if r.Panic? {
        return;
      }
      var addr := r.value;
      ghost var mid := Now();
      MappedHolds(g, m, mid, ip.inum, off / BSIZE, addr, touched, bits);
      OneTurn(g, m, mid, ip.inum, off / BSIZE, addr, Put(disk[addr], off % BSIZE, bytes), touched, bits);
      LogWrite(addr, Put(disk[addr], off % BSIZE, bytes));
      WroteBlock(m.disk, mid.disk, m.files[ip.inum], files[ip.inum], len, off, bytes);
      o, touched, b := Done(()), touched + {addr}, addr;
    }

    /** The loop of writei. */
    method WriteLoop(ip: Inode, src: seq<Byte>, start: nat) returns (o: Outcome<()>, ghost touched: set<int>,
            ghost bits: set<int>, ghost data: set<int>)
      requires Locked(ip) && InRange(disk, files[ip.inum])
      requires 0 <= ip.size && start <= ip.size && start + |src| <= MAXFILE * BSIZE
      requires |files[ip.inum]| == BlocksFor(ip.size) && ip.size <= BSIZE * |files[ip.inum]|
      modifies this`disk, this`logged, this`writes, this`table, this`files, this`owner, ip`addrs
      ensures logged == old(logged) + touched
      ensures o.Panic? <==>
        FreeBlocks(g, old(disk))
          < old(Lacks(|files[ip.inum]|, Ind(table[ip.inum]), BlocksFor(Max(ip.size, start + |src|))))
      ensures o.Panic? ==> g.Valid() && |disk| == g.size && Full()
      ensures o.Done? ==>
        && Locked(ip) && ip.inum < |files| && InRange(disk, files[ip.inum])
        && Written(g, old(Now()), Now(), ip.inum, touched, bits, data)
        && |data| <= (if |src| == 0 then 0 else BlocksFor(start + |src|) - start / BSIZE)
        && |files[ip.inum]| == BlocksFor(Max(ip.size, start + |src|))
        && Max(ip.size, start + |src|) <= BSIZE * |files[ip.inum]|
        && Contents(disk, files[ip.inum], Max(ip.size, start + |src|))
          == Splice(old(Contents(disk, files[ip.inum], ip.size)), start, src)
    {
      hide Consistent, Used, Written, Splice, BlocksFor, InRange, Contents, Dinode.Valid, SoundTable, Full, Zeros,
        Replayed, Noted, SoFar, FreeBlocks, Ind, Lacks;
      ghost var m := Now();
      ghost var i := ip.inum;
      var tot, off, n := 0, start, |src|;
      touched, bits, data := {}, {}, {};
      SoundValid(g, m);
      assert src[..0] == [];
      SoFarNothing(g, m, i, ip.size, start);
      while tot < n
        invariant tot <= n && off == start + tot && (0 < tot < n ==> off % BSIZE == 0)
        invariant Locked(ip) && ip.size == old(ip.size) && logged == old(logged) + touched
        invariant SoFar(g, m, Now(), i, ip.size, start, src[..tot], touched, bits, data)
      {
        ghost var mid := Now();
        var count := if n - tot < BSIZE - off % BSIZE then n - tot else BSIZE - off % BSIZE;
        SoFarRoom(g, m, mid, i, ip.size, start, src[..tot], touched, bits, data);
        ghost var t, more, b;
        o, t, more, b := WriteTurn(ip, off, src[tot..tot + count], Max(ip.size, off));
        if o.Panic? {
          SoFarStops(g, m, mid, i, ip.size, start, src, tot, touched, bits, data);
          touched := touched + t;
          return;
        }
        SoFarMore(g, m, mid, Now(), i, ip.size, start, src[..tot], src[tot..tot + count], touched, t, bits,
          more, data, b);
        assert src[..tot] + src[tot..tot + count] == src[..tot + count];
        touched, bits, data := touched + t, bits + more, data + {b};
        if count == BSIZE - off % BSIZE {
          NextBoundary(off, count);
        }
        tot, off := tot + count, off + count;
      }
      assert src[..tot] == src;
      SoFarAll(g, m, Now(), i, ip.size, start, src, touched, bits, data);
      WrittenFree(g, m, Now(), i, touched, bits, data);
      o := Done(());
    }

    /** A write that is not refused. */
    method WriteInside(ip: Inode, src: seq<Byte>, start: nat) returns (o: Outcome<int>, ghost touched: set<int>)
      requires Settled() && Locked(ip) && start <= ip.size && start + |src| <= MAXFILE * BSIZE
      modifies this`disk, this`logged, this`writes, this`table, this`files, this`owner, ip`addrs, ip`size
      ensures logged == old(logged) + touched
      ensures o.Panic? <==>
        FreeBlocks(g, old(disk)) < BlocksWith(Max(old(ip.size), start + |src|)) - BlocksWith(old(ip.size))
      ensures o.Done? ==> ip.size == Max(old(ip.size), start + |src|)
      ensures o.Done? ==>
        FreeBlocks(g, disk) == FreeBlocks(g, old(disk)) - (BlocksWith(ip.size) - BlocksWith(old(ip.size)))
      ensures o.Panic? ==> g.Valid() && |disk| == g.size && Full()
      ensures o.Done? ==> Settled() && Locked(ip) && OthersUntouched(g, old(Now()), Now(), ip.inum)
      ensures o.Done? ==>
        && o.value == |src|
        && Bytes(ip.inum) == Splice(old(Bytes(ip.inum)), start, src)
        && ip.Value() == old(ip.Value()).(size := ip.size, addrs := ip.addrs)
      ensures o.Done? ==> OnlyTouched(old(disk), disk, touched)
      ensures |src| <= 1536 && o.Done? ==> |touched| <= MAXOPBLOCKS && (g.size <= BPB ==> |touched| <= 7)
    {
      hide Consistent, Used, Written, Framed, Splice, BlocksFor, Contents, Sized, SoundTable, OnlyTouched,
        BytesOf, OthersUntouched, InodeAt, Full, Replayed, Noted, FreeBlocks, Ind, Lacks, BlocksWith;
      ghost var m := Now();
      var off, n := start, |src|;
      SizedLocked(g, m, ip.inum);
      EnoughFor(g, m, ip.inum, Max(ip.size, start + |src|));
      ghost var bits, data;
      var r;
      r, touched, bits, data := WriteLoop(ip, src, start);
      if r.Panic? {
        return Panic, touched;
      }
      off := off + n;
      ghost var mid := Now();
      SoundValid(g, mid);
      WrittenFree(g, m, mid, ip.inum, touched, bits, data);
      WrittenTouched(g, m, mid, ip.inum, touched, bits, data);
      if n <= 1536 {
        WriteCount(g, m, mid, ip.inum, touched, bits, data, old(ip.size), start, n, g.IBlock(ip.inum));
        SizeOfPart(touched, touched + {g.IBlock(ip.inum)});
      }
      if n > 0 && off > ip.size {
        ip.size := off;
        Resized(g, disk, table, files, owner, ip.inum, ip.Value());
        TableUpdated(g, table, ip.inum, off);
        table := table[ip.inum := ip.Value()];
        ghost var ib := Iupdate(ip);
        Lengthened(g, m, mid, Now(), ip.inum, start + n, touched, bits, data);
        TouchedTwice(m.disk, mid.disk, disk, touched, ib);
        touched := touched + ib;
        SameFree(g, mid, Now());
      } else {
        NotLengthened(g, m, mid, ip.inum, touched, bits, data);
        SizedLocked(g, mid, ip.inum);
      }
      o := Done(n);
    }

    /**
     writei; driver is what the device's own write function answers.
     A write that is not refused splices src into the file's contents and changes no other file; the dinode on disk
     is up to date again; and a write of three blocks' worth of bytes logs ten blocks at most, seven if the disk has
     one bitmap block. It panics exactly if fewer blocks are free than the file lacks, so never if it has them all.
     */
    method Writei(ip: Inode, src: seq<Byte>, start: nat, driver: int) returns (o: Outcome<int>, ghost touched: set<int>)
      requires Settled() && Locked(ip) && start < UINT && |src| < UINT
      modifies this`disk, this`logged, this`writes, this`table, this`files, this`owner, ip`addrs, ip`size
      ensures logged == old(logged) + touched
      ensures o.Panic? <==>
        && old(ip.kind) != T_DEV && 0 <= start <= old(ip.size) && start + |src| <= MAXFILE * BSIZE
        && FreeBlocks(g, old(disk)) < BlocksWith(Max(old(ip.size), start + |src|)) - BlocksWith(old(ip.size))
      ensures o.Panic? ==> g.Valid() && |disk| == g.size && Full()
      ensures o.Done? && o.value != -1 && old(ip.kind) != T_DEV ==>
        && 0 <= old(ip.size) && ip.size == Max(old(ip.size), start + |src|)
        && FreeBlocks(g, disk) == FreeBlocks(g, old(disk)) - (BlocksWith(ip.size) - BlocksWith(old(ip.size)))
      ensures old(ip.kind) == T_DEV ==>
        && Now() == old(Now()) && ip.Value() == old(ip.Value()) && touched == {}
        && o == Done(if 0 <= ip.major < NDEV && ip.major in drivers then driver else -1)
      ensures o.Done? ==> Settled() && Locked(ip) && OthersUntouched(g, old(Now()), Now(), ip.inum)
      ensures o.Done? && old(ip.kind) != T_DEV ==>
        o.value == if start > old(ip.size) || start + |src| > MAXFILE * BSIZE then -1 else |src|
      ensures o.Done? && o.value == -1 && old(ip.kind) != T_DEV ==>
        Now() == old(Now()) && ip.Value() == old(ip.Value()) && touched == {}
      ensures o.Done? && o.value != -1 && old(ip.kind) != T_DEV ==>
        && start <= old(ip.size)
        && Bytes(ip.inum) == Splice(old(Bytes(ip.inum)), start, src)
        && ip.Value() == old(ip.Value()).(size := ip.size, addrs := ip.addrs)
      ensures o.Done? ==> OnlyTouched(old(disk), disk, touched)
      ensures |src| <= 1536 && o.Done? ==> |touched| <= MAXOPBLOCKS && (g.size <= BPB ==> |touched| <= 7)
    {
      hide Consistent, Used, Written, Framed, Splice, BlocksFor, Contents, Sized, SoundTable, OnlyTouched,
        BytesOf, OthersUntouched, InodeAt, Full, Replayed, Noted, FreeBlocks, BlocksWith;
      ghost var m := Now();
      touched := {};
      NothingTouched(g, disk);
      UntouchedSelf(g, m, ip.inum);
      if ip.kind == T_DEV {
        if ip.major < 0 || ip.major >= NDEV || ip.major !in drivers {
          return Done(-1), {};
        }
        return Done(driver), {};
      }
      var off, n := start, |src|;
      SizedLocked(g, m, ip.inum);
      Refusals(ip.size, off, n);
      if off > ip.size || (off + n) % UINT < off {
        return Done(-1), {};
      }
      if (off + n) % UINT > MAXFILE * BSIZE {
        return Done(-1), {};
      }
      o, touched := WriteInside(ip, src, start);
    }

    // ------------------------------------------------------------ readi

    /** One turn of the loop of readi. */
    method ReadTurn(ip: Inode, off: nat, count: nat) returns (bytes: seq<Byte>)
      requires Locked(ip) && ip.inum < |files| && InRange(disk, files[ip.inum])
      requires 0 <= ip.size <= MAXFILE * BSIZE && |files[ip.inum]| == BlocksFor(ip.size)
        && ip.size <= BSIZE * |files[ip.inum]|
      requires 0 < count <= BSIZE - off % BSIZE && off + count <= ip.size
      modifies this`disk, this`logged, this`writes, this`table, this`files, this`owner, ip`addrs
      ensures logged == old(logged)
      ensures writes == old(writes)
      ensures Now() == old(Now()) && ip.Value() == old(ip.Value())
      ensures bytes == Contents(disk, files[ip.inum], ip.size)[off..off + count]
    {
      hide Consistent, Used, Framed, BlocksFor, Contents, Sized, SoundTable, Maps, NextBlock, Ind, AddrAt,
        Replayed, Noted;
      ReadBlock(disk, files[ip.inum], ip.size, off, count);
      ghost var touched, bits;
      var o;
      o, touched, bits := Bmap(ip, off / BSIZE);
      var bp := disk[o.value];
      bytes := bp[off % BSIZE..off % BSIZE + count];
    }

    /**
     readi: the bytes of the file from start, at most n and clipped to its size. The call to bmap
     never allocates, so nothing changes and nothing can run out.
     */
    method Readi(ip: Inode, start: nat, count: nat, driver: int) returns (o: Outcome<int>, dst: seq<Byte>)
      requires Settled() && Locked(ip) && start < UINT && count < UINT
      modifies this`disk, this`logged, this`writes, this`table, this`files, this`owner, ip`addrs
      ensures logged == old(logged) && writes == old(writes)
      ensures o.Done? && Now() == old(Now()) && ip.Value() == old(ip.Value())
      ensures ip.kind == T_DEV ==> o.value == if 0 <= ip.major < NDEV && ip.major in drivers then driver else -1
      ensures ip.kind != T_DEV && (start > ip.size || start + count >= UINT) ==> o.value == -1 && dst == []
      ensures ip.kind != T_DEV && !(start > ip.size || start + count >= UINT) ==>
        && o.value == |dst|
        && dst == old(Bytes(ip.inum))[start..if start + count < ip.size then start + count else ip.size]
    {
      hide Consistent, Used, Framed, BlocksFor, Contents, Sized, SoundTable, Maps, NextBlock, Ind, BytesOf, AddrAt,
        Replayed, Noted;
      dst := [];
      if ip.kind == T_DEV {
        if ip.major < 0 || ip.major >= NDEV || ip.major !in drivers {
          return Done(-1), [];
        }
        return Done(driver), [];
      }
      ghost var m := Now();
      var off, n := start, count;
      SizedLocked(g, m, ip.inum);
      ghost var whole := BytesOf(g, m, ip.inum);
      if off > ip.size || (off + n) % UINT < off {
        return Done(-1), [];
      }
      if off + n > ip.size {
        n := ip.size - off;
      }
      var tot := 0;
      while tot < n
        invariant tot <= n && off == start + tot && start + n <= ip.size
        invariant Now() == m && logged == old(logged) && writes == old(writes) && Locked(ip)
        invariant ip.Value() == old(ip.Value())
        invariant ip.inum < |files| && InRange(disk, files[ip.inum]) && |files[ip.inum]| == BlocksFor(ip.size)
        invariant ip.size <= BSIZE * |files[ip.inum]| && whole == Contents(disk, files[ip.inum], ip.size)
        invariant dst == whole[start..off]
      {
        var k := if n - tot < BSIZE - off % BSIZE then n - tot else BSIZE - off % BSIZE;
        var bytes := ReadTurn(ip, off, k);
        Adjoin(whole, start, off, off + k);
        dst := dst + bytes;
        tot, off := tot + k, off + k;
      }
      o := Done(n);
    }

    // ------------------------------------------------------------ itrunc

    /**
     A marked block becomes free; the answer is whether the kernel panics because it is free already. No other bit
     changes, whatever kind of block it is.
     */
    method Bfree(b: nat) returns (panic: bool, ghost touched: set<int>)
      requires Recorded()
      requires g.Valid() && |disk| == g.size && b < g.size
      modifies `disk, `logged, `writes, `owner
      ensures Recorded()
      ensures logged == old(logged) + touched
      ensures panic <==> !Used(g, old(disk), b)
      ensures panic ==> disk == old(disk) && owner == old(owner) && touched == {}
      ensures !panic ==> |disk| == g.size && owner == old(owner) - {b} && touched == {g.BBlock(b)}
      ensures !panic ==> forall c: nat :: c < g.size ==> (Used(g, disk, c) <==> c != b && Used(g, old(disk), c))
      ensures OnlyTouched(old(disk), disk, touched) && MapBlocks(g, touched)
      ensures b in old(owner) && b >= g.datastart && BitmapAgrees(g, old(disk), old(owner)) ==>
        !panic && BitmapAgrees(g, disk, owner)
    {
      hide Used, Unmarked, BitOf, Replayed, Noted;
      touched := {};
      BlockRanges(g, 0, b);
      var bp := disk[g.BBlock(b)];
      var bi := b % BPB;
      BitOfBlock(g, disk, b);
      if !BitOf(bp[bi / 8], bi % 8) {
        return true, {};
      }
      LogWrite(g.BBlock(b), Unmarked(bp, bi));
      owner := owner - {b};
      touched := {g.BBlock(b)};
      forall c: nat | c < g.size ensures Used(g, disk, c) <==> c != b && Used(g, old(disk), c) {
        MarkedBits(g, old(disk), b, c);
      }
      panic := false;
    }

    /** Free what entries 0 .. NDIRECT hold. */
    method TruncDirect(ip: Inode) returns (panic: bool, ghost touched: set<int>)
      requires Locked(ip)
      modifies this`disk, this`logged, this`writes, this`owner, ip`addrs
      ensures Recorded()
      ensures logged == old(logged) + touched
      ensures !panic
      ensures Freed(old(owner), owner, ip.inum, NDIRECT)
      ensures BitmapAgrees(g, disk, owner) && OnlyTouched(old(disk), disk, touched) && MapBlocks(g, touched)
      ensures |ip.addrs| == |old(ip.addrs)| == NDIRECT + 1 && ip.addrs[NDIRECT] == old(ip.addrs)[NDIRECT]
      ensures forall j :: 0 <= j < NDIRECT ==> ip.addrs[j] == 0
    {
      hide Consistent, Used, OnlyTouched, MapBlocks, Freed, BitmapAgrees, SoundTable, Maps, Replayed, Noted;
      ghost var m := Now();
      ghost var inum := ip.inum;
      SoundMap(g, m);
      SoundValid(g, m);
      Listed(g, disk, table, files, owner, inum, 0);
      FreedNone(owner, inum);
      touched := {};
      panic := false;
      NothingTouched(g, disk);
      for i := 0 to NDIRECT
        invariant !panic
        invariant Freed(m.owner, owner, inum, i) && logged == old(logged) + touched
        invariant Recorded()
        invariant BitmapAgrees(g, disk, owner) && OnlyTouched(m.disk, disk, touched) && MapBlocks(g, touched)
        invariant |ip.addrs| == NDIRECT + 1
        invariant forall j :: 0 <= j < i ==> ip.addrs[j] == 0
        invariant forall j :: i <= j <= NDIRECT ==> ip.addrs[j] == m.table[inum].addrs[j]
      {
        NextToFree(g, m, owner, inum, i);
        if ip.addrs[i] != 0 {
          ghost var mid, t := disk, {};
          Geometry(g, disk, owner);
          panic, t := Bfree(ip.addrs[i]);
          TouchedTwice(m.disk, mid, disk, touched, t);
          MapBlocksTwice(g, touched, t);
          touched := touched + t;
          ip.addrs := ip.addrs[i := 0];
        }
      }
    }

    /** Free what the indirect block at ind lists. */
    method TruncIndirect(ghost m: Moment, ghost inum: nat, ind: int) returns (panic: bool, ghost touched: set<int>)
      requires Recorded()
      requires Sound(g, m) && inum < |m.table| && Ind(m.table[inum]) == ind && ind != 0
      requires Freed(m.owner, owner, inum, NDIRECT) && BitmapAgrees(g, disk, owner)
      requires 0 <= ind < |disk| == |m.disk| && disk[ind] == m.disk[ind]
      modifies this`disk, this`logged, this`writes, this`owner
      ensures Recorded()
      ensures logged == old(logged) + touched
      ensures !panic
      ensures Freed(m.owner, owner, inum, MAXFILE)
      ensures BitmapAgrees(g, disk, owner) && OnlyTouched(old(disk), disk, touched) && MapBlocks(g, touched)
    {
      hide Consistent, Used, OnlyTouched, MapBlocks, Freed, BitmapAgrees, Maps, Word, Replayed, Noted;
      SoundValid(g, m);
      var bp := disk[ind];
      touched := {};
      panic := false;
      NothingTouched(g, disk);
      for j := 0 to NINDIRECT
        invariant !panic
        invariant Freed(m.owner, owner, inum, NDIRECT + j) && logged == old(logged) + touched
        invariant Recorded()
        invariant BitmapAgrees(g, disk, owner) && OnlyTouched(old(disk), disk, touched) && MapBlocks(g, touched)
      {
        NextToFree(g, m, owner, inum, NDIRECT + j);
        if Word(bp, j) != 0 {
          ghost var mid, t := disk, {};
          Geometry(g, disk, owner);
          panic, t := Bfree(Word(bp, j));
          TouchedTwice(old(disk), mid, disk, touched, t);
          MapBlocksTwice(g, touched, t);
          touched := touched + t;
        }
      }
    }

    /**
     itrunc: the inode has no contents any more, its blocks and no others are free, on disk it is as in memory,
     and the panic about a free block cannot happen.
     */
    method Itrunc(ip: Inode) returns (panic: bool, ghost touched: set<int>)
      requires Settled() && Locked(ip)
      modifies this`disk, this`logged, this`writes, this`table, this`files, this`owner, ip`addrs, ip`size
      ensures logged == old(logged) + touched
      ensures !panic
      ensures Settled() && Locked(ip) && OthersUntouched(g, old(Now()), Now(), ip.inum)
      ensures ip.size == 0 && Bytes(ip.inum) == [] && ip.Value() == old(ip.Value()).(size := 0, addrs := ip.addrs)
      ensures g.Valid() && |old(disk)| == |disk| == g.size
      ensures forall b: nat :: b < g.size ==>
        (Used(g, disk, b) <==> Used(g, old(disk), b) && !(b in old(owner) && old(owner)[b].inum == ip.inum))
      ensures OnlyTouched(old(disk), disk, touched) && MapBlocks(g, touched - {g.IBlock(ip.inum)})
    {
      hide Consistent, Used, OnlyTouched, MapBlocks, Freed, BitmapAgrees, Maps, SoundTable, Sized, OthersUntouched,
        Released, InodeAt, BytesOf, Dinode.Valid, Replayed, Noted;
      ghost var m := Now();
      ghost var inum := ip.inum;
      SoundValid(g, m);
      Listed(g, disk, table, files, owner, inum, 0);
      panic, touched := TruncDirect(ip);
      if ip.addrs[NDIRECT] != 0 {
        var ind := ip.addrs[NDIRECT];
        ghost var mid, t := disk, {};
        MapOnly(g, m.disk, disk, touched, ind);
        panic, t := TruncIndirect(m, inum, ind);
        TouchedTwice(m.disk, mid, disk, touched, t);
        MapBlocksTwice(g, touched, t);
        touched, mid := touched + t, disk;
        ReleasedAll(g, m, owner, inum);
        panic, t := Bfree(ind);
        TouchedTwice(m.disk, mid, disk, touched, t);
        MapBlocksTwice(g, touched, t);
        touched := touched + t;
        ip.addrs := ip.addrs[NDIRECT := 0];
      } else {
        ReleasedDirect(g, m, owner, inum);
      }
      ip.size := 0;
      ghost var n := Moment(disk, table[inum := ip.Value()], files[inum := []], owner);
      Truncated(g, m, n, inum, ip.Value(), touched);
      table, files := n.table, n.files;
      ghost var t := Iupdate(ip);
      Emptied(g, m, n, Now(), inum, touched);
      TouchedTwice(m.disk, n.disk, disk, touched, t);
      MapBlocksBut(g, touched, t);
      touched := touched + t;
    }

    // ------------------------------------------------------------ filewrite

    /** One transaction of filewrite, from begin_op to end_op. */
    method WriteChunk(f: File, chunk: seq<Byte>) returns (o: Outcome<int>)
      requires Settled() && Locked(f.ip) && f.ip.kind != T_DEV && f.off < UINT && 0 < |chunk| <= 1536
      modifies f`off, this`disk, this`logged, this`writes, this`before, this`done, this`table, this`files, this`owner,
        f.ip`addrs, f.ip`size
      ensures o.Panic? <==>
        && 0 <= old(f.off) <= old(f.ip.size) && old(f.off) + |chunk| <= MAXFILE * BSIZE
        && FreeBlocks(g, old(disk))
          < BlocksWith(Max(old(f.ip.size), old(f.off) + |chunk|)) - BlocksWith(old(f.ip.size))
      ensures o.Panic? ==> g.Valid() && |disk| == g.size && Full()
      ensures o.Done? && o.value != -1 ==>
        && 0 <= old(f.ip.size) && f.ip.size == Max(old(f.ip.size), old(f.off) + |chunk|)
        && FreeBlocks(g, disk) == FreeBlocks(g, old(disk)) - (BlocksWith(f.ip.size) - BlocksWith(old(f.ip.size)))
      ensures o.Done? ==> Settled() && Locked(f.ip) && OthersUntouched(g, old(Now()), Now(), f.ip.inum)
      ensures o.Done? ==> f.ip.kind == old(f.ip.kind) && f.off < UINT
      ensures o.Done? ==>
        o.value == if old(f.off) <= old(f.ip.size) && old(f.off) + |chunk| <= MAXFILE * BSIZE then |chunk| else -1
      ensures o.Done? && o.value == -1 ==> Now() == old(Now()) && f.ip.size == old(f.ip.size) && f.off == old(f.off)
      ensures o.Done? && o.value != -1 ==>
        && old(f.off) <= old(f.ip.size)
        && Bytes(f.ip.inum) == Splice(old(Bytes(f.ip.inum)), old(f.off), chunk)
        && f.off == old(f.off) + |chunk| <= f.ip.size
      ensures o.Panic? ==> done == old(done)
      ensures o.Done? ==> done == old(done) + [Transaction(old(disk), Now(), logged, writes)]
      ensures o.Done? ==> Fits(g, Transaction(old(disk), Now(), logged, writes))
    {
      hide Consistent, Used, Splice, BytesOf, OthersUntouched, AtRest, SoundTable, OnlyTouched, Replayed, Noted,
        FreeBlocks, BlocksWith;
      RestLength(g, Now(), f.ip.inum);
      BeginOp();
      ghost var touched;
      o, touched := Writei(f.ip, chunk, f.off, 0);
      if o.Done? && o.value > 0 {
        f.off := f.off + o.value;
        RestLength(g, Now(), f.ip.inum);
      }
      if o.Done? {
        assert {} + touched == touched;
        EndOp();
      }
    }

    /**
     Where filewrite stands when the bytes before i are written: m is where it began, with the contents whole and the
     offset start, and past is how many transactions had ended by then.
     */
    ghost predicate Progress(f: File, src: seq<Byte>, i: nat, m: Moment, whole: seq<Byte>, start: nat, past: nat)
      reads this, f, f.ip
    {
      && Settled() && Locked(f.ip) && f.ip.kind != T_DEV && f.off < UINT && f.off == start + i
      && i <= |src| && past <= |done|
      && AtRest(g, m) && OthersUntouched(g, m, Now(), f.ip.inum) && Chain(g, m.disk, done[past..], disk)
      && Bytes(f.ip.inum) == (if start <= |whole| then Splice(whole, start, src[..i]) else whole)
      && (start > |whole| ==> i == 0)
      && AllPartly(g, done[past..], f.ip.inum, whole, start, src)
      && FreeBlocks(g, disk) == FreeBlocks(g, m.disk) - (BlocksWith(|Bytes(f.ip.inum)|) - BlocksWith(|whole|))
    }

    /** What it says of the inode and the blocks that are free. */
    lemma ProgressMeans(f: File, src: seq<Byte>, i: nat, m: Moment, whole: seq<Byte>, start: nat, past: nat)
      requires Progress(f, src, i, m, whole, start, past)
      ensures f.ip.size == |Bytes(f.ip.inum)| == if start <= |whole| then Max(|whole|, start + i) else |whole|
      ensures f.ip.size <= MAXFILE * BSIZE
      ensures FreeBlocks(g, disk) == FreeBlocks(g, m.disk) - (BlocksWith(f.ip.size) - BlocksWith(|whole|))
    {
      hide AtRest, BytesOf, FreeBlocks, BlocksWith, OthersUntouched, Chain, AllPartly, Splice, SoundTable, Consistent;
      RestLength(g, Now(), f.ip.inum);
      if start <= |whole| {
        SplicedLength(whole, start, src[..i]);
      }
    }

    /** One turn of the chunk loop of file.c: chunk i .. i + n1 of src, after those before it. */
    method ChunkTurn(f: File, src: seq<Byte>, i: nat, n1: nat, ghost m: Moment, ghost whole: seq<Byte>,
            ghost start: nat, ghost past: nat) returns (o: Outcome<int>)
      requires Progress(f, src, i, m, whole, start, past) && 0 < n1 <= 1536 && i + n1 <= |src|
      modifies f`off, this`disk, this`logged, this`writes, this`before, this`done, this`table, this`files,
        this`owner, f.ip`addrs, f.ip`size
      ensures o.Panic? <==>
        && start <= |whole| && start + i + n1 <= MAXFILE * BSIZE
        && FreeBlocks(g, m.disk) < BlocksWith(Max(|whole|, start + i + n1)) - BlocksWith(|whole|)
      ensures o.Panic? ==> g.Valid() && |disk| == g.size && Full()
      ensures old(done) <= done
      ensures o.Done? ==>
        && o.value == (if start <= |whole| && start + i + n1 <= MAXFILE * BSIZE then n1 else -1)
        && Progress(f, src, if o.value == -1 then i else i + n1, m, whole, start, past)
    {
      hide Consistent, Used, Splice, BytesOf, OthersUntouched, AtRest, SoundTable, Chain, Fits, Replayed,
        Noted, Full, Partly, AllPartly, FreeBlocks, BlocksWith;
      ghost var mid, inum := Now(), f.ip.inum;
      RestLength(g, mid, inum);
      ProgressMeans(f, src, i, m, whole, start, past);
      if start <= |whole| {
        SplicedLength(whole, start, src[..i]);
      }
      o := WriteChunk(f, src[i..i + n1]);
      if o.Panic? {
        return;
      }
      ghost var t := Transaction(mid.disk, Now(), logged, writes);
      assert done[past..] == old(done)[past..] + [t];
      Chained(g, m.disk, old(done)[past..], t);
      UntouchedTwice(g, m, mid, Now(), inum);
      RestLength(g, Now(), inum);
      if start <= |whole| {
        SpliceTwice(whole, start, src[..i], src[i..i + n1]);
        assert src[..i] + src[i..i + n1] == src[..i + n1];
      }
      OneMorePartly(g, old(done)[past..], t, inum, whole, start, src, if o.value == -1 then i else i + n1);
    }

    /**
     The chunk loop of file.c: each turn is one transaction that writes the next 1536 bytes at most. All of src gets
     there, at consecutive offsets, exactly when it all fits; if not, the chunks before the first that does not fit
     have been written. No transaction logs more than MAXOPBLOCKS blocks, nor more than 7 with one bitmap block. The
     panic comes exactly if fewer blocks are free than the file lacks for what is within reach.
     */
    method Filewrite(f: File, src: seq<Byte>, n: int) returns (o: Outcome<int>, ghost count: nat)
      requires Settled() && Locked(f.ip) && f.ip.kind != T_DEV && f.off < UINT
      requires n <= |src| && n < 0x8000_0000
      modifies f`off, this`disk, this`logged, this`writes, this`before, this`done, this`table, this`files,
        this`owner, f.ip`addrs, f.ip`size
      ensures o.Panic? <==>
        && f.writable && n > 0 && 0 <= old(f.off) <= old(f.ip.size)
        && FreeBlocks(g, old(disk))
          < BlocksWith(Max(old(f.ip.size), old(f.off) + Reach(old(f.off), n))) - BlocksWith(old(f.ip.size))
      ensures o.Done? ==>
        count == if f.writable && n > 0 && old(f.off) <= old(f.ip.size) then Reach(old(f.off), n) else 0
      ensures o.Panic? ==> g.Valid() && |disk| == g.size && Full()
      ensures o.Done? ==> Settled() && Locked(f.ip) && OthersUntouched(g, old(Now()), Now(), f.ip.inum)
      ensures o.Done? ==>
        && count <= |src| && f.off == old(f.off) + count
        && (count > 0 ==> old(f.off) <= old(f.ip.size))
        && (old(f.off) <= old(f.ip.size) ==>
              Bytes(f.ip.inum) == Splice(old(Bytes(f.ip.inum)), old(f.off), src[..count]))
        && (old(f.off) > old(f.ip.size) ==> Bytes(f.ip.inum) == old(Bytes(f.ip.inum)))
      ensures o.Done? ==> o.value == n || o.value == -1
      ensures o.Done? && n >= 0 ==>
        (o.value == n <==>
          f.writable && (n == 0 || (old(f.off) <= old(f.ip.size) && old(f.off) + n <= MAXFILE * BSIZE)))
      ensures o.Done? && n >= 0 && o.value == n ==> count == n
      ensures o.Done? && n < 0 ==> o.value == -1
      ensures o.Done? && count < n && f.writable ==>
        && count % 1536 == 0
        && (old(f.off) > old(f.ip.size)
          || old(f.off) + count + (if n - count < 1536 then n - count else 1536) > MAXFILE * BSIZE)
      ensures old(done) <= done
      ensures o.Done? ==> Chain(g, old(disk), done[|old(done)|..], disk)
      ensures o.Done? ==> AllPartly(g, done[|old(done)|..], f.ip.inum, old(Bytes(f.ip.inum)), old(f.off), src)
    {
      hide Consistent, Used, Splice, BytesOf, OthersUntouched, AtRest, SoundTable, Chain, Fits, Full,
        Replayed, Noted, Partly, AllPartly, FreeBlocks, BlocksWith, Reach, Sound;
      assert done[|done|..] == [];
      ghost var m, inum, start, past := Now(), f.ip.inum, f.off, |done|;
      RestLength(g, m, inum);
      ghost var whole := Bytes(inum);
      count := 0;
      Begun(g, m, inum, whole, start, src);
      if !f.writable {
        return Done(-1), 0;
      }
      var max := (MAXOPBLOCKS - 1 - 1 - 2) / 2 * 512;
      var i := 0;
      while i < n
        invariant 0 <= i <= |src| && (n >= 0 ==> i <= n) && (n < 0 ==> i == 0) && (i == n || i % 1536 == 0)
        invariant count == i && old(done) <= done && (i > 0 ==> start + i <= MAXFILE * BSIZE)
        invariant Progress(f, src, i, m, whole, start, past)
      {
        var n1 := n - i;
        if n1 > max {
          n1 := max;
        }
        if start <= |whole| {
          ReachAfter(start, |whole|, n, i, n1);
        }
        o := ChunkTurn(f, src, i, n1, m, whole, start, past);
        if o.Panic? {
          return;
        }
        var r := o.value;
        if r < 0 {
          break;
        }
        if r != n1 {
          return Panic, count;
        }
        i := i + r;
        count := i;
      }
      ReachAll(start, n);
      ProgressEnds(f, src, i, m, whole, start, past);
      o := Done(if i == n then n else -1);
    }

    /** Where filewrite ends. */
    lemma ProgressEnds(f: File, src: seq<Byte>, i: nat, m: Moment, whole: seq<Byte>, start: nat, past: nat)
      requires Progress(f, src, i, m, whole, start, past)
      ensures Settled() && Locked(f.ip) && OthersUntouched(g, m, Now(), f.ip.inum) && f.off == start + i
      ensures past <= |done| && Chain(g, m.disk, done[past..], disk)
      ensures AllPartly(g, done[past..], f.ip.inum, whole, start, src)
      ensures Bytes(f.ip.inum) == if start <= |whole| then Splice(whole, start, src[..i]) else whole
      ensures start > |whole| ==> i == 0
      ensures FreeBlocks(g, disk) + BlocksWith(if start <= |whole| then Max(|whole|, start + i) else |whole|)
        == FreeBlocks(g, m.disk) + BlocksWith(|whole|)
    {
      hide AtRest, BytesOf, FreeBlocks, BlocksWith, OthersUntouched, Chain, AllPartly, Splice, SoundTable, Consistent;
      ProgressMeans(f, src, i, m, whole, start, past);
    }
  }

  /** Before its first chunk. */
  lemma Begun(g: Super, m: Moment, i: nat, whole: seq<Byte>, start: nat, src: seq<Byte>)
    requires AtRest(g, m) && i < |m.table| && i < |m.files| && whole == BytesOf(g, m, i)
    ensures OthersUntouched(g, m, m, i) && Chain(g, m.disk, [], m.disk) && AllPartly(g, [], i, whole, start, src)
    ensures start <= |whole| ==> whole == Splice(whole, start, src[..0])
  {
    hide AtRest, BytesOf, Splice;
    UntouchedSelf(g, m, i);
    ChainNone(g, m.disk);
    NonePartly(g, i, whole, start, src);
    SpliceNone(whole, start, src);
  }

  /** How many of n bytes filewrite gets to when no block is missing: all that fit, or the whole chunks that do. */
  function Reach(start: nat, n: int): nat {
    if n <= 0 then 0
    else if start + n <= MAXFILE * BSIZE then n
    else if start > MAXFILE * BSIZE then 0
    else (MAXFILE * BSIZE - start) / 1536 * 1536
  }

  /** Chunk i .. i + n1 is within reach exactly if it fits. */
  lemma ReachAfter(start: nat, size: nat, n: int, i: nat, n1: nat)
    requires start <= size <= MAXFILE * BSIZE && i < n && i % 1536 == 0 && start + i <= MAXFILE * BSIZE
    requires n1 == if n - i > 1536 then 1536 else n - i
    ensures start + i + n1 <= MAXFILE * BSIZE ==> i + n1 <= Reach(start, n)
    ensures start + i + n1 > MAXFILE * BSIZE ==> i == Reach(start, n)
    ensures i <= Reach(start, n) && start + Reach(start, n) <= MAXFILE * BSIZE
    ensures BlocksWith(Max(size, start + i)) <= BlocksWith(Max(size, start + Reach(start, n)))
    ensures start + i + n1 <= MAXFILE * BSIZE ==>
      BlocksWith(Max(size, start + i + n1)) <= BlocksWith(Max(size, start + Reach(start, n)))
  {
    hide BlocksWith;
    var room := MAXFILE * BSIZE - start;
    var k := i / 1536;
    assert i == 1536 * k;
    if start + n > MAXFILE * BSIZE {
      assert Reach(start, n) == 1536 * (room / 1536);
    }
    MoreWith(Max(size, start + i), Max(size, start + Reach(start, n)));
    if start + i + n1 <= MAXFILE * BSIZE {
      MoreWith(Max(size, start + i + n1), Max(size, start + Reach(start, n)));
    }
  }

  lemma MoreWith(a: nat, b: nat)
    requires a <= b
    ensures BlocksWith(a) <= BlocksWith(b)
  {
    BlocksGrow(a, b);
  }

  lemma ReachAll(start: nat, n: int)
    ensures n > 0 && start + n <= MAXFILE * BSIZE ==> Reach(start, n) == n
    ensures n <= 0 ==> Reach(start, n) == 0
  {
  }

  class File {
    const ip: Inode
    const writable: bool
    var off: nat

    constructor (i: Inode, w: bool)
      ensures ip == i && writable == w && off == 0
    {
      ip, writable, off := i, w, 0;
    }
  }

  lemma SplicedLength(s: seq<Byte>, off: nat, src: seq<Byte>)
    requires off <= |s|
    ensures off + |src| <= |Splice(s, off, src)|
  {
  }

  lemma RestLength(g: Super, m: Moment, i: nat)
    requires AtRest(g, m) && i < |m.table|
    ensures i < g.ninodes && i < |m.files| && |BytesOf(g, m, i)| == m.table[i].size <= MAXFILE * BSIZE
  {
  }

  lemma SpliceNone(s: seq<Byte>, off: nat, src: seq<Byte>)
    ensures off <= |s| ==> Splice(s, off, src[..0]) == s
  {
    if off <= |s| {
      assert src[..0] == [];
      SpliceNothing(s, off);
    }
  }

  lemma UntouchedTwice(g: Super, m: Moment, n: Moment, q: Moment, i: nat)
    requires AtRest(g, m) && AtRest(g, n) && AtRest(g, q)
    requires OthersUntouched(g, m, n, i) && OthersUntouched(g, n, q, i)
    ensures OthersUntouched(g, m, q, i)
  {
    hide BytesOf, InodeAt, Consistent, Sized, SoundTable;
  }

  /** File i owns nothing any more; all the other owners are left. */
  ghost predicate Released(owner: Owner, after: Owner, i: nat) {
    && (forall b :: b in after ==> b in owner && after[b] == owner[b])
    && (forall b :: b in owner ==> (b in after <==> owner[b].inum != i))
  }

  lemma MapOnly(g: Super, disk: Disk, after: Disk, touched: set<int>, b: int)
    requires OnlyTouched(disk, after, touched) && MapBlocks(g, touched) && g.datastart <= b < |disk|
    ensures |after| == |disk| && (b >= 0 ==> after[b] == disk[b])
  {
  }

  lemma MapBlocksBut(g: Super, touched: set<int>, t: set<int>)
    requires MapBlocks(g, touched)
    ensures MapBlocks(g, touched + t - t)
  {
  }

  lemma ReleasedDirect(g: Super, m: Moment, owner: Owner, i: nat)
    requires Sound(g, m) && i < |m.table| && Ind(m.table[i]) == 0 && Freed(m.owner, owner, i, NDIRECT)
    ensures Released(m.owner, owner, i)
  {
    hide Used;
    IndAgrees(g, m, i);
    hide Maps, ListsWords, AllMap, Owned;
    forall b | b in m.owner && m.owner[b].inum == i ensures b !in owner {
      assert Refers(m.table, m.files, b, m.owner[b]);
    }
  }

  lemma ReleasedAll(g: Super, m: Moment, owner: Owner, i: nat)
    requires Sound(g, m) && i < |m.table| && Ind(m.table[i]) != 0 && Freed(m.owner, owner, i, MAXFILE)
    ensures Ind(m.table[i]) in owner && g.datastart <= Ind(m.table[i]) < g.size
    ensures Released(m.owner, owner - {Ind(m.table[i])}, i)
  {
    Listed(g, m.disk, m.table, m.files, m.owner, i, 0);
    hide Used, ListsWords, Owned;
    forall b | b in m.owner && m.owner[b].inum == i && b != Ind(m.table[i]) ensures b !in owner {
      assert Refers(m.table, m.files, b, m.owner[b]);
    }
  }

  /** The ghost state follows the frees. */
  lemma Truncated(g: Super, m: Moment, n: Moment, i: nat, d: Dinode, touched: set<int>)
    requires Sound(g, m) && i < |m.table| && |m.files| == |m.table|
    requires SoundTable(g, m.table) && d == m.table[i].(size := 0, addrs := d.addrs)
    requires |d.addrs| == NDIRECT + 1 && forall k :: 0 <= k <= NDIRECT ==> d.addrs[k] == 0
    requires n.table == m.table[i := d] && n.files == m.files[i := []]
    requires Released(m.owner, n.owner, i) && BitmapAgrees(g, n.disk, n.owner)
    requires OnlyTouched(m.disk, n.disk, touched) && MapBlocks(g, touched)
    ensures Sound(g, n) && SoundTable(g, n.table) && Kept(g, m, n, i, touched)
  {
    hide Used, ListsWords, BitmapAgrees;
    KeptByMap(g, m, n, i, touched);
    OthersMap(g, m.disk, n.disk, m.table, m.files, m.owner, i);
    assert AllMap(n.disk, n.table, n.files);
    hide AllMap, Maps, OnlyTouched, OthersKept;
    assert Owned(n.table, n.files, n.owner) by {
      forall j: nat, k: nat | j < |n.files| && k < |n.files[j]| ensures HasPlace(n.owner, n.files[j][k], Slot(j, k)) {
        assert n.files[j] == m.files[j];
        assert HasPlace(m.owner, m.files[j][k], Slot(j, k));
      }
      forall j: nat | j < |n.table| && Ind(n.table[j]) != 0 ensures HasPlace(n.owner, Ind(n.table[j]), Indirect(j)) {
        assert n.table[j] == m.table[j];
        assert HasPlace(m.owner, Ind(m.table[j]), Indirect(j));
      }
    }
    assert Real(g, n.table, n.files, n.owner) by {
      forall b | b in n.owner ensures g.datastart <= b < g.size && Refers(n.table, n.files, b, n.owner[b]) {
        assert Refers(m.table, m.files, b, m.owner[b]);
      }
    }
  }

  lemma KeptByMap(g: Super, m: Moment, n: Moment, i: nat, touched: set<int>)
    requires Sound(g, m) && OnlyTouched(m.disk, n.disk, touched) && MapBlocks(g, touched)
    ensures OthersKept(m.disk, n.disk, m.owner, i)
  {
    RealRange(g, m.table, m.files, m.owner);
  }

  lemma Emptied(g: Super, m: Moment, n: Moment, q: Moment, i: nat, touched: set<int>)
    requires AtRest(g, m) && Kept(g, m, n, i, touched) && Sound(g, q) && i < |m.table|
    requires Released(m.owner, n.owner, i)
    requires q == n.(disk := q.disk) && SoundTable(g, q.table) && i < |q.files| && q.files[i] == []
    requires q.table[i].size == 0 && Ind(q.table[i]) == 0
    requires OnlyTouched(n.disk, q.disk, {g.IBlock(i)}) && g.IBlock(i) < g.bmapstart
    requires InodeAt(g, q.disk, i) == q.table[i]
    requires forall j: nat :: j < g.ninodes && j != i ==>
      |n.disk| == g.size && InodeAt(g, q.disk, j) == InodeAt(g, n.disk, j)
    ensures AtRest(g, q) && OthersUntouched(g, m, q, i) && BytesOf(g, q, i) == []
    ensures forall b: nat :: b < g.size ==>
      (Used(g, q.disk, b) <==> Used(g, m.disk, b) && !(b in m.owner && m.owner[b].inum == i))
  {
    hide InodeAt, InodeIn, Used;
    assert Sized(q.table[i], q.files[i]);
    RealRange(g, m.table, m.files, m.owner);
    hide AtRest, Consistent, Kept;
    ComesToRest(g, m, n, q, i, q.table[i], touched, {g.IBlock(i)});
    SoundMap(g, m);
    SoundMap(g, q);
  }

  lemma BitOfBlock(g: Super, disk: Disk, b: nat)
    requires g.Valid() && |disk| == g.size && b < g.size
    ensures g.BBlock(b) < g.size
    ensures Used(g, disk, b) <==> BitOf(disk[g.BBlock(b)][b % BPB / 8], b % BPB % 8)
  {
    hide BitOf;
    BlockRanges(g, 0, b);
    SameBit(b, b);
  }

  /** The first t entries of file i own nothing any more; all the other owners are left. */
  ghost predicate Freed(owner: Owner, after: Owner, i: nat, t: nat) {
    && (forall b :: b in after ==> b in owner && after[b] == owner[b])
    && (forall b :: b in owner ==> (b in after <==> !(owner[b].Slot? && owner[b].inum == i && owner[b].k < t)))
  }

  lemma FreedNone(owner: Owner, i: nat)
    ensures Freed(owner, owner, i, 0)
  {
  }

  lemma NothingTouched(g: Super, disk: Disk)
    ensures OnlyTouched(disk, disk, {}) && MapBlocks(g, {})
  {
  }

  lemma MapBlocksTwice(g: Super, s: set<int>, t: set<int>)
    requires MapBlocks(g, s) && MapBlocks(g, t)
    ensures MapBlocks(g, s + t)
  {
  }

  /** Entry t of file i is empty, or holds a block that is still owned; either way the step of itrunc frees it. */
  lemma NextToFree(g: Super, m: Moment, owner: Owner, i: nat, t: nat)
    requires Sound(g, m) && i < |m.table| && Freed(m.owner, owner, i, t) && t < MAXFILE
    requires t >= NDIRECT ==> Ind(m.table[i]) != 0
    ensures |m.files| == |m.table| && Maps(m.disk, m.table[i], m.files[i])
    ensures
      var b := if t < NDIRECT then m.table[i].addrs[t] else Word(m.disk[Ind(m.table[i])], t - NDIRECT);
      && (b == 0 ==> Freed(m.owner, owner, i, t + 1))
      && (b != 0 ==> b in owner && g.datastart <= b < g.size && Freed(m.owner, owner - {b}, i, t + 1))
  {
    hide Used, Word;
    assert Maps(m.disk, m.table[i], m.files[i]);
    FileInRange(g, m.disk, m.table, m.files, m.owner, i);
    assert t >= NDIRECT ==> Word(m.disk[Ind(m.table[i])], t - NDIRECT) == AddrAt(m.files[i], NDIRECT + (t - NDIRECT));
    hide BitmapAgrees, AllMap, ListsWords, Maps;
    if t < |m.files[i]| {
      var b := m.files[i][t];
      assert HasPlace(m.owner, b, Slot(i, t));
      forall c | c in m.owner && m.owner[c] == Slot(i, t) ensures c == b {
        assert Refers(m.table, m.files, c, m.owner[c]);
      }
    } else {
      forall c | c in m.owner && m.owner[c].Slot? && m.owner[c].inum == i ensures m.owner[c].k < t {
        assert Refers(m.table, m.files, c, m.owner[c]);
      }
    }
  }

  lemma Adjoin(s: seq<Byte>, a: nat, b: nat, c: nat)
    requires a <= b <= c <= |s|
    ensures s[a..b] + s[b..c] == s[a..c]
  {
  }

  lemma SizedLocked(g: Super, m: Moment, i: nat)
    requires AtRest(g, m) && i < |m.table|
    ensures g.Valid() && |m.disk| == g.size && i < |m.files| && InRange(m.disk, m.files[i])
    ensures 0 <= m.table[i].size <= MAXFILE * BSIZE && |m.files[i]| == BlocksFor(m.table[i].size)
    ensures m.table[i].size <= BSIZE * |m.files[i]|
    ensures BytesOf(g, m, i) == Contents(m.disk, m.files[i], m.table[i].size)
  {
    FileInRange(g, m.disk, m.table, m.files, m.owner, i);
    EnoughBlocks(m.table[i].size);
    SoundValid(g, m);
    hide Consistent, Used;
  }

  /** A write inside the file leaves the inode as it is. */
  lemma NotLengthened(g: Super, m: Moment, n: Moment, i: nat, touched: set<int>, bits: set<int>, data: set<int>)
    requires AtRest(g, m) && Sound(g, n) && Written(g, m, n, i, touched, bits, data)
    requires |n.files[i]| == |m.files[i]|
    ensures AtRest(g, n) && OthersUntouched(g, m, n, i)
  {
    hide Consistent, Used, OthersKept, MapBlocks, Ind, InodeIn, Sized, Grown;
    SoundValid(g, m);
    BlockRanges(g, i, 0);
    assert InodeAt(g, n.disk, i) == InodeAt(g, m.disk, i) == m.table[i];
    assert n.files[i] == m.files[i];
    assert n.table == m.table;
    assert n.table[i := m.table[i]] == n.table;
    hide AtRest, Framed, InodeAt;
    assert Sized(m.table[i], m.files[i]) by { RestSized(g, m, i); }
    RestTable(g, m);
    ComesToRest(g, m, n, n, i, m.table[i], touched, {});
  }

  lemma RestSized(g: Super, m: Moment, i: nat)
    requires AtRest(g, m) && i < |m.table| && i < |m.files|
    ensures Sized(m.table[i], m.files[i])
  {
  }

  lemma RestTable(g: Super, m: Moment)
    requires AtRest(g, m)
    ensures Sound(g, m) && SoundTable(g, m.table)
  {
  }

  /** A write past the end leaves the longer size on disk. */
  lemma Lengthened(g: Super, m: Moment, n: Moment, q: Moment, i: nat, size: nat, touched: set<int>, bits: set<int>,
          data: set<int>)
    requires AtRest(g, m) && Sound(g, n) && Sound(g, q) && Written(g, m, n, i, touched, bits, data)
    requires size <= MAXFILE * BSIZE && |n.files[i]| == BlocksFor(size)
    requires q.files == n.files && q.owner == n.owner && q.table == n.table[i := n.table[i].(size := size)]
    requires SoundTable(g, q.table)
    requires OnlyTouched(n.disk, q.disk, {g.IBlock(i)}) && g.IBlock(i) < g.bmapstart
    requires InodeAt(g, q.disk, i) == q.table[i]
    requires forall j: nat :: j < g.ninodes && j != i ==>
      |n.disk| == g.size && InodeAt(g, q.disk, j) == InodeAt(g, n.disk, j)
    ensures AtRest(g, q) && OthersUntouched(g, m, q, i)
    ensures InRange(n.disk, n.files[i]) && size <= BSIZE * |n.files[i]|
    ensures BytesOf(g, q, i) == Contents(n.disk, n.files[i], size)
  {
    hide Consistent, Used, InodeIn, InodeAt;
    RestSized(g, m, i);
    assert Sized(q.table[i], q.files[i]);
    hide AtRest, Framed;
    ComesToRest(g, m, n, q, i, q.table[i], touched, {g.IBlock(i)});
    FileInRange(g, n.disk, n.table, n.files, n.owner, i);
    SizedLocked(g, q, i);
    SoundValid(g, n);
    forall k: nat | k < |n.files[i]| ensures q.disk[n.files[i][k]] == n.disk[n.files[i][k]] {
    }
  }

  lemma TableUpdated(g: Super, table: seq<Dinode>, i: nat, size: nat)
    requires SoundTable(g, table) && i < |table| && size < UINT
    ensures SoundTable(g, table[i := table[i].(size := size)])
  {
  }

  lemma UntouchedSelf(g: Super, m: Moment, i: nat)
    requires AtRest(g, m)
    ensures OthersUntouched(g, m, m, i)
  {
  }

  /**
   The two tests of writei, wrapping sum and all, refuse just the writes that start past the end or end past MAXFILE.
   */
  lemma Refusals(size: int, off: nat, n: nat)
    requires 0 <= size <= MAXFILE * BSIZE && off < UINT && n < UINT
    ensures (off > size || (off + n) % UINT < off || (off + n) % UINT > MAXFILE * BSIZE) <==>
      off > size || off + n > MAXFILE * BSIZE
    ensures off + n <= MAXFILE * BSIZE ==> (off + n) % UINT == off + n
  {
  }

  /** What the turns of writei have done when the bytes src are written from start on. */
  ghost predicate SoFar(g: Super, m: Moment, n: Moment, i: nat, size: nat, start: nat, src: seq<Byte>,
          touched: set<int>, bits: set<int>, data: set<int>)
  {
    && Written(g, m, n, i, touched, bits, data)
    && InRange(m.disk, m.files[i]) && InRange(n.disk, n.files[i])
    && start <= size <= BSIZE * |m.files[i]|
    && |n.files[i]| == BlocksFor(Max(size, start + |src|))
    && Max(size, start + |src|) <= BSIZE * |n.files[i]|
    && Contents(n.disk, n.files[i], Max(size, start + |src|)) == Splice(Contents(m.disk, m.files[i], size), start, src)
    && |data| <= if |src| == 0 then 0 else BlocksFor(start + |src|) - start / BSIZE
  }

  lemma SoFarNothing(g: Super, m: Moment, i: nat, size: nat, start: nat)
    requires g.Valid() && i < |m.files| && i < |m.table| && InRange(m.disk, m.files[i])
    requires start <= size <= BSIZE * |m.files[i]| && |m.files[i]| == BlocksFor(size)
    ensures SoFar(g, m, m, i, size, start, [], {}, {}, {})
  {
    hide Written, Splice, Contents, InRange, BlocksFor;
    WrittenNothing(g, m, i);
    SpliceNothing(Contents(m.disk, m.files[i], size), start);
  }

  lemma SoFarRoom(g: Super, m: Moment, n: Moment, i: nat, size: nat, start: nat, src: seq<Byte>, touched: set<int>,
          bits: set<int>, data: set<int>)
    requires SoFar(g, m, n, i, size, start, src, touched, bits, data)
    ensures i < |n.files| && InRange(n.disk, n.files[i]) && start + |src| <= Max(size, start + |src|)
    ensures |n.files[i]| == BlocksFor(Max(size, start + |src|)) && Max(size, start + |src|) <= BSIZE * |n.files[i]|
  {
    hide Splice, Contents, InRange, BlocksFor;
  }

  lemma SoFarAll(g: Super, m: Moment, n: Moment, i: nat, size: nat, start: nat, src: seq<Byte>, touched: set<int>,
          bits: set<int>, data: set<int>)
    requires SoFar(g, m, n, i, size, start, src, touched, bits, data)
    ensures i < |n.files| && i < |m.files| && InRange(n.disk, n.files[i]) && InRange(m.disk, m.files[i])
    ensures Written(g, m, n, i, touched, bits, data) && start <= size <= BSIZE * |m.files[i]|
    ensures |data| <= if |src| == 0 then 0 else BlocksFor(start + |src|) - start / BSIZE
    ensures |n.files[i]| == BlocksFor(Max(size, start + |src|)) && Max(size, start + |src|) <= BSIZE * |n.files[i]|
    ensures Contents(n.disk, n.files[i], Max(size, start + |src|))
      == Splice(Contents(m.disk, m.files[i], size), start, src)
  {
    hide Splice, Contents, InRange, BlocksFor;
  }

  /** If the next turn runs out of blocks, there were too few for the whole write. */
  lemma SoFarStops(g: Super, m: Moment, mid: Moment, i: nat, size: nat, start: nat, src: seq<Byte>, tot: nat,
          touched: set<int>, bits: set<int>, data: set<int>)
    requires tot < |src| && SoFar(g, m, mid, i, size, start, src[..tot], touched, bits, data)
    requires Sound(g, m) && Sound(g, mid) && i < |mid.files| && i < |mid.table|
    requires FreeBlocks(g, mid.disk) < Lacks(|mid.files[i]|, Ind(mid.table[i]), (start + tot) / BSIZE + 1)
    ensures i < |m.files| && i < |m.table|
    ensures FreeBlocks(g, m.disk) < Lacks(|m.files[i]|, Ind(m.table[i]), BlocksFor(Max(size, start + |src|)))
  {
    hide Consistent, Splice, Contents, InRange, FreeBlocks, Ind, Framed;
    WrittenFree(g, m, mid, i, touched, bits, data);
    var now, upto := |mid.files[i]|, BlocksFor(Max(size, start + |src|));
    BlocksGrow(Max(size, start + tot), Max(size, start + |src|));
    LastBlock(start + tot, Max(size, start + |src|));
    LacksTwice(|m.files[i]|, Ind(m.table[i]), now, Ind(mid.table[i]), upto);
    LacksMore(now, Ind(mid.table[i]), (start + tot) / BSIZE + 1, upto);
  }

  lemma BlocksGrow(a: nat, b: nat)
    requires a <= b
    ensures BlocksFor(a) <= BlocksFor(b)
  {
  }

  lemma LastBlock(p: nat, size: nat)
    requires p < size
    ensures p / BSIZE + 1 <= BlocksFor(size)
  {
  }

  /** One more turn, from mid to n. */
  lemma SoFarMore(g: Super, m: Moment, mid: Moment, n: Moment, i: nat, size: nat, start: nat, src: seq<Byte>,
          bytes: seq<Byte>, s: set<int>, t: set<int>, bits: set<int>, more: set<int>, data: set<int>, b: int)
    requires SoFar(g, m, mid, i, size, start, src, s, bits, data)
    requires 0 < |bytes| <= BSIZE - (start + |src|) % BSIZE && (|src| > 0 ==> (start + |src|) % BSIZE == 0)
    requires Written(g, mid, n, i, t, more, {b}) && InRange(n.disk, n.files[i])
    requires InRange(mid.disk, mid.files[i]) && Max(size, start + |src|) <= BSIZE * |mid.files[i]|
    requires |n.files[i]| == BlocksFor(Max(Max(size, start + |src|), start + |src| + |bytes|))
    requires Max(Max(size, start + |src|), start + |src| + |bytes|) <= BSIZE * |n.files[i]|
    requires Contents(n.disk, n.files[i], Max(Max(size, start + |src|), start + |src| + |bytes|))
      == Splice(Contents(mid.disk, mid.files[i], Max(size, start + |src|)), start + |src|, bytes)
    ensures SoFar(g, m, n, i, size, start, src + bytes, s + t, bits + more, data + {b})
  {
    hide Written, Splice, Contents, InRange, BlocksFor;
    SoFarAll(g, m, mid, i, size, start, src, s, bits, data);
    WrittenTwice(g, m, mid, n, i, s, t, bits, more, data, b);
    NextCount(start, start + |src|, |bytes|, |data|);
    SpliceTwice(Contents(m.disk, m.files[i], size), start, src, bytes);
  }

  lemma NextBoundary(off: nat, m: nat)
    requires m == BSIZE - off % BSIZE
    ensures (off + m) % BSIZE == 0
  {
  }

  /** The blocks written so far span the offsets written so far. */
  lemma NextCount(start: nat, off: nat, m: nat, count: nat)
    requires start <= off && 0 < m <= BSIZE - off % BSIZE
    ensures BlocksFor(off + m) == off / BSIZE + 1
    ensures off == start && count == 0 ==> count + 1 <= BlocksFor(off + m) - start / BSIZE
    ensures off % BSIZE == 0 && count <= BlocksFor(off) - start / BSIZE ==>
      count + 1 <= BlocksFor(off + m) - start / BSIZE
    ensures m == BSIZE - off % BSIZE ==> (off + m) % BSIZE == 0
  {
    var k, o := off / BSIZE, off % BSIZE;
    assert off == BSIZE * k + o;
    assert off + m + BSIZE - 1 == BSIZE * (k + 1) + (o + m - 1);
  }

  lemma InodeStored(g: Super, disk: Disk, i: nat, d: Dinode, j: nat)
    requires g.Valid() && |disk| == g.size && i < g.ninodes && j < g.ninodes && d.Valid()
    ensures g.IBlock(i) < g.size
    ensures
      var ib := g.IBlock(i);
      InodeAt(g, disk[ib := PutInode(disk[ib], i % IPB, d)], j) == if j == i then d else InodeAt(g, disk, j)
  {
    hide PutInode, InodeIn, Dinode.Valid;
    BlockRanges(g, i, 0);
    BlockRanges(g, j, 0);
    PutInodeInodes(disk[g.IBlock(i)], i % IPB, d, j % IPB);
    SamePlace(i, j);
  }

  lemma SamePlace(i: nat, j: nat)
    ensures i == j <==> i / IPB == j / IPB && i % IPB == j % IPB
  {
  }

  lemma FullDirect(disk: Disk, d: Dinode, blocks: seq<int>)
    requires Maps(disk, d, blocks)
    ensures |blocks| > NDIRECT ==> Ind(d) != 0
  {
  }

  lemma ExtendedSelf(g: Super, m: Moment, i: nat)
    requires i < |m.table|
    ensures Extended(g, m, m, i, {}, {})
  {
  }

  lemma ExtendedTwice(g: Super, m: Moment, n: Moment, q: Moment, i: nat, s: set<int>, t: set<int>, bits: set<int>,
          more: set<int>)
    requires Extended(g, m, n, i, s, bits) && Extended(g, n, q, i, t, more)
    ensures Extended(g, m, q, i, s + t, bits + more) && |bits + more| <= |bits| + |more|
  {
    FramedTwice(g, m, n, q, i, s, t);
    KeptTwice(m.disk, n.disk, q.disk, m.owner, n.owner, i);
    SizeOfUnion(bits, more);
  }

  lemma KeptTwice(disk: Disk, mid: Disk, after: Disk, owner: Owner, owner': Owner, i: nat)
    requires Grown(owner, owner', i) && DataKept(disk, mid, owner, i) && DataKept(mid, after, owner', i)
    ensures DataKept(disk, after, owner, i)
  {
  }

  lemma NewAddress(g: Super, m: Moment, after: Disk, b: int)
    requires Allocated(g, m.disk, after, m.owner, b)
    ensures g.Valid() && 0 < b < UINT && b < |after| && after[b] == Zeros() && b !in m.owner
      && MapBlocks(g, {g.BBlock(b)})
  {
    BlockRanges(g, 0, b);
  }

  lemma Geometry(g: Super, disk: Disk, owner: Owner)
    requires BitmapAgrees(g, disk, owner)
    ensures g.Valid() && |disk| == g.size
  {
  }

  /** The two writes of balloc take block b, free before, and nothing else. */
  lemma MarkAndZero(g: Super, disk: Disk, owner: Owner, b: nat)
    requires BitmapAgrees(g, disk, owner) && b < g.size && !Used(g, disk, b)
    ensures g.BBlock(b) < g.datastart <= b
    ensures Allocated(g, disk, disk[g.BBlock(b) := Marked(disk[g.BBlock(b)], b % BPB)][b := Zeros()], owner, b)
  {
    hide Used, Marked, Zeros;
    BlockRanges(g, 0, b);
    var mid := disk[g.BBlock(b) := Marked(disk[g.BBlock(b)], b % BPB)];
    var after := mid[b := Zeros()];
    forall c: nat | c < g.size ensures Used(g, after, c) <==> c == b || Used(g, disk, c) {
      MarkedBits(g, disk, b, c);
      BlockRanges(g, 0, c);
      SameUsed(g, mid, after, {b}, c);
    }
  }

  lemma BitPlace(g: Super, disk: Disk, b: nat, bi: nat)
    requires g.Valid() && |disk| == g.size && b + bi < g.size && b % BPB == 0 && bi < BPB
    ensures g.BBlock(b + bi) == g.BBlock(b) < g.datastart && (b + bi) % BPB == bi
    ensures Used(g, disk, b + bi) <==> BitOf(disk[g.BBlock(b)][bi / 8], bi % 8)
  {
    hide BitOf;
    BlockAndBit(b, bi);
    BlockRanges(g, 0, b + bi);
  }

  lemma BlockAndBit(b: nat, bi: nat)
    requires b % BPB == 0 && bi < BPB
    ensures (b + bi) / BPB == b / BPB && (b + bi) % BPB == bi && (b + bi) % 8 == bi % 8
  {
    var q := b / BPB;
    assert b == BPB * q;
    InWhole(q, bi);
    Eighth(512 * q, bi);
  }

  lemma InWhole(q: nat, r: nat)
    requires r < BPB
    ensures (BPB * q + r) / BPB == q && (BPB * q + r) % BPB == r
  {
  }
}
