/** Who owns which data block, what a file's bytes are, and how single block changes keep both. */
module FsInvariant {
  import opened Blocks
  import opened FsLayout

  /** The one place that refers to a data block: entry k of a file, or a file's indirect block. */
  datatype Place = Slot(inum: nat, k: nat) | Indirect(inum: nat)

  type Owner = map<int, Place>

  /** ip->addrs[NDIRECT] */
  function Ind(d: Dinode): int {
    if |d.addrs| == NDIRECT + 1 then d.addrs[NDIRECT] else 0
  }

  /** The address that entry k of a file with these blocks holds; 0 past the last block. */
  function AddrAt(blocks: seq<int>, k: nat): int {
    if k < |blocks| then blocks[k] else 0
  }

  /** The dinode and its indirect block list exactly these blocks, without holes. */
  ghost predicate Maps(disk: Disk, d: Dinode, blocks: seq<int>) {
    && |d.addrs| == NDIRECT + 1
    && |blocks| <= MAXFILE
    && (forall k :: 0 <= k < NDIRECT ==> d.addrs[k] == AddrAt(blocks, k))
    && (|blocks| > NDIRECT ==> Ind(d) != 0)
    && (Ind(d) != 0 ==> |blocks| >= NDIRECT && 0 <= Ind(d) < |disk| && ListsWords(disk[Ind(d)], blocks))
  }

  ghost predicate ListsWords(data: Data, blocks: seq<int>) {
    forall j: nat :: j < NINDIRECT ==> Word(data, j) == AddrAt(blocks, NDIRECT + j)
  }

  ghost predicate HasPlace(owner: Owner, b: int, p: Place) {
    b in owner && owner[b] == p
  }

  /** Every block in use by a file belongs to the place that refers to it. */
  ghost predicate Owned(table: seq<Dinode>, files: seq<seq<int>>, owner: Owner) {
    && |files| == |table|
    && (forall i: nat, k: nat :: i < |files| && k < |files[i]| ==> HasPlace(owner, files[i][k], Slot(i, k)))
    && (forall i: nat {:trigger Ind(table[i])} :: i < |table| && Ind(table[i]) != 0 ==>
      HasPlace(owner, Ind(table[i]), Indirect(i)))
  }

  ghost predicate Refers(table: seq<Dinode>, files: seq<seq<int>>, b: int, p: Place) {
    match p
    case Slot(i, k) => i < |files| && k < |files[i]| && files[i][k] == b
    case Indirect(i) => i < |table| && Ind(table[i]) == b
  }

  /** Only data blocks are owned, and by a place that does refer to them. */
  ghost predicate Real(g: Super, table: seq<Dinode>, files: seq<seq<int>>, owner: Owner) {
    forall b :: b in owner ==> g.datastart <= b < g.size && Refers(table, files, b, owner[b])
  }

  /** The bitmap marks the metadata and the owned blocks, and nothing else. */
  ghost predicate BitmapAgrees(g: Super, disk: Disk, owner: Owner) {
    && g.Valid()
    && |disk| == g.size
    && forall b: nat :: b < g.size ==> (Used(g, disk, b) <==> b < g.datastart || b in owner)
  }

  ghost predicate AllMap(disk: Disk, table: seq<Dinode>, files: seq<seq<int>>) {
    && |files| == |table|
    && forall i: nat :: i < |table| ==> Maps(disk, table[i], files[i])
  }

  /** Each data block is free in the bitmap or owned by exactly one place. */
  ghost predicate Consistent(g: Super, disk: Disk, table: seq<Dinode>, files: seq<seq<int>>, owner: Owner) {
    && BitmapAgrees(g, disk, owner)
    && Owned(table, files, owner)
    && Real(g, table, files, owner)
    && AllMap(disk, table, files)
  }

  /** Between operations: an entry has an address exactly when the size reaches it. */
  ghost predicate Sized(d: Dinode, blocks: seq<int>) {
    && 0 <= d.size <= MAXFILE * BSIZE
    && |blocks| == BlocksFor(d.size)
    && (Ind(d) != 0 <==> |blocks| > NDIRECT)
  }

  /** ceil(size / BSIZE) */
  function BlocksFor(size: nat): nat {
    (size + BSIZE - 1) / BSIZE
  }

  /** One block has one owner: two places that refer to a block are the same place. */
  lemma OneOwner(g: Super, disk: Disk, table: seq<Dinode>, files: seq<seq<int>>, owner: Owner, b: int, p: Place,
          q: Place)
    requires Consistent(g, disk, table, files, owner) && b != 0
    requires Refers(table, files, b, p) && Refers(table, files, b, q)
    ensures p == q && HasPlace(owner, b, p) && g.datastart <= b < g.size && Used(g, disk, b)
  {
    hide AllMap, Used, g.Valid;
    OwnerOf(table, files, owner, b, p);
    OwnerOf(table, files, owner, b, q);
  }

  lemma OwnerOf(table: seq<Dinode>, files: seq<seq<int>>, owner: Owner, b: int, p: Place)
    requires Owned(table, files, owner) && b != 0 && Refers(table, files, b, p)
    ensures HasPlace(owner, b, p)
  {
    hide HasPlace;
    match p
    case Slot(i, k) => assert HasPlace(owner, files[i][k], Slot(i, k));
    case Indirect(i) => assert Ind(table[i]) == b;
  }

  /** A free data block is one that no place refers to. */
  lemma FreeIsUnreferenced(g: Super, disk: Disk, table: seq<Dinode>, files: seq<seq<int>>, owner: Owner, b: nat)
    requires Consistent(g, disk, table, files, owner) && g.datastart <= b < g.size
    ensures g.Valid() && |disk| == g.size
    ensures Used(g, disk, b) <==> exists p: Place :: Refers(table, files, b, p)
  {
    hide Used, AllMap;
    if b in owner {
      assert Refers(table, files, b, owner[b]);
    } else {
      forall p: Place ensures !Refers(table, files, b, p) {
        if Refers(table, files, b, p) {
          OwnerOf(table, files, owner, b, p);
        }
      }
    }
  }

  // ---------------------------------------------------------------- contents

  /** The bytes of a file as a string. */
  ghost predicate InRange(disk: Disk, blocks: seq<int>) {
    forall k :: 0 <= k < |blocks| ==> 0 <= blocks[k] < |disk|
  }

  function ByteAt(disk: Disk, blocks: seq<int>, p: nat): Byte
    requires p / BSIZE < |blocks| && 0 <= blocks[p / BSIZE] < |disk|
  {
    disk[blocks[p / BSIZE]][p % BSIZE]
  }

  ghost function Contents(disk: Disk, blocks: seq<int>, size: nat): (s: seq<Byte>)
    requires InRange(disk, blocks) && size <= BSIZE * |blocks|
    ensures |s| == size
  {
    seq(size, p requires 0 <= p < size => ByteAt(disk, blocks, p))
  }

  /** What a write of src at off makes of a byte string that reaches off. */
  function Splice(s: seq<Byte>, off: nat, src: seq<Byte>): (r: seq<Byte>)
    requires off <= |s|
    ensures |r| == if off + |src| > |s| then off + |src| else |s|
  {
    s[..off] + src + if off + |src| <= |s| then s[off + |src|..] else []
  }

  lemma FileInRange(g: Super, disk: Disk, table: seq<Dinode>, files: seq<seq<int>>, owner: Owner, i: nat)
    requires Consistent(g, disk, table, files, owner) && i < |files|
    ensures InRange(disk, files[i])
    ensures forall k: nat :: k < |files[i]| ==> HasPlace(owner, files[i][k], Slot(i, k)) && g.datastart <= files[i][k]
  {
    hide AllMap, Used;
    forall k: nat | k < |files[i]|
      ensures HasPlace(owner, files[i][k], Slot(i, k)) && g.datastart <= files[i][k] < g.size
    {
      var b := files[i][k];
      assert HasPlace(owner, b, Slot(i, k));
    }
  }

  /** Nothing that belongs to a file other than i differs. */
  ghost predicate OthersKept(disk: Disk, after: Disk, owner: Owner, i: nat) {
    && |after| == |disk|
    && forall b :: b in owner && owner[b].inum != i && 0 <= b < |disk| ==> after[b] == disk[b]
  }

  /** Then their contents are the same. */
  lemma OtherContents(g: Super, disk: Disk, after: Disk, table: seq<Dinode>, files: seq<seq<int>>, owner: Owner,
          i: nat, j: nat, size: nat)
    requires Consistent(g, disk, table, files, owner) && OthersKept(disk, after, owner, i)
    requires j < |files| && j != i && size <= BSIZE * |files[j]|
    ensures InRange(disk, files[j]) && InRange(after, files[j])
    ensures Contents(after, files[j], size) == Contents(disk, files[j], size)
  {
    FileInRange(g, disk, table, files, owner, j);
    hide Consistent;
    forall k: nat | k < |files[j]| ensures after[files[j][k]] == disk[files[j][k]] {
      var b := files[j][k];
      assert HasPlace(owner, b, Slot(j, k));
    }
  }

  // ---------------------------------------------------------------- how a change of one place keeps the rest

  /** The other files stay mapped. */
  lemma OthersMap(g: Super, disk: Disk, after: Disk, table: seq<Dinode>, files: seq<seq<int>>, owner: Owner, i: nat)
    requires Consistent(g, disk, table, files, owner) && OthersKept(disk, after, owner, i)
    ensures forall j: nat :: j < |table| && j != i ==> Maps(after, table[j], files[j])
  {
    hide Used, ListsWords;
    forall j: nat | j < |table| && j != i ensures Maps(after, table[j], files[j]) {
      assert Maps(disk, table[j], files[j]);
      if Ind(table[j]) != 0 {
        var b := Ind(table[j]);
        assert HasPlace(owner, b, Indirect(j));
      }
    }
  }

  /** File i gains block b at its end. */
  lemma OwnSlot(g: Super, table: seq<Dinode>, files: seq<seq<int>>, owner: Owner, i: nat, d: Dinode, b: int)
    requires Owned(table, files, owner) && Real(g, table, files, owner)
    requires i < |table| && Ind(d) == Ind(table[i]) && b !in owner && g.datastart <= b < g.size
    ensures Owned(table[i := d], files[i := files[i] + [b]], owner[b := Slot(i, |files[i]|)])
    ensures Real(g, table[i := d], files[i := files[i] + [b]], owner[b := Slot(i, |files[i]|)])
  {
    hide HasPlace, Refers, Ind;
    var table', files', owner' := table[i := d], files[i := files[i] + [b]], owner[b := Slot(i, |files[i]|)];
    forall j: nat, k: nat | j < |files'| && k < |files'[j]| ensures HasPlace(owner', files'[j][k], Slot(j, k)) {
      if j == i && k == |files[i]| {
        PlaceNew(owner, b, Slot(j, k));
      } else {
        assert files'[j][k] == files[j][k];
        assert HasPlace(owner, files[j][k], Slot(j, k));
        PlaceKept(owner, files[j][k], Slot(j, k), b, Slot(i, |files[i]|));
      }
    }
    forall j: nat | j < |table'| && Ind(table'[j]) != 0 ensures HasPlace(owner', Ind(table'[j]), Indirect(j)) {
      assert Ind(table'[j]) == Ind(table[j]);
      PlaceKept(owner, Ind(table[j]), Indirect(j), b, Slot(i, |files[i]|));
    }
    forall c | c in owner' ensures g.datastart <= c < g.size && Refers(table', files', c, owner'[c]) {
      if c == b {
        RefersSlot(table', files', i, |files[i]|);
      } else {
        RefersStill(table, files, table', files', c, owner[c]);
      }
    }
  }

  lemma PlaceNew(owner: Owner, b: int, p: Place)
    ensures HasPlace(owner[b := p], b, p)
  {
  }

  lemma PlaceKept(owner: Owner, c: int, p: Place, b: int, q: Place)
    requires HasPlace(owner, c, p) && b !in owner
    ensures HasPlace(owner[b := q], c, p)
  {
  }

  lemma RefersSlot(table: seq<Dinode>, files: seq<seq<int>>, i: nat, k: nat)
    requires i < |files| && k < |files[i]|
    ensures Refers(table, files, files[i][k], Slot(i, k))
  {
  }

  lemma RefersIndirect(table: seq<Dinode>, files: seq<seq<int>>, i: nat)
    requires i < |table|
    ensures Refers(table, files, Ind(table[i]), Indirect(i))
  {
  }

  lemma IndirectStill(table: seq<Dinode>, files: seq<seq<int>>, i: nat, d: Dinode, c: int, p: Place)
    requires i < |table| && Ind(table[i]) == 0 && c != 0 && Refers(table, files, c, p)
    ensures Refers(table[i := d], files, c, p)
  {
  }

  /** A reference survives when files only grow and its indirect addresses stay. */
  lemma RefersStill(table: seq<Dinode>, files: seq<seq<int>>, table': seq<Dinode>, files': seq<seq<int>>, c: int,
          p: Place)
    requires Refers(table, files, c, p) && |table'| == |table| && |files'| == |files|
    requires p.Slot? && p.inum < |files| ==> files[p.inum] <= files'[p.inum]
    requires p.Indirect? && p.inum < |table| ==> Ind(table'[p.inum]) == Ind(table[p.inum])
    ensures Refers(table', files', c, p)
  {
  }

  /** File i gains block b as its indirect block. */
  lemma OwnIndirect(g: Super, table: seq<Dinode>, files: seq<seq<int>>, owner: Owner, i: nat, d: Dinode, b: int)
    requires Owned(table, files, owner) && Real(g, table, files, owner)
    requires i < |table| && Ind(table[i]) == 0 && Ind(d) == b && b !in owner && 0 < g.datastart <= b < g.size
    ensures Owned(table[i := d], files, owner[b := Indirect(i)])
    ensures Real(g, table[i := d], files, owner[b := Indirect(i)])
  {
    hide HasPlace, Refers, Ind;
    var table', owner' := table[i := d], owner[b := Indirect(i)];
    forall j: nat, k: nat | j < |files| && k < |files[j]| ensures HasPlace(owner', files[j][k], Slot(j, k)) {
      assert HasPlace(owner, files[j][k], Slot(j, k));
      PlaceKept(owner, files[j][k], Slot(j, k), b, Indirect(i));
    }
    forall j: nat | j < |table'| && Ind(table'[j]) != 0 ensures HasPlace(owner', Ind(table'[j]), Indirect(j)) {
      if j == i {
        PlaceNew(owner, b, Indirect(i));
      } else {
        assert Ind(table'[j]) == Ind(table[j]);
        PlaceKept(owner, Ind(table[j]), Indirect(j), b, Indirect(i));
      }
    }
    forall c | c in owner' ensures g.datastart <= c < g.size && Refers(table', files, c, owner'[c]) {
      if c == b {
        RefersIndirect(table', files, i);
      } else {
        IndirectStill(table, files, i, d, c, owner[c]);
      }
    }
  }

  // ---------------------------------------------------------------- mapping one more block

  lemma MapsDirect(disk: Disk, after: Disk, d: Dinode, d': Dinode, blocks: seq<int>, b: int)
    requires Maps(disk, d, blocks) && |blocks| < NDIRECT
    requires d'.addrs == d.addrs[|blocks| := b]
    ensures Maps(after, d', blocks + [b]) && Ind(d') == Ind(d) == 0
  {
    hide ListsWords;
  }

  lemma MapsIndirect(disk: Disk, after: Disk, d: Dinode, blocks: seq<int>, b: int)
    requires Maps(disk, d, blocks) && NDIRECT <= |blocks| < MAXFILE && Ind(d) != 0 && 0 <= b < UINT
    requires |after| == |disk| && after[Ind(d)] == PutWord(disk[Ind(d)], |blocks| - NDIRECT, b)
    ensures Maps(after, d, blocks + [b])
  {
    hide PutWord, Word;
    forall j: nat | j < NINDIRECT ensures Word(after[Ind(d)], j) == AddrAt(blocks + [b], NDIRECT + j) {
      PutWordWords(disk[Ind(d)], |blocks| - NDIRECT, b, j);
    }
  }

  /** A zeroed block lists nothing. */
  lemma MapsNewIndirect(disk: Disk, after: Disk, d: Dinode, d': Dinode, blocks: seq<int>, b: int)
    requires Maps(disk, d, blocks) && |blocks| == NDIRECT
    requires |after| == |disk| && 0 < b < |disk| && after[b] == Zeros() && d'.addrs == d.addrs[NDIRECT := b]
    ensures Maps(after, d', blocks) && Ind(d') == b
  {
    assert forall j: nat :: j < NINDIRECT ==> Word(Zeros(), j) == 0;
  }

  /** Consistency after file i has gained data block b, once its own map is in order. */
  lemma Appended(g: Super, disk: Disk, after: Disk, table: seq<Dinode>, files: seq<seq<int>>, owner: Owner, i: nat,
          d: Dinode, b: int)
    requires Consistent(g, disk, table, files, owner) && OthersKept(disk, after, owner, i)
    requires i < |table| && Ind(d) == Ind(table[i]) && b !in owner && g.datastart <= b < g.size
    requires BitmapAgrees(g, after, owner[b := Slot(i, |files[i]|)])
    requires Maps(after, d, files[i] + [b])
    ensures Consistent(g, after, table[i := d], files[i := files[i] + [b]], owner[b := Slot(i, |files[i]|)])
  {
    OthersMap(g, disk, after, table, files, owner, i);
    OwnSlot(g, table, files, owner, i, d, b);
    hide Owned, Real, BitmapAgrees, Maps;
  }

  /** Consistency after file i has gained indirect block b. */
  lemma GotIndirect(g: Super, disk: Disk, after: Disk, table: seq<Dinode>, files: seq<seq<int>>, owner: Owner,
          i: nat, d: Dinode, b: int)
    requires Consistent(g, disk, table, files, owner) && OthersKept(disk, after, owner, i)
    requires i < |table| && Ind(table[i]) == 0 && Ind(d) == b && b !in owner && g.datastart <= b < g.size
    requires BitmapAgrees(g, after, owner[b := Indirect(i)])
    requires Maps(after, d, files[i])
    ensures Consistent(g, after, table[i := d], files, owner[b := Indirect(i)])
  {
    OthersMap(g, disk, after, table, files, owner, i);
    OwnIndirect(g, table, files, owner, i, d, b);
    hide Owned, Real, BitmapAgrees, Maps;
  }

  /** The map of free blocks after an allocation for place p. */
  lemma BitmapClaim(g: Super, disk: Disk, after: Disk, owner: Owner, b: nat, p: Place)
    requires BitmapAgrees(g, disk, owner) && |after| == |disk| && b < g.size
    requires forall c: nat :: c < g.size ==> (Used(g, after, c) <==> c == b || Used(g, disk, c))
    ensures b >= g.datastart ==> BitmapAgrees(g, after, owner[b := p])
  {
    hide Used;
  }

  /** The map of free blocks when no bitmap block changes. */
  lemma BitmapKept(g: Super, disk: Disk, after: Disk, owner: Owner, s: set<int>)
    requires BitmapAgrees(g, disk, owner) && OnlyTouched(disk, after, s)
    requires forall b :: b in s ==> b < g.bmapstart || b >= g.datastart
    ensures BitmapAgrees(g, after, owner)
  {
    hide Used, OnlyTouched;
    assert |after| == |disk| by { TouchedLength(disk, after, s); }
    forall c: nat | c < g.size ensures Used(g, after, c) <==> Used(g, disk, c) {
      BlockRanges(g, 0, c);
      SameUsed(g, disk, after, s, c);
    }
  }

  lemma TouchedLength(disk: Disk, after: Disk, s: set<int>)
    requires OnlyTouched(disk, after, s)
    ensures |after| == |disk|
  {
  }

  /** A data block of file i is rewritten: all maps stay. */
  lemma DataWritten(g: Super, disk: Disk, table: seq<Dinode>, files: seq<seq<int>>, owner: Owner, i: nat, k: nat,
          data: Data)
    requires Consistent(g, disk, table, files, owner) && i < |files| && k < |files[i]|
    ensures 0 <= files[i][k] < |disk| && OthersKept(disk, disk[files[i][k] := data], owner, i)
    ensures Consistent(g, disk[files[i][k] := data], table, files, owner)
  {
    FileInRange(g, disk, table, files, owner, i);
    hide Used, Maps, HasPlace;
    var b := files[i][k];
    var after := disk[b := data];
    DataPlace(owner, b, Slot(i, k), disk, data);
    OthersMap(g, disk, after, table, files, owner, i);
    BitmapKept(g, disk, after, owner, {b});
    OwnMapKept(g, disk, after, table, files, owner, i, b);
  }

  lemma DataPlace(owner: Owner, b: int, p: Place, disk: Disk, data: Data)
    requires HasPlace(owner, b, p) && 0 <= b < |disk|
    ensures OthersKept(disk, disk[b := data], owner, p.inum)
  {
  }

  lemma OwnMapKept(g: Super, disk: Disk, after: Disk, table: seq<Dinode>, files: seq<seq<int>>, owner: Owner, i: nat,
          b: int)
    requires Consistent(g, disk, table, files, owner) && i < |table|
    requires b in owner && owner[b].Slot? && OnlyTouched(disk, after, {b})
    ensures Maps(after, table[i], files[i])
  {
    hide Used, ListsWords;
    assert Maps(disk, table[i], files[i]);
    if Ind(table[i]) != 0 {
      assert HasPlace(owner, Ind(table[i]), Indirect(i));
    }
  }

  /** Writing back an inode changes no map. */
  lemma InodeWritten(g: Super, disk: Disk, after: Disk, table: seq<Dinode>, files: seq<seq<int>>, owner: Owner, ib: int)
    requires Consistent(g, disk, table, files, owner) && 0 <= ib < g.bmapstart && OnlyTouched(disk, after, {ib})
    ensures Consistent(g, after, table, files, owner)
  {
    hide Used, ListsWords;
    BitmapKept(g, disk, after, owner, {ib});
    forall j: nat | j < |table| ensures Maps(after, table[j], files[j]) {
      assert Maps(disk, table[j], files[j]);
      if Ind(table[j]) != 0 {
        assert HasPlace(owner, Ind(table[j]), Indirect(j));
      }
    }
  }

  /** The size and the other fields of an inode do not matter to its map. */
  lemma Resized(g: Super, disk: Disk, table: seq<Dinode>, files: seq<seq<int>>, owner: Owner, i: nat, d: Dinode)
    requires Consistent(g, disk, table, files, owner) && i < |table| && d.addrs == table[i].addrs
    ensures Consistent(g, disk, table[i := d], files, owner)
  {
    hide Used, ListsWords;
    var table' := table[i := d];
    assert forall j: nat :: j < |table| ==> Ind(table'[j]) == Ind(table[j]);
    forall j: nat | j < |table| ensures Maps(disk, table'[j], files[j]) {
      assert Maps(disk, table[j], files[j]);
    }
    forall b | b in owner ensures Refers(table', files, b, owner[b]) {
      assert Refers(table, files, b, owner[b]);
    }
  }
}
