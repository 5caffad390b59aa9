/** How many blocks are free in the map, and how many of them a file takes as it grows. */
module FsFree {
  import opened Blocks
  import opened FsLayout
  import opened FsInvariant
  import opened SetSizes

  ghost predicate IsFree(g: Super, disk: Disk, b: int) {
    g.Valid() && |disk| == g.size && 0 <= b < g.size && !Used(g, disk, b)
  }

  ghost function FreeSet(g: Super, disk: Disk): set<int> {
    set b: int | 0 <= b < g.size && IsFree(g, disk, b)
  }

  /** The number of blocks that the map has not marked. */
  ghost function FreeBlocks(g: Super, disk: Disk): nat {
    |FreeSet(g, disk)|
  }

  /** The blocks that a file of this size holds, its indirect block included. */
  function BlocksWith(size: nat): nat {
    BlocksFor(size) + if BlocksFor(size) > NDIRECT then 1 else 0
  }

  /** What a file with these many blocks and this indirect address lacks of having upto blocks. */
  function Lacks(has: nat, ind: int, upto: nat): nat {
    if upto <= has then 0 else upto - has + if ind == 0 && upto > NDIRECT then 1 else 0
  }

  lemma FreeIsUnowned(g: Super, disk: Disk, owner: Owner)
    requires BitmapAgrees(g, disk, owner)
    ensures forall b: int :: b in FreeSet(g, disk) <==> g.datastart <= b < g.size && b !in owner
  {
    hide Used;
    forall b: int ensures b in FreeSet(g, disk) <==> g.datastart <= b < g.size && b !in owner {
      if 0 <= b < g.size {
        assert Used(g, disk, b) <==> b < g.datastart || b in owner;
      }
      assert g.datastart >= 0;
    }
  }

  lemma NoneFree(g: Super, disk: Disk)
    requires g.Valid() && |disk| == g.size && forall c: nat :: c < g.size ==> Used(g, disk, c)
    ensures FreeBlocks(g, disk) == 0
  {
    hide Used;
    assert FreeSet(g, disk) == {} by {
      forall b: int | 0 <= b < g.size ensures !IsFree(g, disk, b) {
      }
    }
  }

  lemma SomeFree(g: Super, disk: Disk, b: nat)
    requires IsFree(g, disk, b)
    ensures FreeBlocks(g, disk) >= 1
  {
    hide IsFree;
    assert 0 <= b < g.size by { FreeRange(g, disk, b); }
    assert b in FreeSet(g, disk);
    SizeOfPart({b as int}, FreeSet(g, disk));
  }

  lemma FreeRange(g: Super, disk: Disk, b: int)
    requires IsFree(g, disk, b)
    ensures 0 <= b < g.size
  {
  }

  /** The blocks from number a on. */
  ghost function From(blocks: seq<int>, a: nat): set<int> {
    set k | a <= k < |blocks| :: blocks[k]
  }

  lemma {:induction false} FromSize(blocks: seq<int>, a: nat)
    requires a <= |blocks| && forall j, k :: a <= j < k < |blocks| ==> blocks[j] != blocks[k]
    ensures |From(blocks, a)| == |blocks| - a
    decreases |blocks| - a
  {
    if a < |blocks| {
      FromSize(blocks, a + 1);
      assert From(blocks, a) == From(blocks, a + 1) + {blocks[a]};
      assert blocks[a] !in From(blocks, a + 1);
    } else {
      assert From(blocks, a) == {};
    }
  }

  /** The indirect block that file i has got. */
  function Got(ind: int, ind': int): set<int> {
    if ind == 0 && ind' != 0 then {ind'} else {}
  }

  /** A block that only the later owners have is one that file i has got since. */
  lemma NewlyOwned(g: Super, table: seq<Dinode>, files: seq<seq<int>>, owner: Owner,
                   table': seq<Dinode>, files': seq<seq<int>>, owner': Owner, i: nat, b: int)
    requires Owned(table, files, owner) && Real(g, table, files, owner)
    requires Owned(table', files', owner') && Real(g, table', files', owner')
    requires i < |files| && i < |files'| && i < |table| && i < |table'| && files[i] <= files'[i]
    requires Ind(table[i]) != 0 ==> Ind(table'[i]) == Ind(table[i])
    requires forall c :: c in owner ==> c in owner' && owner'[c] == owner[c]
    requires forall c :: c in owner' && c !in owner ==> owner'[c].inum == i
    requires g.datastart > 0
    ensures b in owner' && b !in owner <==> b in From(files'[i], |files[i]|) || b in Got(Ind(table[i]), Ind(table'[i]))
  {
    PlacesOwned(table, files, owner, i);
    PlacesOwned(table', files', owner', i);
    OwnedPlaces(g, table, files, owner, b);
    OwnedPlaces(g, table', files', owner', b);
    hide Owned, Real;
  }

  lemma PlacesOwned(table: seq<Dinode>, files: seq<seq<int>>, owner: Owner, i: nat)
    requires Owned(table, files, owner) && i < |files|
    ensures forall k: nat :: k < |files[i]| ==> files[i][k] in owner && owner[files[i][k]] == Slot(i, k)
    ensures i < |table| && (Ind(table[i]) != 0 ==> Ind(table[i]) in owner && owner[Ind(table[i])] == Indirect(i))
  {
    assert forall k: nat :: k < |files[i]| ==> HasPlace(owner, files[i][k], Slot(i, k));
    assert Ind(table[i]) != 0 ==> HasPlace(owner, Ind(table[i]), Indirect(i));
  }

  lemma OwnedPlaces(g: Super, table: seq<Dinode>, files: seq<seq<int>>, owner: Owner, b: int)
    requires Real(g, table, files, owner)
    ensures b in owner ==> g.datastart <= b
    ensures b in owner && owner[b].Slot? ==>
      owner[b].inum < |files| && owner[b].k < |files[owner[b].inum]| && files[owner[b].inum][owner[b].k] == b
    ensures b in owner && owner[b].Indirect? ==> owner[b].inum < |table| && Ind(table[owner[b].inum]) == b
  {
    if b in owner {
      assert Refers(table, files, b, owner[b]);
    }
  }

  lemma DistinctBlocks(table: seq<Dinode>, files: seq<seq<int>>, owner: Owner, i: nat)
    requires Owned(table, files, owner) && i < |files|
    ensures forall j, k :: 0 <= j < k < |files[i]| ==> files[i][j] != files[i][k]
    ensures forall k :: 0 <= k < |files[i]| && Ind(table[i]) != 0 ==> files[i][k] != Ind(table[i])
  {
    forall j: nat, k: nat | j < k < |files[i]| ensures files[i][j] != files[i][k] {
      assert HasPlace(owner, files[i][j], Slot(i, j)) && HasPlace(owner, files[i][k], Slot(i, k));
    }
    forall k: nat | k < |files[i]| && Ind(table[i]) != 0 ensures files[i][k] != Ind(table[i]) {
      assert HasPlace(owner, files[i][k], Slot(i, k)) && HasPlace(owner, Ind(table[i]), Indirect(i));
    }
  }

  /** What file i has gained is what the map has lost. */
  lemma FreeGone(g: Super, disk: Disk, table: seq<Dinode>, files: seq<seq<int>>, owner: Owner,
                 disk': Disk, table': seq<Dinode>, files': seq<seq<int>>, owner': Owner, i: nat)
    requires Consistent(g, disk, table, files, owner) && Consistent(g, disk', table', files', owner')
    requires i < |files| && i < |files'| && files[i] <= files'[i]
    requires |table| == |files| && |table'| == |files'|
    requires Ind(table[i]) != 0 ==> Ind(table'[i]) == Ind(table[i])
    requires forall c :: c in owner ==> c in owner' && owner'[c] == owner[c]
    requires forall c :: c in owner' && c !in owner ==> owner'[c].inum == i
    ensures FreeBlocks(g, disk) == FreeBlocks(g, disk') + (|files'[i]| - |files[i]|)
              + if Ind(table[i]) == 0 && Ind(table'[i]) != 0 then 1 else 0
  {
    hide Used, AllMap, Refers, HasPlace;
    FreeIsUnowned(g, disk, owner);
    FreeIsUnowned(g, disk', owner');
    RealRanges(g, table', files', owner');
    DistinctBlocks(table', files', owner', i);
    assert g.datastart > 0;
    var more, got := From(files'[i], |files[i]|), Got(Ind(table[i]), Ind(table'[i]));
    forall b: int ensures b in owner' && b !in owner <==> b in more || b in got {
      NewlyOwned(g, table, files, owner, table', files', owner', i, b);
    }
    hide Owned, Real, BitmapAgrees, FreeSet, From;
    FromSize(files'[i], |files[i]|);
    assert FreeSet(g, disk) == FreeSet(g, disk') + (more + got);
    DisjointSize(FreeSet(g, disk'), more + got);
    assert forall x: int :: x in more ==> x !in got by { FromNot(files'[i], |files[i]|, Ind(table'[i])); }
    DisjointSize(more, got);
  }

  lemma FromNot(blocks: seq<int>, a: nat, x: int)
    requires forall k :: 0 <= k < |blocks| && x != 0 ==> blocks[k] != x
    ensures x != 0 ==> x !in From(blocks, a)
  {
  }

  lemma RealRanges(g: Super, table: seq<Dinode>, files: seq<seq<int>>, owner: Owner)
    requires Real(g, table, files, owner)
    ensures forall c :: c in owner ==> g.datastart <= c < g.size
  {
  }
}
