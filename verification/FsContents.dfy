/** Arithmetic of offsets and blocks, and what one block's memmove does to a file's byte string. */
module FsContents {
  import opened Blocks
  import opened FsLayout
  import opened FsInvariant

  function Max(a: nat, b: nat): nat {
    if a > b then a else b
  }

  /** The entry that the next turn of the loop of writei maps, and how many there are after it. */
  lemma NextEntry(len: nat, off: nat, m: nat)
    requires off <= len && 0 < m <= BSIZE - off % BSIZE
    ensures off / BSIZE <= BlocksFor(len)
    ensures off / BSIZE < BlocksFor(len) ==> BlocksFor(Max(len, off + m)) == BlocksFor(len)
    ensures off / BSIZE == BlocksFor(len) ==>
      off == len && off % BSIZE == 0 && BlocksFor(Max(len, off + m)) == BlocksFor(len) + 1
  {
    var k, o := off / BSIZE, off % BSIZE;
    assert off == BSIZE * k + o;
    assert off + m <= BSIZE * (k + 1);
    var c := BlocksFor(len);
    assert BSIZE * c - (BSIZE - 1) <= len <= BSIZE * c;
  }

  /** The bytes off .. off + m lie in one block. */
  lemma InBlock(off: nat, m: nat, p: nat)
    requires m <= BSIZE - off % BSIZE
    ensures off <= p < off + m ==> p / BSIZE == off / BSIZE && p % BSIZE == off % BSIZE + (p - off)
    ensures p / BSIZE == off / BSIZE && off % BSIZE <= p % BSIZE < off % BSIZE + m ==> off <= p < off + m
  {
    var k, o := off / BSIZE, off % BSIZE;
    assert off == BSIZE * k + o && p == BSIZE * (p / BSIZE) + p % BSIZE;
    if off <= p < off + m {
      assert BSIZE * k <= p < BSIZE * (k + 1);
    }
  }

  lemma WithinBlocks(p: nat, size: nat)
    requires p < size
    ensures p / BSIZE < BlocksFor(size) && size <= BSIZE * BlocksFor(size)
  {
    var c := BlocksFor(size);
    assert BSIZE * c - (BSIZE - 1) <= size <= BSIZE * c;
  }

  lemma EnoughBlocks(size: nat)
    ensures size <= BSIZE * BlocksFor(size)
  {
  }

  lemma PutAt(d: Data, o: nat, bytes: seq<Byte>, q: nat)
    requires o + |bytes| <= BSIZE && q < BSIZE
    ensures Put(d, o, bytes)[q] == if o <= q < o + |bytes| then bytes[q - o] else d[q]
  {
  }

  lemma SpliceAt(s: seq<Byte>, off: nat, src: seq<Byte>, p: nat)
    requires off <= |s| && p < |Splice(s, off, src)|
    ensures Splice(s, off, src)[p] == if off <= p < off + |src| then src[p - off] else if p < |s| then s[p] else 0
  {
  }

  /** Writing in two adjacent pieces is writing once. */
  lemma SpliceTwice(s: seq<Byte>, off: nat, x: seq<Byte>, y: seq<Byte>)
    requires off <= |s|
    ensures Splice(Splice(s, off, x), off + |x|, y) == Splice(s, off, x + y)
  {
    var a, b := Splice(Splice(s, off, x), off + |x|, y), Splice(s, off, x + y);
    assert |a| == |b|;
    forall p: nat | p < |a| ensures a[p] == b[p] {
      SpliceAt(Splice(s, off, x), off + |x|, y, p);
      SpliceAt(s, off, x + y, p);
      if p < |Splice(s, off, x)| {
        SpliceAt(s, off, x, p);
      }
    }
  }

  lemma SpliceNothing(s: seq<Byte>, off: nat)
    requires off <= |s|
    ensures Splice(s, off, []) == s
  {
  }

  /** A write returns what it wrote, to a read of any range. */
  lemma ReadBack(s: seq<Byte>, off: nat, src: seq<Byte>)
    requires off <= |s|
    ensures Splice(s, off, src)[off..off + |src|] == src
    ensures Splice(s, off, src)[..off] == s[..off]
    ensures off + |src| <= |s| ==> Splice(s, off, src)[off + |src|..] == s[off + |src|..]
  {
  }

  ghost predicate Lone(blocks: seq<int>, k: nat)
    requires k < |blocks|
  {
    forall j: nat {:trigger blocks[j]} :: j < |blocks| && j != k ==> blocks[j] != blocks[k]
  }

  /** One turn of the loop of writei splices its bytes into the file. */
  lemma WroteBlock(disk: Disk, mid: Disk, blocks: seq<int>, blocks': seq<int>, len: nat, off: nat, bytes: seq<Byte>)
    requires InRange(disk, blocks) && InRange(mid, blocks')
    requires off <= len && 0 < |bytes| <= BSIZE - off % BSIZE
    requires |blocks| == BlocksFor(len) && |blocks'| == BlocksFor(Max(len, off + |bytes|)) && blocks <= blocks'
    requires forall k: nat :: k < |blocks| ==> mid[blocks[k]] == disk[blocks[k]]
    requires off / BSIZE < |blocks'| && Lone(blocks', off / BSIZE)
    ensures
      var a := blocks'[off / BSIZE];
      var after := mid[a := Put(mid[a], off % BSIZE, bytes)];
      && InRange(after, blocks') && len <= BSIZE * |blocks| && Max(len, off + |bytes|) <= BSIZE * |blocks'|
      && Contents(after, blocks', Max(len, off + |bytes|)) == Splice(Contents(disk, blocks, len), off, bytes)
  {
    hide Splice, Put, BlocksFor;
    var a := blocks'[off / BSIZE];
    var after := mid[a := Put(mid[a], off % BSIZE, bytes)];
    var len' := Max(len, off + |bytes|);
    EnoughBlocks(len);
    EnoughBlocks(len');
    var x, y := Contents(after, blocks', len'), Splice(Contents(disk, blocks, len), off, bytes);
    assert |x| == |y|;
    forall p: nat | p < len' ensures x[p] == y[p] {
      SpliceAt(Contents(disk, blocks, len), off, bytes, p);
      InBlock(off, |bytes|, p);
      PutAt(mid[a], off % BSIZE, bytes, p % BSIZE);
      WithinBlocks(p, len');
      if p < len {
        WithinBlocks(p, len);
        assert blocks'[p / BSIZE] == blocks[p / BSIZE];
      }
      if p / BSIZE != off / BSIZE {
        assert after[blocks'[p / BSIZE]] == mid[blocks'[p / BSIZE]];
      }
    }
  }

  /** One turn of the loop of readi. */
  lemma ReadBlock(disk: Disk, blocks: seq<int>, size: nat, off: nat, m: nat)
    requires InRange(disk, blocks) && |blocks| == BlocksFor(size)
    requires 0 < m <= BSIZE - off % BSIZE && off + m <= size
    ensures off / BSIZE < |blocks| && size <= BSIZE * |blocks|
    ensures disk[blocks[off / BSIZE]][off % BSIZE..off % BSIZE + m] == Contents(disk, blocks, size)[off..off + m]
  {
    hide BlocksFor;
    WithinBlocks(off, size);
    var x, y := disk[blocks[off / BSIZE]][off % BSIZE..off % BSIZE + m], Contents(disk, blocks, size)[off..off + m];
    forall q: nat | q < m ensures x[q] == y[q] {
      InBlock(off, m, off + q);
      WithinBlocks(off + q, size);
    }
  }
}
