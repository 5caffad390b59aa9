/**
 The on-disk formats of the file system (fs.h): bytes and little-endian words in blocks, dinodes, and the free
 bitmap. The disk here is the array of latest block contents that the log layer gives its clients
 (LogTheorems.ViewIsLatest).
 */
module FsLayout {
  import opened Blocks

  const NDIRECT: nat := 12
  const NINDIRECT: nat := 128               // BSIZE / sizeof(uint)
  const MAXFILE: nat := 140                 // NDIRECT + NINDIRECT
  const DINODE: nat := 64                   // sizeof(struct dinode)
  const IPB: nat := 8                       // BSIZE / sizeof(struct dinode)
  const BPB: nat := 4096                    // BSIZE * 8
  const UINT: nat := 0x1_0000_0000

  type Byte = x: int | 0 <= x < 256
  type Data = d: seq<Byte> | |d| == BSIZE witness seq(BSIZE, _ => 0)
  type Disk = seq<Data>

  function Zeros(): Data {
    seq(BSIZE, _ => 0)
  }

  /** memmove of bytes into a block buffer at offset o. */
  function Put(d: Data, o: nat, bytes: seq<Byte>): Data
    requires o + |bytes| <= BSIZE
  {
    d[..o] + bytes + d[o + |bytes|..]
  }

  // ---------------------------------------------------------------- words

  /** The four bytes of a uint, low byte first. */
  function Long(v: int): (s: seq<Byte>)
    requires 0 <= v < UINT
    ensures |s| == 4
  {
    [v % 256, v / 256 % 256, v / 65536 % 256, v / 16777216 % 256]
  }

  function LongAt(s: seq<Byte>, o: nat): int
    requires o + 4 <= |s|
  {
    var b0: int, b1: int, b2: int, b3: int := s[o], s[o + 1], s[o + 2], s[o + 3];
    b0 + 256 * b1 + 65536 * b2 + 16777216 * b3
  }

  lemma LongRoundTrip(v: int)
    requires 0 <= v < UINT
    ensures LongAt(Long(v), 0) == v
  {
    FourBytes(v);
  }

  lemma FourBytes(v: int)
    requires 0 <= v < UINT
    ensures v == v % 256 + 256 * (v / 256 % 256) + 65536 * (v / 65536 % 256) + 16777216 * (v / 16777216 % 256)
  {
    var q1 := v / 256;
    var q2 := q1 / 256;
    var q3 := q2 / 256;
    assert v / 65536 == q2 && v / 16777216 == q3;
    assert q3 < 256;
  }

  lemma LongSlice(s: seq<Byte>, t: seq<Byte>, o: nat, p: nat)
    requires o + 4 <= |s| && p + 4 <= |t| && s[o..o + 4] == t[p..p + 4]
    ensures LongAt(s, o) == LongAt(t, p)
  {
    var w := s[o..o + 4];
    assert w[0] == t[p..p + 4][0] && w[1] == t[p..p + 4][1] && w[2] == t[p..p + 4][2] && w[3] == t[p..p + 4][3];
    assert s[o] == w[0] && s[o + 1] == w[1] && s[o + 2] == w[2] && s[o + 3] == w[3];
  }

  /** The two bytes of a short, two's complement. */
  function Short(v: int): (s: seq<Byte>)
    requires -32768 <= v < 32768
    ensures |s| == 2
  {
    var u := if v < 0 then v + 65536 else v;
    [u % 256, u / 256]
  }

  function ShortAt(s: seq<Byte>, o: nat): int
    requires o + 2 <= |s|
  {
    var b0: int, b1: int := s[o], s[o + 1];
    var u := b0 + 256 * b1;
    if u >= 32768 then u - 65536 else u
  }

  /** Word j of a block read as an array of uint. */
  function Word(d: Data, j: nat): int
    requires j < NINDIRECT
  {
    LongAt(d, 4 * j)
  }

  function PutWord(d: Data, j: nat, v: int): Data
    requires j < NINDIRECT && 0 <= v < UINT
  {
    Put(d, 4 * j, Long(v))
  }

  /** Storing a word changes that word and no other. */
  lemma PutWordWords(d: Data, j: nat, v: int, k: nat)
    requires j < NINDIRECT && k < NINDIRECT && 0 <= v < UINT
    ensures Word(PutWord(d, j, v), k) == if k == j then v else Word(d, k)
  {
    hide Long;
    var e := PutWord(d, j, v);
    if k == j {
      assert forall t :: 0 <= t < 4 ==> e[4 * j + t] == Long(v)[t];
      LongRoundTrip(v);
    } else {
      assert e[4 * k..4 * k + 4] == d[4 * k..4 * k + 4];
      LongSlice(e, d, 4 * k, 4 * k);
    }
  }

  // ---------------------------------------------------------------- dinodes

  datatype Dinode = Dinode(kind: int, major: int, minor: int, nlink: int, size: int, addrs: seq<int>) {
    ghost predicate Valid() {
      && -32768 <= kind < 32768 && -32768 <= major < 32768
      && -32768 <= minor < 32768 && -32768 <= nlink < 32768
      && 0 <= size < UINT
      && |addrs| == NDIRECT + 1
      && forall k :: 0 <= k <= NDIRECT ==> 0 <= addrs[k] < UINT
    }
  }

  function Longs(s: seq<int>): (r: seq<Byte>)
    requires forall k :: 0 <= k < |s| ==> 0 <= s[k] < UINT
    ensures |r| == 4 * |s|
  {
    if s == [] then [] else Long(s[0]) + Longs(s[1..])
  }

  lemma {:induction false} LongsAt(s: seq<int>, k: nat)
    requires k < |s| && forall j :: 0 <= j < |s| ==> 0 <= s[j] < UINT
    ensures LongAt(Longs(s), 4 * k) == s[k]
  {
    hide Long;
    var r := Longs(s);
    if k == 0 {
      assert forall t :: 0 <= t < 4 ==> r[t] == Long(s[0])[t];
      LongRoundTrip(s[0]);
    } else {
      LongsAt(s[1..], k - 1);
      var q := Longs(s[1..]);
      assert r[4 * k..4 * k + 4] == q[4 * (k - 1)..4 * (k - 1) + 4];
      LongSlice(r, q, 4 * k, 4 * (k - 1));
    }
  }

  function EncodeInode(d: Dinode): (s: seq<Byte>)
    requires d.Valid()
    ensures |s| == DINODE
  {
    Short(d.kind) + Short(d.major) + Short(d.minor) + Short(d.nlink) + Long(d.size) + Longs(d.addrs)
  }

  function DecodeInode(s: seq<Byte>): Dinode
    requires |s| == DINODE
  {
    Dinode(ShortAt(s, 0), ShortAt(s, 2), ShortAt(s, 4), ShortAt(s, 6), LongAt(s, 8),
           seq(NDIRECT + 1, k requires 0 <= k <= NDIRECT => LongAt(s, 12 + 4 * k)))
  }

  /** A dinode is read back as it was written. */
  lemma InodeRoundTrip(d: Dinode)
    requires d.Valid()
    ensures DecodeInode(EncodeInode(d)) == d
  {
    hide Longs, Short, Long;
    var s := EncodeInode(d);
    assert s[8] == Long(d.size)[0] && s[9] == Long(d.size)[1] && s[10] == Long(d.size)[2] && s[11] == Long(d.size)[3];
    LongRoundTrip(d.size);
    assert ShortAt(s, 0) == d.kind && ShortAt(s, 2) == d.major && ShortAt(s, 4) == d.minor
      && ShortAt(s, 6) == d.nlink by {
      assert s[0..2] == Short(d.kind) && s[2..4] == Short(d.major) && s[4..6] == Short(d.minor)
        && s[6..8] == Short(d.nlink);
      ShortRoundTrip(s, 0, d.kind);
      ShortRoundTrip(s, 2, d.major);
      ShortRoundTrip(s, 4, d.minor);
      ShortRoundTrip(s, 6, d.nlink);
    }
    forall k | 0 <= k <= NDIRECT ensures LongAt(s, 12 + 4 * k) == d.addrs[k] {
      LongsAt(d.addrs, k);
      var r := Longs(d.addrs);
      assert s[12 + 4 * k..12 + 4 * k + 4] == r[4 * k..4 * k + 4];
      LongSlice(s, r, 12 + 4 * k, 4 * k);
    }
    assert DecodeInode(s).addrs == d.addrs;
  }

  lemma ShortRoundTrip(s: seq<Byte>, o: nat, v: int)
    requires o + 2 <= |s| && -32768 <= v < 32768 && s[o..o + 2] == Short(v)
    ensures ShortAt(s, o) == v
  {
    assert s[o] == s[o..o + 2][0] && s[o + 1] == s[o..o + 2][1];
  }

  /** The dinode in place t of an inode block. */
  function InodeIn(d: Data, t: nat): Dinode
    requires t < IPB
  {
    DecodeInode(d[DINODE * t..DINODE * t + DINODE])
  }

  function PutInode(d: Data, t: nat, e: Dinode): Data
    requires t < IPB && e.Valid()
  {
    Put(d, DINODE * t, EncodeInode(e))
  }

  /** Storing a dinode changes that dinode and no other of its block. */
  lemma PutInodeInodes(d: Data, t: nat, e: Dinode, u: nat)
    requires t < IPB && u < IPB && e.Valid()
    ensures InodeIn(PutInode(d, t, e), u) == if u == t then e else InodeIn(d, u)
  {
    hide EncodeInode, DecodeInode;
    var p := PutInode(d, t, e);
    if u == t {
      assert p[DINODE * t..DINODE * t + DINODE] == EncodeInode(e);
      InodeRoundTrip(e);
    } else {
      assert p[DINODE * u..DINODE * u + DINODE] == d[DINODE * u..DINODE * u + DINODE];
    }
  }

  /** An unsigned number of these bytes, low byte first. */
  function Little(s: seq<Byte>): nat {
    if s == [] then 0 else s[0] + 256 * Little(s[1..])
  }

  function TwosComplement(u: nat): int {
    if u >= 32768 then u - 65536 else u
  }

  lemma LittleTwo(s: seq<Byte>, o: nat)
    requires o + 2 <= |s|
    ensures ShortAt(s, o) == TwosComplement(Little(s[o..o + 2]))
  {
    var t := s[o..o + 2];
    assert t[1..][0] == t[1] && t[1..][1..] == [];
    assert Little(t[1..]) == t[1];
  }

  lemma LittleFour(s: seq<Byte>, o: nat)
    requires o + 4 <= |s|
    ensures LongAt(s, o) == Little(s[o..o + 4])
  {
    var t := s[o..o + 4];
    var t1, t2, t3 := t[1..], t[2..], t[3..];
    assert t1[1..] == t2 && t2[1..] == t3 && t3[1..] == [];
    assert t1[0] == t[1] && t2[0] == t[2] && t3[0] == t[3];
    assert Little(t3) == t[3] && Little(t2) == t[2] + 256 * Little(t3) && Little(t1) == t[1] + 256 * Little(t2);
  }

  /** Where the fields of a dinode lie in its 64 bytes, for whoever else writes or reads the image. */
  lemma InodeFields(d: Data, t: nat)
    requires t < IPB
    ensures
      var o, e := DINODE * t, InodeIn(d, t);
      && e.kind == TwosComplement(Little(d[o..o + 2])) && e.major == TwosComplement(Little(d[o + 2..o + 4]))
      && e.minor == TwosComplement(Little(d[o + 4..o + 6])) && e.nlink == TwosComplement(Little(d[o + 6..o + 8]))
      && e.size == Little(d[o + 8..o + 12])
      && |e.addrs| == NDIRECT + 1
      && forall k :: 0 <= k <= NDIRECT ==> e.addrs[k] == Little(d[o + 12 + 4 * k..o + 16 + 4 * k])
  {
    hide Little, ShortAt, LongAt;
    var o, s := DINODE * t, d[DINODE * t..DINODE * t + DINODE];
    LittleTwo(s, 0);
    LittleTwo(s, 2);
    LittleTwo(s, 4);
    LittleTwo(s, 6);
    LittleFour(s, 8);
    Within(d, o, o + DINODE, 0, 2);
    Within(d, o, o + DINODE, 2, 4);
    Within(d, o, o + DINODE, 4, 6);
    Within(d, o, o + DINODE, 6, 8);
    Within(d, o, o + DINODE, 8, 12);
    forall k | 0 <= k <= NDIRECT ensures LongAt(s, 12 + 4 * k) == Little(d[o + 12 + 4 * k..o + 16 + 4 * k]) {
      LittleFour(s, 12 + 4 * k);
      Within(d, o, o + DINODE, 12 + 4 * k, 12 + 4 * k + 4);
    }
  }

  lemma Within(d: seq<Byte>, o: nat, e: nat, a: nat, b: nat)
    requires a <= b && o + b <= e <= |d|
    ensures d[o..e][a..b] == d[o + a..o + b]
  {
    var r, t := d[o..e][a..b], d[o + a..o + b];
    assert |r| == |t| && forall i :: 0 <= i < |r| ==> r[i] == t[i];
  }

  // ---------------------------------------------------------------- bits

  /** (x >> k) & 1 */
  predicate BitOf(x: nat, k: nat) {
    if k == 0 then x % 2 == 1 else BitOf(x / 2, k - 1)
  }

  /** x | (1 << k) */
  function OrBit(x: nat, k: nat): nat {
    if k == 0 then x / 2 * 2 + 1 else OrBit(x / 2, k - 1) * 2 + x % 2
  }

  /** x & ~(1 << k) */
  function ClearBit(x: nat, k: nat): nat {
    if k == 0 then x / 2 * 2 else ClearBit(x / 2, k - 1) * 2 + x % 2
  }

  lemma {:induction false} OrBitBits(x: nat, k: nat, j: nat)
    ensures BitOf(OrBit(x, k), j) <==> j == k || BitOf(x, j)
  {
    if k != 0 && j != 0 {
      OrBitBits(x / 2, k - 1, j - 1);
    }
  }

  lemma {:induction false} ClearBitBits(x: nat, k: nat, j: nat)
    ensures BitOf(ClearBit(x, k), j) <==> j != k && BitOf(x, j)
  {
    if k != 0 && j != 0 {
      ClearBitBits(x / 2, k - 1, j - 1);
    }
  }

  function Power(k: nat): (p: nat)
    ensures p > 0
  {
    if k == 0 then 1 else 2 * Power(k - 1)
  }

  /** Both stay within the bits that x and bit k need. */
  lemma {:induction false} BitRange(x: nat, k: nat, w: nat)
    requires k < w && x < Power(w)
    ensures OrBit(x, k) < Power(w) && ClearBit(x, k) < Power(w)
  {
    if k != 0 {
      BitRange(x / 2, k - 1, w - 1);
    }
  }

  lemma ByteRange(x: Byte, k: nat)
    requires k < 8
    ensures OrBit(x, k) < 256 && ClearBit(x, k) < 256
  {
    Powers();
    BitRange(x, k, 8);
  }

  // ---------------------------------------------------------------- the superblock and the free bitmap

  /** The superblock fields used here; datastart is the nmeta of mkfs. */
  datatype Super = Super(size: nat, ninodes: nat, inodestart: nat, bmapstart: nat, datastart: nat) {
    predicate Valid() {
      && 2 <= inodestart
      && bmapstart == inodestart + ninodes / IPB + 1
      && datastart == bmapstart + size / BPB + 1
      && datastart <= size < UINT
    }

    /** IBLOCK */
    function IBlock(i: nat): nat {
      i / IPB + inodestart
    }

    /** BBLOCK */
    function BBlock(b: nat): nat {
      b / BPB + bmapstart
    }
  }

  lemma BlockRanges(g: Super, i: nat, b: nat)
    requires g.Valid()
    ensures i < g.ninodes ==> g.inodestart <= g.IBlock(i) < g.bmapstart
    ensures b < g.size ==> g.bmapstart <= g.BBlock(b) < g.datastart
  {
  }

  /** Bit b of the free map. */
  predicate Used(g: Super, disk: Disk, b: nat)
    requires g.Valid() && |disk| == g.size && b < g.size
  {
    BlockRanges(g, 0, b);
    BitOf(disk[g.BBlock(b)][b % BPB / 8], b % 8)
  }

  /** A bitmap block with the bit for its bi-th block set. */
  function Marked(d: Data, bi: nat): Data
    requires bi < BPB
  {
    ByteRange(d[bi / 8], bi % 8);
    d[bi / 8 := OrBit(d[bi / 8], bi % 8)]
  }

  function Unmarked(d: Data, bi: nat): Data
    requires bi < BPB
  {
    ByteRange(d[bi / 8], bi % 8);
    d[bi / 8 := ClearBit(d[bi / 8], bi % 8)]
  }

  /** Marking a block in the map changes its bit alone. */
  lemma MarkedBits(g: Super, disk: Disk, b: nat, c: nat)
    requires g.Valid() && |disk| == g.size && b < g.size && c < g.size
    ensures g.BBlock(b) < g.size
    ensures
      var bb := g.BBlock(b);
      && (Used(g, disk[bb := Marked(disk[bb], b % BPB)], c) <==> c == b || Used(g, disk, c))
      && (Used(g, disk[bb := Unmarked(disk[bb], b % BPB)], c) <==> c != b && Used(g, disk, c))
  {
    BlockRanges(g, 0, b);
    BlockRanges(g, 0, c);
    hide BitOf, OrBit, ClearBit;
    var x := disk[g.BBlock(b)][b % BPB / 8];
    OrBitBits(x, b % 8, c % 8);
    ClearBitBits(x, b % 8, c % 8);
    SameBit(b, c);
  }

  lemma Bits(b: nat)
    ensures b % BPB % 8 == b % 8
    ensures b == BPB * (b / BPB) + 8 * (b % BPB / 8) + b % 8
  {
    var q, p := b / BPB, b % BPB;
    assert b == 8 * (512 * q) + p;
    assert p == 8 * (p / 8) + p % 8;
    Eighth(512 * q, p);
  }

  lemma Eighth(k: nat, x: nat)
    ensures (8 * k + x) % 8 == x % 8
  {
  }

  /** A block's bit is found by its block of the map, the byte and the place in the byte. */
  lemma SameBit(b: nat, c: nat)
    ensures b % BPB % 8 == b % 8
    ensures b == c <==> b / BPB == c / BPB && b % BPB / 8 == c % BPB / 8 && b % 8 == c % 8
  {
    Bits(b);
    Bits(c);
  }

  /** disk and after differ at most in the blocks of s. */
  ghost predicate OnlyTouched(disk: Disk, after: Disk, s: set<int>) {
    && |after| == |disk|
    && forall b :: 0 <= b < |disk| && b !in s ==> after[b] == disk[b]
  }

  /** Block b of the map is the same on both disks. */
  lemma SameUsed(g: Super, disk: Disk, after: Disk, s: set<int>, c: nat)
    requires g.Valid() && |disk| == g.size && OnlyTouched(disk, after, s) && c < g.size
    requires g.BBlock(c) !in s
    ensures Used(g, after, c) <==> Used(g, disk, c)
  {
    BlockRanges(g, 0, c);
  }

  /** Inode i is the i-th of the array of dinodes that begins with block inodestart. */
  lemma InodePlace(g: Super, i: nat)
    requires g.Valid() && i < g.ninodes
    ensures BSIZE * g.IBlock(i) + DINODE * (i % IPB) == BSIZE * g.inodestart + DINODE * i
    ensures DINODE * (i % IPB) + DINODE <= BSIZE
  {
  }

  /** Block b's bit is bit b of the array of bits that begins with block bmapstart, low bit first. */
  lemma MapPlace(g: Super, disk: Disk, b: nat)
    requires g.Valid() && |disk| == g.size && b < g.size
    ensures g.BBlock(b) < g.size
    ensures BSIZE * g.BBlock(b) + b % BPB / 8 == BSIZE * g.bmapstart + b / 8
    ensures Used(g, disk, b) <==> disk[g.BBlock(b)][b % BPB / 8] / Power(b % 8) % 2 == 1
  {
    BlockRanges(g, 0, b);
    BitValue(disk[g.BBlock(b)][b % BPB / 8], b % 8);
    Bits(b);
  }

  lemma BitValue(x: nat, k: nat)
    requires k < 8
    ensures BitOf(x, k) <==> x / Power(k) % 2 == 1
  {
    hide BitOf, Shifted, Power;
    BitShifted(x, k);
    Shifts(x);
    Powers();
    assert x / Power(k) == Shifted(x, k);
  }

  /** x >> k */
  function Shifted(x: nat, k: nat): nat {
    if k == 0 then x else Shifted(x / 2, k - 1)
  }

  lemma {:induction false} BitShifted(x: nat, k: nat)
    ensures BitOf(x, k) <==> Shifted(x, k) % 2 == 1
  {
    if k != 0 {
      BitShifted(x / 2, k - 1);
    }
  }

  lemma Shifts(x: nat)
    ensures Shifted(x, 0) == x && Shifted(x, 1) == x / 2 && Shifted(x, 2) == x / 4 && Shifted(x, 3) == x / 8
    ensures Shifted(x, 4) == x / 16 && Shifted(x, 5) == x / 32 && Shifted(x, 6) == x / 64 && Shifted(x, 7) == x / 128
  {
    var x1 := x / 2;
    var x2 := x1 / 2;
    var x3 := x2 / 2;
    var x4 := x3 / 2;
    var x5 := x4 / 2;
    var x6 := x5 / 2;
    var x7 := x6 / 2;
    assert x2 == x / 4 && x3 == x / 8 && x4 == x / 16 && x5 == x / 32 && x6 == x / 64 && x7 == x / 128;
    assert Shifted(x7, 0) == x7 && Shifted(x6, 1) == x7 && Shifted(x5, 2) == x7 && Shifted(x4, 3) == x7;
    assert Shifted(x6, 0) == x6 && Shifted(x5, 1) == x6 && Shifted(x4, 2) == x6 && Shifted(x3, 3) == x6;
    assert Shifted(x5, 0) == x5 && Shifted(x4, 1) == x5 && Shifted(x3, 2) == x5 && Shifted(x2, 3) == x5;
    assert Shifted(x4, 0) == x4 && Shifted(x3, 1) == x4 && Shifted(x2, 2) == x4 && Shifted(x1, 3) == x4;
  }

  lemma Powers()
    ensures Power(0) == 1 && Power(1) == 2 && Power(2) == 4 && Power(3) == 8
    ensures Power(4) == 16 && Power(5) == 32 && Power(6) == 64 && Power(7) == 128 && Power(8) == 256
  {
    assert Power(3) == 8 && Power(5) == 32;
  }
}
