/** Bytes, bits and 32-bit little-endian words inside a disk block. */
module BlockBytes {

  const BSIZE: nat := 1024
  const NINDIRECT: nat := 256

  type Byte = x: int | 0 <= x < 256
  type Block = b: seq<Byte> | |b| == BSIZE witness seq(BSIZE, _ => 0)
  type Word = x: int | 0 <= x < 0x1_0000_0000

  function ZeroBlock(): (r: Block)
    ensures forall k :: 0 <= k < BSIZE ==> r[k] == 0
  {
    seq(BSIZE, _ => 0)
  }

  // ----- bits of a byte -----

  /** (x & (1 << k)) != 0 */
  predicate BitOf(x: nat, k: nat) {
    if k == 0 then x % 2 == 1 else BitOf(x / 2, k - 1)
  }

  /** x | (1 << k) */
  function OrBit(x: nat, k: nat): nat {
    if k == 0 then x - x % 2 + 1 else 2 * OrBit(x / 2, k - 1) + x % 2
  }

  /** x & ~(1 << k) */
  function AndNotBit(x: nat, k: nat): nat {
    if k == 0 then x - x % 2 else 2 * AndNotBit(x / 2, k - 1) + x % 2
  }

  function Pow2(n: nat): nat { if n == 0 then 1 else 2 * Pow2(n - 1) }

  lemma {:induction false} OrBitFits(x: nat, k: nat, n: nat)
    requires k < n && x < Pow2(n)
    ensures OrBit(x, k) < Pow2(n)
    decreases n
  {
    var half := Pow2(n - 1);
    assert Pow2(n) == 2 * half;
    if k > 0 {
      OrBitFits(x / 2, k - 1, n - 1);
    }
  }

  lemma {:induction false} OrBitSpec(x: nat, k: nat, j: nat)
    ensures BitOf(OrBit(x, k), j) <==> j == k || BitOf(x, j)
    decreases k
  {
    var r := OrBit(x, k);
    assert k > 0 ==> r / 2 == OrBit(x / 2, k - 1) && r % 2 == x % 2;
    assert k == 0 ==> r / 2 == x / 2 && r % 2 == 1;
    if k > 0 {
      OrBitSpec(x / 2, k - 1, if j > 0 then j - 1 else 0);
    }
  }

  lemma {:induction false} AndNotBitSpec(x: nat, k: nat, j: nat)
    ensures AndNotBit(x, k) <= x
    ensures BitOf(AndNotBit(x, k), j) <==> j != k && BitOf(x, j)
    decreases k
  {
    var r := AndNotBit(x, k);
    assert k > 0 ==> r / 2 == AndNotBit(x / 2, k - 1) && r % 2 == x % 2;
    assert k == 0 ==> r / 2 == x / 2 && r % 2 == 0;
    if k > 0 {
      AndNotBitSpec(x / 2, k - 1, if j > 0 then j - 1 else 0);
    }
  }

  /** Bit number `bi` of a bitmap block. */
  predicate BitAt(b: Block, bi: nat)
    requires bi < 8 * BSIZE
  {
    BitOf(b[bi / 8], bi % 8)
  }

  function SetBitAt(b: Block, bi: nat): Block
    requires bi < 8 * BSIZE
  {
    assert Pow2(8) == 256;
    OrBitFits(b[bi / 8], bi % 8, 8);
    b[bi / 8 := OrBit(b[bi / 8], bi % 8)]
  }

  function ClearBitAt(b: Block, bi: nat): Block
    requires bi < 8 * BSIZE
  {
    AndNotBitSpec(b[bi / 8], bi % 8, 0);
    b[bi / 8 := AndNotBit(b[bi / 8], bi % 8)]
  }

  lemma SetBitAtSpec(b: Block, bi: nat, bj: nat)
    requires bi < 8 * BSIZE && bj < 8 * BSIZE
    ensures BitAt(SetBitAt(b, bi), bj) <==> bj == bi || BitAt(b, bj)
  {
    OrBitSpec(b[bi / 8], bi % 8, bj % 8);
  }

  lemma ClearBitAtSpec(b: Block, bi: nat, bj: nat)
    requires bi < 8 * BSIZE && bj < 8 * BSIZE
    ensures BitAt(ClearBitAt(b, bi), bj) <==> bj != bi && BitAt(b, bj)
  {
    AndNotBitSpec(b[bi / 8], bi % 8, bj % 8);
  }

  // ----- words of an indirect block -----

  function Word4(b0: int, b1: int, b2: int, b3: int): int {
    b0 + 0x100 * (b1 + 0x100 * (b2 + 0x100 * b3))
  }

  /** ((uint*)data)[j] */
  function WordAt(b: Block, j: nat): (r: Word)
    requires j < NINDIRECT
  {
    Word4(b[4 * j], b[4 * j + 1], b[4 * j + 2], b[4 * j + 3])
  }

  function SetWordAt(b: Block, j: nat, v: Word): Block
    requires j < NINDIRECT
  {
    var v1 := v / 0x100;
    var v2 := v1 / 0x100;
    var v3 := v2 / 0x100;
    b[4 * j := v % 0x100][4 * j + 1 := v1 % 0x100][4 * j + 2 := v2 % 0x100][4 * j + 3 := v3]
  }

  lemma SetWordAtSpec(b: Block, j: nat, v: Word, k: nat)
    requires j < NINDIRECT && k < NINDIRECT
    ensures WordAt(SetWordAt(b, j, v), k) == if k == j then v else WordAt(b, k)
  {
    var r := SetWordAt(b, j, v);
    if k == j {
      var v1 := v / 0x100;
      var v2 := v1 / 0x100;
      assert r[4 * j] == v % 0x100 && r[4 * j + 1] == v1 % 0x100;
      assert r[4 * j + 2] == v2 % 0x100 && r[4 * j + 3] == v2 / 0x100;
    } else {
      assert 4 * k + 3 < 4 * j || 4 * j + 3 < 4 * k;
    }
  }

  lemma ZeroWords(j: nat)
    requires j < NINDIRECT
    ensures WordAt(ZeroBlock(), j) == 0
  {
  }

  // ----- inodes in a block -----

  type Short = x: int | 0 <= x < 0x1_0000

  const NDIRECT: nat := 12
  const IPB: nat := 16             // inodes per block, 64 bytes each

  /** struct inode's copy of struct dinode; the shorts as their bit patterns. */
  datatype Inode = Inode(kind: Short, major: Short, minor: Short, nlink: Short, size: nat, addrs: seq<nat>)

  function Half2(b0: int, b1: int): int { b0 + 0x100 * b1 }

  /** ((ushort*)data)[h] */
  function HalfAt(b: Block, h: nat): Short
    requires h < 2 * NINDIRECT
  {
    Half2(b[2 * h], b[2 * h + 1])
  }

  function SetHalfAt(b: Block, h: nat, v: Short): Block
    requires h < 2 * NINDIRECT
  {
    b[2 * h := v % 0x100][2 * h + 1 := v / 0x100]
  }

  /** addrs[s] of inode k. */
  function AddrOf(b: Block, k: nat, s: nat): nat
    requires k < IPB && s <= NDIRECT
  {
    WordAt(b, 16 * k + 3 + s)
  }

  /** Inode number k of the block, as ilock copies it out. */
  function LoadInode(b: Block, k: nat): (r: Inode)
    requires k < IPB
    ensures |r.addrs| == NDIRECT + 1
  {
    Inode(HalfAt(b, 32 * k), HalfAt(b, 32 * k + 1), HalfAt(b, 32 * k + 2), HalfAt(b, 32 * k + 3),
          WordAt(b, 16 * k + 2),
          seq(NDIRECT + 1, s requires 0 <= s <= NDIRECT => AddrOf(b, k, s)))
  }

  /** Where the fields of struct dinode lie, in bytes, low byte first. */
  lemma DinodeLayout(b: Block, k: nat, s: nat)
    requires k < IPB && s <= NDIRECT
    ensures var ip, o := LoadInode(b, k), 64 * k;
            && ip.kind == Half2(b[o], b[o + 1]) && ip.major == Half2(b[o + 2], b[o + 3])
            && ip.minor == Half2(b[o + 4], b[o + 5]) && ip.nlink == Half2(b[o + 6], b[o + 7])
            && ip.size == Word4(b[o + 8], b[o + 9], b[o + 10], b[o + 11])
            && ip.addrs[s] == Word4(b[o + 12 + 4 * s], b[o + 13 + 4 * s], b[o + 14 + 4 * s], b[o + 15 + 4 * s])
  {
  }

  /** The two blocks agree outside the 64 bytes of inode k. */
  ghost predicate SameOutside(b: Block, r: Block, k: nat) {
    forall o :: 0 <= o < BSIZE && !(64 * k <= o < 64 * k + 64) ==> r[o] == b[o]
  }

  lemma OtherInodes(b: Block, r: Block, k: nat, j: nat)
    requires k < IPB && j < IPB && j != k && SameOutside(b, r, k)
    ensures LoadInode(r, j) == LoadInode(b, j)
  {
    assert 64 * j + 64 <= 64 * k || 64 * k + 64 <= 64 * j;
    assert forall o :: 64 * j <= o < 64 * j + 64 ==> r[o] == b[o];
    assert LoadInode(r, j).addrs == LoadInode(b, j).addrs;
  }

  /** The inode fits its fields on disk. */
  ghost predicate Storable(ip: Inode) {
    && |ip.addrs| == NDIRECT + 1 && ip.size < 0x1_0000_0000
    && forall s :: 0 <= s <= NDIRECT ==> ip.addrs[s] < 0x1_0000_0000
  }

  /** The four shorts and the size of inode k are stored. */
  ghost predicate HeadStored(b: Block, k: nat, ip: Inode)
    requires k < IPB
  {
    && HalfAt(b, 32 * k) == ip.kind && HalfAt(b, 32 * k + 1) == ip.major
    && HalfAt(b, 32 * k + 2) == ip.minor && HalfAt(b, 32 * k + 3) == ip.nlink
    && WordAt(b, 16 * k + 2) == ip.size
  }

  function StoreHead(b: Block, k: nat, ip: Inode): Block
    requires k < IPB && ip.size < 0x1_0000_0000
  {
    var b1 := SetHalfAt(SetHalfAt(b, 32 * k, ip.kind), 32 * k + 1, ip.major);
    var b2 := SetHalfAt(SetHalfAt(b1, 32 * k + 2, ip.minor), 32 * k + 3, ip.nlink);
    SetWordAt(b2, 16 * k + 2, ip.size)
  }

  lemma StoreHeadSpec(b: Block, k: nat, ip: Inode)
    requires k < IPB && ip.size < 0x1_0000_0000
    ensures HeadStored(StoreHead(b, k, ip), k, ip) && SameOutside(b, StoreHead(b, k, ip), k)
  {
    var b1 := SetHalfAt(SetHalfAt(b, 32 * k, ip.kind), 32 * k + 1, ip.major);
    var b2 := SetHalfAt(SetHalfAt(b1, 32 * k + 2, ip.minor), 32 * k + 3, ip.nlink);
    SetWordAtSpec(b2, 16 * k + 2, ip.size, 16 * k + 2);
  }

  /** The inode is stored up to address s. */
  ghost predicate StoredTo(b: Block, r: Block, k: nat, ip: Inode, s: nat)
    requires k < IPB && |ip.addrs| == NDIRECT + 1 && s <= NDIRECT + 1
  {
    && HeadStored(r, k, ip) && SameOutside(b, r, k)
    && forall t :: 0 <= t < s ==> AddrOf(r, k, t) == ip.addrs[t]
  }

  lemma StoreAddr(b: Block, r: Block, k: nat, ip: Inode, s: nat)
    requires k < IPB && s <= NDIRECT && Storable(ip) && StoredTo(b, r, k, ip, s)
    ensures StoredTo(b, SetWordAt(r, 16 * k + 3 + s, ip.addrs[s]), k, ip, s + 1)
  {
    var v, r1 := ip.addrs[s], SetWordAt(r, 16 * k + 3 + s, ip.addrs[s]);
    HeadKept(r, k, ip, s, v);
    forall t | 0 <= t < s + 1 ensures AddrOf(r1, k, t) == ip.addrs[t] {
      SetWordAtSpec(r, 16 * k + 3 + s, v, 16 * k + 3 + t);
    }
  }

  lemma HeadKept(r: Block, k: nat, ip: Inode, s: nat, v: Word)
    requires k < IPB && s <= NDIRECT && HeadStored(r, k, ip)
    ensures var r1 := SetWordAt(r, 16 * k + 3 + s, v); HeadStored(r1, k, ip) && SameOutside(r, r1, k)
  {
    SetWordAtSpec(r, 16 * k + 3 + s, v, 16 * k + 2);
  }

  /** The stores of iupdate: inode k of the block becomes ip, and no byte
      outside its place changes. */
  method StoreInode(b: Block, k: nat, ip: Inode) returns (r: Block)
    requires k < IPB && Storable(ip)
    ensures LoadInode(r, k) == ip && SameOutside(b, r, k)
  {
    r := StoreHead(b, k, ip);
    StoreHeadSpec(b, k, ip);
    var s := 0;
    while s <= NDIRECT
      invariant 0 <= s <= NDIRECT + 1 && StoredTo(b, r, k, ip, s)
    {
      StoreAddr(b, r, k, ip, s);
      r := SetWordAt(r, 16 * k + 3 + s, ip.addrs[s]);
      s := s + 1;
    }
    assert LoadInode(r, k).addrs == ip.addrs;
  }
}
