/** Which block belongs to which inode: the free bitmap, the block addresses in
    the inodes and in their indirect blocks, and what allocating, linking and
    freeing do to them. */
module FsOwnership {
  import opened BlockBytes

  const MAXFILE: nat := NDIRECT + NINDIRECT
  const BPB: nat := 8 * BSIZE      // bitmap bits per block

  /** The fields of struct superblock that the block layer uses. */
  datatype Super = Super(size: nat, nblocks: nat, ninodes: nat, inodestart: nat, bmapstart: nat) {
    /** Boot block, super block, log, inodes and bitmap come before the data. */
    function DataStart(): int { size - nblocks }

    function BBlock(b: nat): nat { b / BPB + bmapstart }

    function IBlock(i: nat): nat { i / IPB + inodestart }

    ghost predicate Ok() {
      && 1 <= DataStart() && 0 < size < 0x1_0000_0000
      && BBlock(size - 1) < DataStart()
      && (forall i: nat :: i < ninodes ==> IBlock(i) < bmapstart)
    }
  }

  type Disk = seq<Block>

  const NSLOTS: nat := NDIRECT + 1 + NINDIRECT

  /** The reference in slot s of an inode: slots 0..12 are addrs[0..12], slot
      13+j is entry j of the indirect block.  Zero means none. */
  function Ref(blk: Disk, ip: Inode, s: nat): nat
    requires |ip.addrs| == NDIRECT + 1 && s < NSLOTS
  {
    if s <= NDIRECT then ip.addrs[s]
    else Entry(blk, ip.addrs[NDIRECT], s - NDIRECT - 1)
  }

  function Entry(blk: Disk, a: nat, j: nat): nat
    requires j < NINDIRECT
  {
    if a == 0 || a >= |blk| then 0 else WordAt(blk[a], j)
  }

  /** The bitmap bit of block b. */
  predicate Marked(sb: Super, blk: Disk, b: nat) {
    sb.BBlock(b) < |blk| && BitAt(blk[sb.BBlock(b)], b % BPB)
  }

  type Owner = map<nat, (nat, nat)>

  /** Indirect entries of inode `di` below `d` are being freed by itrunc. */
  predicate Dead(di: nat, d: nat, i: nat, s: nat) {
    i == di && NDIRECT < s <= NDIRECT + d
  }

  ghost predicate Sized(sb: Super, blk: Disk, ino: seq<Inode>) {
    && sb.Ok() && |blk| == sb.size && |ino| == sb.ninodes
    && forall i :: 0 <= i < |ino| ==> |ino[i].addrs| == NDIRECT + 1
  }

  ghost predicate BitsExact(sb: Super, blk: Disk, owner: Owner) {
    && (forall b: nat :: b < sb.DataStart() ==> Marked(sb, blk, b))
    && (forall b: nat :: sb.DataStart() <= b < sb.size ==> (Marked(sb, blk, b) <==> b in owner))
    && (forall b :: b in owner ==> sb.DataStart() <= b < sb.size)
  }

  ghost predicate RefsOwned(blk: Disk, ino: seq<Inode>, owner: Owner, di: nat, d: nat)
    requires forall i :: 0 <= i < |ino| ==> |ino[i].addrs| == NDIRECT + 1
  {
    forall i, s :: 0 <= i < |ino| && 0 <= s < NSLOTS && !Dead(di, d, i, s) && Ref(blk, ino[i], s) != 0 ==>
      Ref(blk, ino[i], s) in owner && owner[Ref(blk, ino[i], s)] == (i, s)
  }

  ghost predicate OwnedRefs(blk: Disk, ino: seq<Inode>, owner: Owner, di: nat, d: nat)
    requires forall i :: 0 <= i < |ino| ==> |ino[i].addrs| == NDIRECT + 1
  {
    forall b :: b in owner ==>
      && owner[b].0 < |ino| && owner[b].1 < NSLOTS && !Dead(di, d, owner[b].0, owner[b].1)
      && Ref(blk, ino[owner[b].0], owner[b].1) == b
  }

  /** Block ownership: the set bits are the metadata and the owned blocks, and
      every owned block is referred to from exactly one slot. */
  ghost predicate Own(sb: Super, blk: Disk, ino: seq<Inode>, owner: Owner, di: nat, d: nat) {
    && Sized(sb, blk, ino)
    && BitsExact(sb, blk, owner)
    && RefsOwned(blk, ino, owner, di, d)
    && OwnedRefs(blk, ino, owner, di, d)
  }

  /** No block is referred to twice, across all inodes and indirect blocks. */
  lemma OwnIsInjective(sb: Super, blk: Disk, ino: seq<Inode>, owner: Owner, i: nat, s: nat, j: nat, t: nat)
    requires Own(sb, blk, ino, owner, 0, 0)
    requires i < |ino| && j < |ino| && s < NSLOTS && t < NSLOTS && (i, s) != (j, t)
    requires Ref(blk, ino[i], s) != 0
    ensures Ref(blk, ino[i], s) != Ref(blk, ino[j], t)
    ensures sb.DataStart() <= Ref(blk, ino[i], s) < sb.size && Marked(sb, blk, Ref(blk, ino[i], s))
  {
  }

  /** Some inode or indirect block refers to b. */
  ghost predicate Referred(blk: Disk, ino: seq<Inode>, b: nat)
    requires forall i :: 0 <= i < |ino| ==> |ino[i].addrs| == NDIRECT + 1
  {
    exists i, s :: 0 <= i < |ino| && 0 <= s < NSLOTS && Ref(blk, ino[i], s) == b
  }

  /** The blocks marked in use are the metadata and the blocks referred to. */
  lemma MarkedIsUsed(sb: Super, blk: Disk, ino: seq<Inode>, owner: Owner, b: nat)
    requires Own(sb, blk, ino, owner, 0, 0) && b < sb.size
    ensures Marked(sb, blk, b) <==> b < sb.DataStart() || Referred(blk, ino, b)
  {
    if b in owner {
      assert Ref(blk, ino[owner[b].0], owner[b].1) == b;
    }
    if b >= sb.DataStart() && Referred(blk, ino, b) {
      var i, s :| 0 <= i < |ino| && 0 <= s < NSLOTS && Ref(blk, ino[i], s) == b;
      assert Ref(blk, ino[i], s) in owner;
    }
  }

  // ----- the inode blocks, which lie before the bitmap -----

  /** Inode i as its inode block has it. */
  function OnDisk(sb: Super, blk: Disk, i: nat): (r: Inode)
    requires sb.IBlock(i) < |blk|
  {
    LoadInode(blk[sb.IBlock(i)], i % IPB)
  }

  ghost predicate SameAt(blk: Disk, blk1: Disk, b: nat) {
    b < |blk| == |blk1| && blk1[b] == blk[b]
  }

  /** No inode block has changed. */
  ghost predicate InodesKept(sb: Super, blk: Disk, blk1: Disk) {
    |blk1| == |blk| && forall b: nat :: b < |blk| && b < sb.bmapstart ==> SameAt(blk, blk1, b)
  }

  lemma KeptTrans(sb: Super, blk: Disk, blk1: Disk, blk2: Disk)
    requires InodesKept(sb, blk, blk1) && InodesKept(sb, blk1, blk2)
    ensures InodesKept(sb, blk, blk2)
  {
    forall b: nat | b < |blk| && b < sb.bmapstart ensures SameAt(blk, blk2, b) {
      assert SameAt(blk, blk1, b) && SameAt(blk1, blk2, b);
    }
  }

  /** A write from the bitmap on touches no inode block. */
  lemma KeptWrite(sb: Super, blk: Disk, a: nat, b: Block)
    requires sb.bmapstart <= a < |blk|
    ensures InodesKept(sb, blk, blk[a := b])
  {
  }

  lemma KeptInode(sb: Super, blk: Disk, blk1: Disk, j: nat)
    requires InodesKept(sb, blk, blk1) && sb.Ok() && j < sb.ninodes && |blk| == sb.size
    ensures sb.IBlock(j) < |blk| && OnDisk(sb, blk1, j) == OnDisk(sb, blk, j)
  {
    IBlockInMeta(sb, j);
    assert SameAt(blk, blk1, sb.IBlock(j));
  }

  lemma IBlockInMeta(sb: Super, i: nat)
    requires sb.Ok() && i < sb.ninodes
    ensures sb.IBlock(i) < sb.bmapstart < sb.DataStart() <= sb.size
  {
  }

  /** Storing inode i leaves the other inodes of its block, and of all blocks. */
  lemma OnDiskElsewhere(sb: Super, blk: Disk, i: nat, b: Block, j: nat)
    requires sb.IBlock(i) < |blk| && sb.IBlock(j) < |blk| && j != i && SameOutside(blk[sb.IBlock(i)], b, i % IPB)
    ensures OnDisk(sb, blk[sb.IBlock(i) := b], j) == OnDisk(sb, blk, j)
  {
    if sb.IBlock(j) == sb.IBlock(i) {
      assert i == IPB * (i / IPB) + i % IPB && j == IPB * (j / IPB) + j % IPB;
      OtherInodes(blk[sb.IBlock(i)], b, i % IPB, j % IPB);
    }
  }

  /** A write to an inode block touches neither bitmap nor owned blocks. */
  lemma InodeWriteKeepsOwn(sb: Super, blk: Disk, ino: seq<Inode>, owner: Owner, i: nat, b: Block)
    requires Own(sb, blk, ino, owner, 0, 0) && i < |ino|
    ensures sb.IBlock(i) < |blk| && Own(sb, blk[sb.IBlock(i) := b], ino, owner, 0, 0)
    ensures forall j, t :: 0 <= j < |ino| && 0 <= t < NSLOTS ==>
              Ref(blk[sb.IBlock(i) := b], ino[j], t) == Ref(blk, ino[j], t)
  {
    IBlockInMeta(sb, i);
    var a, blk1 := sb.IBlock(i), blk[sb.IBlock(i) := b];
    forall c: nat | c < sb.size ensures Marked(sb, blk1, c) <==> Marked(sb, blk, c) {
    }
    forall j, t | 0 <= j < |ino| && 0 <= t < NSLOTS ensures Ref(blk1, ino[j], t) == Ref(blk, ino[j], t) {
      RefAfterWrite(sb, blk, ino, owner, 0, 0, a, b, j, t);
    }
    assert BitsExact(sb, blk1, owner);
    assert RefsOwned(blk1, ino, owner, 0, 0);
    assert OwnedRefs(blk1, ino, owner, 0, 0);
  }

  lemma OwnStorable(sb: Super, blk: Disk, ino: seq<Inode>, owner: Owner, i: nat)
    requires Own(sb, blk, ino, owner, 0, 0) && i < |ino| && ino[i].size < 0x1_0000_0000
    ensures Storable(ino[i])
  {
    forall s | 0 <= s <= NDIRECT ensures ino[i].addrs[s] < 0x1_0000_0000 {
      assert ino[i].addrs[s] == Ref(blk, ino[i], s);
    }
  }

  // ----- what balloc and bfree do to the blocks -----

  function Alloc(sb: Super, blk: Disk, b: nat): (r: Disk)
    requires b < |blk| && sb.BBlock(b) < |blk|
    ensures |r| == |blk|
  {
    blk[sb.BBlock(b) := SetBitAt(blk[sb.BBlock(b)], b % BPB)][b := ZeroBlock()]
  }

  function Free(sb: Super, blk: Disk, b: nat): (r: Disk)
    requires sb.BBlock(b) < |blk|
    ensures |r| == |blk|
  {
    blk[sb.BBlock(b) := ClearBitAt(blk[sb.BBlock(b)], b % BPB)]
  }

  lemma KeptAlloc(sb: Super, blk: Disk, b: nat)
    requires sb.Ok() && |blk| == sb.size && sb.DataStart() <= b < sb.size && sb.BBlock(b) < |blk|
    ensures InodesKept(sb, blk, Alloc(sb, blk, b))
  {
    BBlockInMeta(sb, b);
    KeptWrite(sb, blk, sb.BBlock(b), SetBitAt(blk[sb.BBlock(b)], b % BPB));
    var blk1 := blk[sb.BBlock(b) := SetBitAt(blk[sb.BBlock(b)], b % BPB)];
    KeptWrite(sb, blk1, b, ZeroBlock());
    KeptTrans(sb, blk, blk1, Alloc(sb, blk, b));
  }

  lemma KeptFree(sb: Super, blk: Disk, b: nat)
    requires sb.BBlock(b) < |blk|
    ensures InodesKept(sb, blk, Free(sb, blk, b))
  {
    KeptWrite(sb, blk, sb.BBlock(b), ClearBitAt(blk[sb.BBlock(b)], b % BPB));
  }

  lemma BBlockInMeta(sb: Super, b: nat)
    requires sb.Ok() && b < sb.size
    ensures sb.BBlock(b) < sb.DataStart() <= sb.size
  {
    assert b / BPB <= (sb.size - 1) / BPB;
  }

  /** balloc zeroes the block, and leaves every block but it and its bitmap
      block as it was. */
  lemma AllocZeroes(sb: Super, blk: Disk, b: nat, c: nat)
    requires sb.Ok() && |blk| == sb.size && sb.DataStart() <= b < sb.size && c < sb.size
    ensures sb.BBlock(b) < |blk| && b != sb.BBlock(b)
    ensures forall k :: 0 <= k < BSIZE ==> Alloc(sb, blk, b)[b][k] == 0
    ensures c != b && c != sb.BBlock(b) ==> Alloc(sb, blk, b)[c] == blk[c]
  {
    BBlockInMeta(sb, b);
  }

  /** balloc sets that block's bit and no other. */
  lemma AllocMarks(sb: Super, blk: Disk, b: nat, c: nat)
    requires sb.Ok() && |blk| == sb.size && sb.DataStart() <= b < sb.size && c < sb.size
    ensures sb.BBlock(b) < |blk|
    ensures Marked(sb, Alloc(sb, blk, b), c) <==> c == b || Marked(sb, blk, c)
  {
    BBlockInMeta(sb, b);
    BBlockInMeta(sb, c);
    SetBitAtSpec(blk[sb.BBlock(b)], b % BPB, c % BPB);
    assert c == BPB * (c / BPB) + c % BPB && b == BPB * (b / BPB) + b % BPB;
  }

  /** bfree clears that block's bit and no other. */
  lemma FreeMarks(sb: Super, blk: Disk, b: nat, c: nat)
    requires sb.Ok() && |blk| == sb.size && b < sb.size && c < sb.size
    ensures sb.BBlock(b) < |blk|
    ensures Marked(sb, Free(sb, blk, b), c) <==> c != b && Marked(sb, blk, c)
  {
    BBlockInMeta(sb, b);
    BBlockInMeta(sb, c);
    ClearBitAtSpec(blk[sb.BBlock(b)], b % BPB, c % BPB);
    assert c == BPB * (c / BPB) + c % BPB && b == BPB * (b / BPB) + b % BPB;
  }

  /** Changing a data block does not touch the bitmap. */
  lemma DataWriteMarks(sb: Super, blk: Disk, a: nat, data: Block, c: nat)
    requires sb.Ok() && |blk| == sb.size && sb.DataStart() <= a < sb.size && c < sb.size
    ensures Marked(sb, blk[a := data], c) <==> Marked(sb, blk, c)
  {
    BBlockInMeta(sb, c);
  }

  lemma BitsAfterAlloc(sb: Super, blk: Disk, owner: Owner, b: nat, at: (nat, nat))
    requires sb.Ok() && |blk| == sb.size && BitsExact(sb, blk, owner) && sb.DataStart() <= b < sb.size
    ensures sb.BBlock(b) < |blk| && BitsExact(sb, Alloc(sb, blk, b), owner[b := at])
  {
    BBlockInMeta(sb, b);
    forall c: nat | c < sb.size ensures Marked(sb, Alloc(sb, blk, b), c) <==> c == b || Marked(sb, blk, c) {
      AllocMarks(sb, blk, b, c);
    }
  }

  lemma BitsAfterFree(sb: Super, blk: Disk, owner: Owner, b: nat)
    requires sb.Ok() && |blk| == sb.size && BitsExact(sb, blk, owner) && b in owner
    ensures sb.BBlock(b) < |blk| && BitsExact(sb, Free(sb, blk, b), owner - {b})
  {
    BBlockInMeta(sb, b);
    forall c: nat | c < sb.size ensures Marked(sb, Free(sb, blk, b), c) <==> c != b && Marked(sb, blk, c) {
      FreeMarks(sb, blk, b, c);
    }
  }

  lemma BitsAfterDataWrite(sb: Super, blk: Disk, owner: Owner, a: nat, data: Block)
    requires sb.Ok() && |blk| == sb.size && BitsExact(sb, blk, owner) && sb.DataStart() <= a < sb.size
    ensures BitsExact(sb, blk[a := data], owner)
  {
    var blk1 := blk[a := data];
    forall c: nat | c < sb.size ensures Marked(sb, blk1, c) <==> Marked(sb, blk, c) {
      DataWriteMarks(sb, blk, a, data, c);
    }
    forall c: nat | c < sb.DataStart() ensures Marked(sb, blk1, c) {
      assert Marked(sb, blk, c);
    }
    forall c: nat | sb.DataStart() <= c < sb.size ensures Marked(sb, blk1, c) <==> c in owner {
      assert Marked(sb, blk, c) <==> c in owner;
    }
  }

  // ----- references after a step -----

  /** Outside the data region, or at a block that is nobody's indirect block,
      a write changes no reference. */
  lemma RefAfterWrite(sb: Super, blk: Disk, ino: seq<Inode>, owner: Owner, di: nat, d: nat, a: nat, data: Block,
                      i: nat, s: nat)
    requires Own(sb, blk, ino, owner, di, d) && a < |blk| && i < |ino| && s < NSLOTS
    requires a in owner ==> owner[a].1 != NDIRECT
    ensures Ref(blk[a := data], ino[i], s) == Ref(blk, ino[i], s)
  {
    var p := Ref(blk, ino[i], NDIRECT);
    assert p != 0 ==> p in owner && owner[p] == (i, NDIRECT);
  }

  lemma RefsAfterAlloc(sb: Super, blk: Disk, ino: seq<Inode>, owner: Owner, di: nat, d: nat, b: nat, i: nat, s: nat)
    requires Own(sb, blk, ino, owner, di, d) && sb.DataStart() <= b < sb.size && b !in owner
    requires i < |ino| && s < NSLOTS
    ensures sb.BBlock(b) < |blk|
    ensures Ref(Alloc(sb, blk, b), ino[i], s) == Ref(blk, ino[i], s)
  {
    BBlockInMeta(sb, b);
    var p := Ref(blk, ino[i], NDIRECT);
    assert p != 0 ==> p in owner;
    assert p != 0 ==> Alloc(sb, blk, b)[p] == blk[p];
  }

  /** Slot (i, s) now holds b; every other reference, every file size and every
      owned data block is as before. */
  ghost predicate Linked(blk: Disk, ino: seq<Inode>, owner: Owner, b: nat, i: nat, s: nat,
                         blk1: Disk, ino1: seq<Inode>)
    requires forall j :: 0 <= j < |ino| ==> |ino[j].addrs| == NDIRECT + 1
  {
    && |blk1| == |blk| && |ino1| == |ino|
    && (forall j :: 0 <= j < |ino| ==> |ino1[j].addrs| == NDIRECT + 1 && ino1[j].size == ino[j].size)
    && (forall j, t :: 0 <= j < |ino| && 0 <= t < NSLOTS ==>
          Ref(blk1, ino1[j], t) == if (j, t) == (i, s) then b else Ref(blk, ino[j], t))
    && (forall c :: c in owner && c < |blk| && owner[c].1 != NDIRECT ==> blk1[c] == blk[c])
  }

  /** Slot (i, s) goes from empty to b; nothing else changes. */
  lemma OwnAfterLink(sb: Super, blk: Disk, ino: seq<Inode>, owner: Owner, b: nat, i: nat, s: nat,
                     blk1: Disk, ino1: seq<Inode>)
    requires Own(sb, blk, ino, owner, 0, 0) && Sized(sb, blk1, ino1)
    requires i < |ino| && s < NSLOTS && b != 0 && b !in owner && BitsExact(sb, blk1, owner[b := (i, s)])
    requires forall j, t :: 0 <= j < |ino| && 0 <= t < NSLOTS ==>
               Ref(blk1, ino1[j], t) == if (j, t) == (i, s) then b else Ref(blk, ino[j], t)
    requires Ref(blk, ino[i], s) == 0
    ensures Own(sb, blk1, ino1, owner[b := (i, s)], 0, 0)
  {
  }

  /** A block just allocated has no entries if it is used as an indirect block. */
  lemma FreshEntries(sb: Super, blk: Disk, b: nat, j: nat)
    requires 0 < b < |blk| && sb.BBlock(b) < |blk| && j < NINDIRECT
    ensures Entry(Alloc(sb, blk, b), b, j) == 0
  {
    var z := Alloc(sb, blk, b)[b];
    assert z == ZeroBlock();
    ZeroWords(j);
  }

  lemma AddrAfterLink(sb: Super, blk: Disk, ino: seq<Inode>, owner: Owner, b: nat, i: nat, s: nat, j: nat, t: nat)
    requires Own(sb, blk, ino, owner, 0, 0) && sb.DataStart() <= b < sb.size && b !in owner
    requires i < |ino| && s <= NDIRECT && ino[i].addrs[s] == 0 && j < |ino| && t < NSLOTS
    ensures sb.BBlock(b) < |blk|
    ensures Ref(Alloc(sb, blk, b), ino[i := ino[i].(addrs := ino[i].addrs[s := b])][j], t)
            == if (j, t) == (i, s) then b else Ref(blk, ino[j], t)
  {
    RefsAfterAlloc(sb, blk, ino, owner, 0, 0, b, j, t);
    if j == i && t > NDIRECT && s == NDIRECT {
      FreshEntries(sb, blk, b, t - NDIRECT - 1);
    } else if j == i && t > NDIRECT {
      assert ino[i].addrs[s := b][NDIRECT] == ino[i].addrs[NDIRECT];
    }
  }

  /** bmap fills an empty address of the inode with a fresh block. */
  lemma LinkAddr(sb: Super, blk: Disk, ino: seq<Inode>, owner: Owner, b: nat, i: nat, s: nat)
    requires Own(sb, blk, ino, owner, 0, 0) && sb.DataStart() <= b < sb.size && b !in owner
    requires i < |ino| && s <= NDIRECT && ino[i].addrs[s] == 0
    ensures sb.BBlock(b) < |blk|
    ensures var blk1, ino1 := Alloc(sb, blk, b), ino[i := ino[i].(addrs := ino[i].addrs[s := b])];
            && Own(sb, blk1, ino1, owner[b := (i, s)], 0, 0)
            && Linked(blk, ino, owner, b, i, s, blk1, ino1)
  {
    BBlockInMeta(sb, b);
    BitsAfterAlloc(sb, blk, owner, b, (i, s));
    var blk1, ino1 := Alloc(sb, blk, b), ino[i := ino[i].(addrs := ino[i].addrs[s := b])];
    forall j, t | 0 <= j < |ino| && 0 <= t < NSLOTS
      ensures Ref(blk1, ino1[j], t) == if (j, t) == (i, s) then b else Ref(blk, ino[j], t)
    {
      AddrAfterLink(sb, blk, ino, owner, b, i, s, j, t);
    }
    OwnAfterLink(sb, blk, ino, owner, b, i, s, blk1, ino1);
  }

  /** The blocks after bmap has filled entry j of the indirect block a. */
  function AllocEntry(sb: Super, blk: Disk, b: nat, a: nat, j: nat): (r: Disk)
    requires b < |blk| && sb.BBlock(b) < |blk| && a < |blk| && j < NINDIRECT && b < 0x1_0000_0000
    ensures |r| == |blk|
  {
    Alloc(sb, blk, b)[a := SetWordAt(blk[a], j, b)]
  }

  lemma LinkEntry(sb: Super, blk: Disk, ino: seq<Inode>, owner: Owner, b: nat, i: nat, j: nat)
    requires Own(sb, blk, ino, owner, 0, 0) && sb.DataStart() <= b < sb.size && b !in owner
    requires i < |ino| && j < NINDIRECT && ino[i].addrs[NDIRECT] != 0 && Entry(blk, ino[i].addrs[NDIRECT], j) == 0
    ensures sb.BBlock(b) < |blk| && ino[i].addrs[NDIRECT] < |blk|
    ensures var blk1 := AllocEntry(sb, blk, b, ino[i].addrs[NDIRECT], j);
            && Own(sb, blk1, ino, owner[b := (i, NDIRECT + 1 + j)], 0, 0)
            && Linked(blk, ino, owner, b, i, NDIRECT + 1 + j, blk1, ino)
  {
    BBlockInMeta(sb, b);
    var a := ino[i].addrs[NDIRECT];
    assert a == Ref(blk, ino[i], NDIRECT);
    assert a in owner && owner[a] == (i, NDIRECT);
    BitsAfterAlloc(sb, blk, owner, b, (i, NDIRECT + 1 + j));
    var blk0 := Alloc(sb, blk, b);
    var blk1 := AllocEntry(sb, blk, b, a, j);
    BitsAfterDataWrite(sb, blk0, owner[b := (i, NDIRECT + 1 + j)], a, blk1[a]);
    forall k, t | 0 <= k < |ino| && 0 <= t < NSLOTS
      ensures Ref(blk1, ino[k], t) == if (k, t) == (i, NDIRECT + 1 + j) then b else Ref(blk, ino[k], t)
    {
      RefsAfterAlloc(sb, blk, ino, owner, 0, 0, b, k, t);
      EntryAfterLink(sb, blk, ino, owner, b, i, j, k, t);
    }
    OwnAfterLink(sb, blk, ino, owner, b, i, NDIRECT + 1 + j, blk1, ino);
  }

  lemma EntryAfterLink(sb: Super, blk: Disk, ino: seq<Inode>, owner: Owner, b: nat, i: nat, j: nat, k: nat, t: nat)
    requires Own(sb, blk, ino, owner, 0, 0) && sb.DataStart() <= b < sb.size && b !in owner && sb.BBlock(b) < |blk|
    requires i < |ino| && j < NINDIRECT && ino[i].addrs[NDIRECT] != 0 && ino[i].addrs[NDIRECT] < |blk|
    requires k < |ino| && t < NSLOTS
    requires Ref(Alloc(sb, blk, b), ino[k], t) == Ref(blk, ino[k], t)
    ensures Ref(AllocEntry(sb, blk, b, ino[i].addrs[NDIRECT], j), ino[k], t)
            == if (k, t) == (i, NDIRECT + 1 + j) then b else Ref(blk, ino[k], t)
  {
    var a, p := Ref(blk, ino[i], NDIRECT), Ref(blk, ino[k], NDIRECT);
    assert owner[a] == (i, NDIRECT);
    assert p != 0 ==> owner[p] == (k, NDIRECT);
    if t > NDIRECT {
      SetWordAtSpec(blk[a], j, b, t - NDIRECT - 1);
    }
  }

  // ----- itrunc -----

  /** Slot (i, s) goes from b to empty, b is freed. */
  lemma OwnAfterUnlink(sb: Super, blk: Disk, ino: seq<Inode>, owner: Owner, di: nat, d: nat, b: nat, i: nat, s: nat,
                       blk1: Disk, ino1: seq<Inode>, d1: nat)
    requires Own(sb, blk, ino, owner, di, d) && Sized(sb, blk1, ino1)
    requires b in owner && owner[b] == (i, s) && BitsExact(sb, blk1, owner - {b})
    requires forall j, t :: 0 <= j < |ino| && 0 <= t < NSLOTS && !Dead(di, d1, j, t) ==>
               !Dead(di, d, j, t) && Ref(blk1, ino1[j], t) == if (j, t) == (i, s) then 0 else Ref(blk, ino[j], t)
    requires forall j, t :: 0 <= j < |ino| && 0 <= t < NSLOTS && Dead(di, d1, j, t) && !Dead(di, d, j, t) ==>
               (j, t) == (i, s) || Ref(blk, ino[j], t) == 0
    ensures Own(sb, blk1, ino1, owner - {b}, di, d1)
  {
    var o1 := owner - {b};
    assert forall c :: c in o1 ==> owner[c] != (i, s);
  }

  lemma RefsAfterFree(sb: Super, blk: Disk, ino: seq<Inode>, owner: Owner, di: nat, d: nat, b: nat, i: nat, s: nat)
    requires Own(sb, blk, ino, owner, di, d) && b in owner && i < |ino| && s < NSLOTS
    ensures sb.BBlock(b) < |blk| && Ref(Free(sb, blk, b), ino[i], s) == Ref(blk, ino[i], s)
  {
    BBlockInMeta(sb, b);
    var p := Ref(blk, ino[i], NDIRECT);
    assert p != 0 ==> p in owner;
    assert p != 0 ==> Free(sb, blk, b)[p] == blk[p];
  }

  lemma FreeDirect(sb: Super, blk: Disk, ino: seq<Inode>, owner: Owner, i: nat, s: nat)
    requires Own(sb, blk, ino, owner, 0, 0) && i < |ino| && s < NDIRECT && ino[i].addrs[s] != 0
    ensures var b := ino[i].addrs[s];
            && sb.BBlock(b) < |blk| && b in owner && Marked(sb, blk, b)
            && Own(sb, Free(sb, blk, b), ino[i := ino[i].(addrs := ino[i].addrs[s := 0])], owner - {b}, 0, 0)
  {
    var b := ino[i].addrs[s];
    assert b == Ref(blk, ino[i], s);
    var blk1, ino1 := Free(sb, blk, b), ino[i := ino[i].(addrs := ino[i].addrs[s := 0])];
    BitsAfterFree(sb, blk, owner, b);
    forall j, t | 0 <= j < |ino| && 0 <= t < NSLOTS
      ensures Ref(blk1, ino1[j], t) == if (j, t) == (i, s) then 0 else Ref(blk, ino[j], t)
    {
      RefsAfterFree(sb, blk, ino, owner, 0, 0, b, j, t);
    }
    OwnAfterUnlink(sb, blk, ino, owner, 0, 0, b, i, s, blk1, ino1, 0);
  }

  lemma FreeEntry(sb: Super, blk: Disk, ino: seq<Inode>, owner: Owner, i: nat, j: nat)
    requires Own(sb, blk, ino, owner, i, j) && i < |ino| && j < NINDIRECT
    ensures var b := Entry(blk, ino[i].addrs[NDIRECT], j);
            if b == 0 then Own(sb, blk, ino, owner, i, j + 1)
            else && sb.BBlock(b) < |blk| && b in owner && Marked(sb, blk, b)
                 && Own(sb, Free(sb, blk, b), ino, owner - {b}, i, j + 1)
                 && Entry(Free(sb, blk, b), ino[i].addrs[NDIRECT], j) == b
  {
    var s := NDIRECT + 1 + j;
    var b := Ref(blk, ino[i], s);
    if b != 0 {
      assert b in owner && owner[b] == (i, s);
      BitsAfterFree(sb, blk, owner, b);
      forall k, t | 0 <= k < |ino| && 0 <= t < NSLOTS ensures Ref(Free(sb, blk, b), ino[k], t) == Ref(blk, ino[k], t) {
        RefsAfterFree(sb, blk, ino, owner, i, j, b, k, t);
      }
      OwnAfterUnlink(sb, blk, ino, owner, i, j, b, i, s, Free(sb, blk, b), ino, j + 1);
    }
  }

  lemma FreeIndirect(sb: Super, blk: Disk, ino: seq<Inode>, owner: Owner, i: nat)
    requires Own(sb, blk, ino, owner, i, NINDIRECT) && i < |ino| && ino[i].addrs[NDIRECT] != 0
    ensures var b := ino[i].addrs[NDIRECT];
            && sb.BBlock(b) < |blk| && b in owner && Marked(sb, blk, b)
            && Own(sb, Free(sb, blk, b), ino[i := ino[i].(addrs := ino[i].addrs[NDIRECT := 0])], owner - {b}, 0, 0)
  {
    var b := ino[i].addrs[NDIRECT];
    assert b == Ref(blk, ino[i], NDIRECT);
    var blk1, ino1 := Free(sb, blk, b), ino[i := ino[i].(addrs := ino[i].addrs[NDIRECT := 0])];
    BitsAfterFree(sb, blk, owner, b);
    var o1 := owner - {b};
    forall j, t | 0 <= j < |ino| && 0 <= t < NSLOTS
      ensures Ref(blk1, ino1[j], t) == if j == i && t >= NDIRECT then 0 else Ref(blk, ino[j], t)
    {
      RefsAfterFree(sb, blk, ino, owner, i, NINDIRECT, b, j, t);
    }
    assert RefsOwned(blk1, ino1, o1, 0, 0);
    assert OwnedRefs(blk1, ino1, o1, 0, 0);
  }
}
