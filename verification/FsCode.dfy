/** The block and inode functions as code.  `blk` is every block as the buffer
    cache presents it, the inode blocks included, `ino` the in-memory inodes,
    and `calls` the block numbers handed to log_write, in order. */
module FsCode {
  import opened Wrappers
  import opened BlockBytes
  import opened FsOwnership
  import opened FsContents
  import L = LogAdmission

  ghost predicate Full(sb: Super, blk: Disk) {
    forall b: nat :: b < sb.size ==> Marked(sb, blk, b)
  }

  /** What filling an empty address logs: the bitmap block and the zeroed block. */
  ghost function AddrLog(sb: Super, mapped: bool, addr: nat): seq<nat> {
    if !mapped && addr != 0 then [sb.BBlock(addr), addr] else []
  }

  /** What filling an empty entry of indirect block `ind` logs. */
  ghost function EntryLog(sb: Super, mapped: bool, addr: nat, ind: nat): seq<nat> {
    if !mapped && addr != 0 then [sb.BBlock(addr), addr, ind] else []
  }

  /** What one bmap call logs, ind0 and ind1 being the indirect block before and after. */
  ghost function MapLog(sb: Super, ind0: nat, ind1: nat, bn: nat, mapped: bool, addr: nat): seq<nat> {
    if bn < NDIRECT then AddrLog(sb, mapped, addr)
    else AddrLog(sb, ind0 != 0, ind1) + EntryLog(sb, mapped, addr, ind1)
  }

  lemma Appended(calls: seq<nat>, a: seq<nat>, b: seq<nat>)
    ensures calls + a + b == calls + (a + b) && calls + [] == calls
  {
  }

  // ----- the log footprint of writei -----

  /** Bookkeeping for the calls of one writei: data blocks, bitmap blocks,
      rounds of the loop, and how many of them allocated a data block. */
  datatype Tally = Tally(data: set<nat>, bitmaps: set<nat>, rounds: nat, newly: nat)

  predicate InBitmap(sb: Super, x: nat) {
    sb.size > 0 && sb.bmapstart <= x <= sb.BBlock(sb.size - 1)
  }

  ghost predicate Footprint(sb: Super, made: set<nat>, ind0: nat, ind: nat, t: Tally) {
    && made <= t.data + t.bitmaps + (if ind != 0 then {ind} else {})
    && |t.data| <= t.rounds
    && |t.bitmaps| <= t.newly + (if ind0 == 0 && ind != 0 then 1 else 0)
    && (forall x :: x in t.bitmaps ==> InBitmap(sb, x))
    && (ind0 != 0 ==> ind == ind0)
  }

  ghost function Next(sb: Super, t: Tally, ind: nat, ind1: nat, mapped: bool, addr: nat): Tally {
    var bitmaps := t.bitmaps + (if ind == 0 && ind1 != 0 then {sb.BBlock(ind1)} else {});
    if addr == 0 then t.(bitmaps := bitmaps)
    else Tally(t.data + {addr}, bitmaps + (if mapped then {} else {sb.BBlock(addr)}),
               t.rounds + 1, t.newly + (if mapped then 0 else 1))
  }

  lemma BBlockRange(sb: Super, b: nat)
    requires b < sb.size
    ensures InBitmap(sb, sb.BBlock(b))
  {
    assert b / BPB <= (sb.size - 1) / BPB;
  }

  lemma BitmapsGrow(sb: Super, bitmaps: set<nat>, b: nat, grow: bool)
    requires b < sb.size && forall x :: x in bitmaps ==> InBitmap(sb, x)
    ensures var more := bitmaps + (if grow then {sb.BBlock(b)} else {});
            |more| <= |bitmaps| + (if grow then 1 else 0) && forall x :: x in more ==> InBitmap(sb, x)
  {
    BBlockRange(sb, b);
    CardAdd(bitmaps, sb.BBlock(b));
    assert bitmaps + {} == bitmaps;
  }

  /** The blocks one bmap call may log. */
  ghost function MapBlocks(sb: Super, ind: nat, ind1: nat, mapped: bool, addr: nat): set<nat> {
    (if ind == 0 && ind1 != 0 then {sb.BBlock(ind1)} else {})
    + (if !mapped && addr != 0 then {sb.BBlock(addr), addr} else {}) + (if ind1 != 0 then {ind1} else {})
  }

  lemma MapLogBlocks(sb: Super, ind: nat, ind1: nat, bn: nat, mapped: bool, addr: nat)
    requires bn >= NDIRECT && addr != 0 ==> ind1 != 0
    ensures L.Blocks(MapLog(sb, ind, ind1, bn, mapped, addr)) <= MapBlocks(sb, ind, ind1, mapped, addr)
  {
  }

  lemma FootprintRound(sb: Super, made: set<nat>, more: set<nat>, ind0: nat, ind: nat, ind1: nat,
                       mapped: bool, addr: nat, t: Tally)
    requires Footprint(sb, made, ind0, ind, t) && addr < sb.size && ind1 < sb.size && (addr == 0 ==> !mapped)
    requires (ind != 0 ==> ind1 == ind) && more <= MapBlocks(sb, ind, ind1, mapped, addr)
    ensures Footprint(sb, made + more + (if addr == 0 then {} else {addr}), ind0, ind1, Next(sb, t, ind, ind1, mapped, addr))
  {
    CardAdd(t.data, addr);
    BitmapsGrow(sb, t.bitmaps, ind1, ind == 0 && ind1 != 0);
    BitmapsGrow(sb, t.bitmaps + (if ind == 0 && ind1 != 0 then {sb.BBlock(ind1)} else {}), addr, !mapped);
  }

  lemma CardAdd(s: set<nat>, x: nat)
    ensures |s + {x}| <= |s| + 1
  {
    if x in s {
      assert s + {x} == s;
    }
  }

  lemma CardUnion(a: set<nat>, b: set<nat>)
    ensures |a + b| <= |a| + |b|
  {
    assert a + b == a + (b - a);
    assert a !! (b - a);
    L.MoreBlocks(b - a, b);
  }

  lemma {:induction false} CardRange(s: set<nat>, lo: nat, n: nat)
    requires forall x :: x in s ==> lo <= x < lo + n
    ensures |s| <= n
  {
    if n > 0 {
      CardRange(s - {lo + n - 1}, lo, n - 1);
    } else {
      assert s == {};
    }
  }

  /** All rounds but the last end on a block boundary; a first block that the
      write enters in the middle was mapped already. */
  ghost predicate Paced(off: nat, n: nat, tot: nat, t: Tally) {
    && t.newly <= t.rounds && (off % BSIZE != 0 && t.rounds > 0 ==> t.newly < t.rounds)
    && (tot < n ==> (off + tot) / BSIZE == off / BSIZE + t.rounds)
    && (t.rounds > 0 ==> (off / BSIZE + t.rounds - 1) * BSIZE < off + n)
    && (t.rounds == 0 ==> tot == 0)
  }

  lemma PacedRound(off: nat, n: nat, tot: nat, m: nat, t: Tally, t1: Tally, mapped: bool)
    requires Paced(off, n, tot, t) && tot < n
    requires m == RoundSize(off, n, tot)
    requires t1.rounds == t.rounds + 1 && t1.newly == t.newly + (if mapped then 0 else 1)
    requires off % BSIZE != 0 && t.rounds == 0 ==> mapped
    ensures m > 0 && Paced(off, n, tot + m, t1)
  {
    var at := off + tot;
    if tot + m < n {
      assert at + m == (at / BSIZE + 1) * BSIZE;
    }
  }

  /** min(n - tot, BSIZE - off % BSIZE) at the current offset. */
  function RoundSize(off: nat, n: nat, tot: nat): (m: nat)
    requires tot < n
    ensures 0 < m && tot + m <= n && (off + tot) % BSIZE + m <= BSIZE
  {
    if n - tot < BSIZE - (off + tot) % BSIZE then n - tot else BSIZE - (off + tot) % BSIZE
  }

  /** What the tally needs to know about one bmap call of writei. */
  ghost predicate Mapping(sb: Super, ind: nat, ind1: nat, bn: nat, mapped: bool, addr: nat, off: nat, tot: nat) {
    && (ind != 0 ==> ind1 == ind) && ind1 < sb.size && addr < sb.size
    && (addr != 0 && bn >= NDIRECT ==> ind1 != 0)
    && (addr == 0 ==> !mapped)
    && (off % BSIZE != 0 && tot == 0 ==> mapped)
  }

  /** The calls of one round of writei's loop. */
  ghost function RoundLog(sb: Super, ind0: nat, ind1: nat, bn: nat, mapped: bool, addr: nat): seq<nat> {
    MapLog(sb, ind0, ind1, bn, mapped, addr) + (if addr == 0 then [] else [addr])
  }

  lemma RoundBlocks(sb: Super, made: seq<nat>, ind0: nat, ind1: nat, bn: nat, mapped: bool, addr: nat)
    ensures L.Blocks(made + RoundLog(sb, ind0, ind1, bn, mapped, addr))
            == L.Blocks(made) + L.Blocks(MapLog(sb, ind0, ind1, bn, mapped, addr)) + (if addr == 0 then {} else {addr})
  {
  }

  lemma TallyRound(sb: Super, made: seq<nat>, ind0: nat, ind: nat, ind1: nat,
                   mapped: bool, addr: nat, t: Tally, off: nat, n: nat, tot: nat, m: nat)
    requires Footprint(sb, L.Blocks(made), ind0, ind, t) && Paced(off, n, tot, t) && tot < n
    requires Mapping(sb, ind, ind1, (off + tot) / BSIZE, mapped, addr, off, tot)
    requires addr == 0 <==> m == 0
    requires m != 0 ==> m == RoundSize(off, n, tot)
    ensures var t1 := Next(sb, t, ind, ind1, mapped, addr);
            && Footprint(sb, L.Blocks(made + RoundLog(sb, ind, ind1, (off + tot) / BSIZE, mapped, addr)), ind0, ind1, t1)
            && Paced(off, n, tot + m, t1)
  {
    var bn := (off + tot) / BSIZE;
    RoundBlocks(sb, made, ind, ind1, bn, mapped, addr);
    MapLogBlocks(sb, ind, ind1, bn, mapped, addr);
    FootprintRound(sb, L.Blocks(made), L.Blocks(MapLog(sb, ind, ind1, bn, mapped, addr)), ind0, ind, ind1, mapped, addr, t);
    if addr != 0 {
      PacedRound(off, n, tot, m, t, Next(sb, t, ind, ind1, mapped, addr), mapped);
    }
  }

  lemma FirstBlockMapped(blk: Disk, ip: Inode, off: nat)
    requires MappedTo(blk, ip, ip.size) && off <= ip.size && off < MAXBYTES
    ensures off % BSIZE != 0 ==> FileBlock(blk, ip, off / BSIZE) != 0
  {
    assert off % BSIZE != 0 ==> (off / BSIZE) * BSIZE < ip.size;
  }

  lemma RoundsBound(off: nat, n: nat, rounds: nat)
    requires n <= 3 * BSIZE && rounds > 0 && (off / BSIZE + rounds - 1) * BSIZE < off + n
    ensures rounds <= 4 && (off % BSIZE == 0 ==> rounds <= 3)
  {
  }

  /** The most blocks one writei logs before it comes to its inode's block:
      four data blocks, a bitmap block for each of up to four allocations (but
      no more than the disk has), and the indirect block. */
  function MostBlocks(sb: Super): nat {
    var bitmaps := (if sb.size == 0 then 0 else (sb.size - 1) / BPB) + 1;
    5 + (if bitmaps < 4 then bitmaps else 4)
  }

  lemma BitmapsBound(sb: Super, bitmaps: set<nat>)
    requires sb.size > 0 && forall x :: x in bitmaps ==> InBitmap(sb, x)
    ensures |bitmaps| <= (sb.size - 1) / BPB + 1
  {
    CardRange(bitmaps, sb.bmapstart, (sb.size - 1) / BPB + 1);
  }

  lemma FootprintBound(sb: Super, made: set<nat>, ind0: nat, ind: nat, t: Tally, off: nat, n: nat, tot: nat)
    requires Footprint(sb, made, ind0, ind, t) && Paced(off, n, tot, t) && sb.size > 0
    ensures n <= 3 * BSIZE ==> |made| <= MostBlocks(sb)
  {
    if n <= 3 * BSIZE {
      if t.rounds > 0 {
        RoundsBound(off, n, t.rounds);
      }
      assert t.rounds + t.newly <= 7;
      BitmapsBound(sb, t.bitmaps);
      var i := if ind != 0 then {ind} else {};
      L.MoreBlocks(made, t.data + t.bitmaps + i);
      CardUnion(t.data, t.bitmaps);
      CardUnion(t.data + t.bitmaps, i);
    }
  }

  /** All calls but the last touch at most MostBlocks(sb) blocks. */
  ghost predicate WithinBudget(sb: Super, made: seq<nat>) {
    made != [] && |L.Blocks(made[..|made| - 1])| <= MostBlocks(sb)
  }

  /** What this means for the log: an operation that consists of one writei of
      at most three blocks' length never meets log_write's size panic, whatever
      the other operations within their budgets do, if log.size exceeds
      LOGSIZE; and with the log that mkfs makes, on every disk with at most
      three bitmap blocks. */
  lemma WriteMeetsNoSizePanic(sb: Super, made: seq<nat>, size: nat)
    requires WithinBudget(sb, made)
    requires size > L.LOGSIZE || (size == L.LOGSIZE && sb.size <= 3 * BPB)
    ensures L.OperationSafe(size, made)
  {
    L.OperationSafeIff(size, made);
  }

  lemma OthersAndOne(blk0: Disk, ino0: seq<Inode>, blk: Disk, ino: seq<Inode>, i: nat)
    requires Others(blk0, ino0, blk, ino, i) && i < |ino| && HoleFree(blk, ino[i])
    ensures AllHoleFree(blk, ino)
  {
  }

  /** Setting the size of an inode without addresses to zero ends a truncation. */
  lemma Emptied(sb: Super, blk0: Disk, ino0: seq<Inode>, blk: Disk, ino: seq<Inode>, owner: Owner, i: nat)
    requires Own(sb, blk, ino, owner, 0, 0) && i < |ino| && Others(blk0, ino0, blk, ino, i)
    ensures var ino1 := ino[i := ino[i].(size := 0)];
            Own(sb, blk, ino1, owner, 0, 0) && AllHoleFree(blk, ino1) && Others(blk0, ino0, blk, ino1, i)
  {
    var ino1 := ino[i := ino[i].(size := 0)];
    ResizeKeepsOwn(sb, blk, ino, owner, i, 0);
    EmptyFile(blk, ino1[i]);
    assert Others(blk0, ino0, blk, ino1, i);
    OthersAndOne(blk0, ino0, blk, ino1, i);
  }

  lemma SliceJoin(f: seq<Byte>, lo: nat, mid: nat, hi: nat)
    requires lo <= mid <= hi <= |f|
    ensures f[lo..mid] + f[mid..hi] == f[lo..hi]
  {
  }

  lemma SpliceSlice(f: seq<Byte>, off: nat, d: seq<Byte>)
    requires off <= |f|
    ensures off + |d| <= |Splice(f, off, d)| && Splice(f, off, d)[off..off + |d|] == d
  {
  }

  lemma ReadFits(off: nat, n: nat, size: nat)
    requires off + n <= size < UINT
    ensures (off + n) % UINT == off + n
  {
  }

  lemma ReadPiece(blk: Disk, ip: Inode, at: nat, m: nat, piece: seq<Byte>)
    requires HoleFree(blk, ip) && at + m <= ip.size && at % BSIZE + m <= BSIZE && at < MAXBYTES
    requires 0 < FileBlock(blk, ip, at / BSIZE) < |blk|
    requires piece == blk[FileBlock(blk, ip, at / BSIZE)][at % BSIZE..at % BSIZE + m]
    ensures piece == Flat(blk, ip)[at..at + m]
  {
    forall k | 0 <= k < m ensures piece[k] == ByteAt(blk, ip, at + k) {
      SameBlock(at, m, at + k);
    }
  }

  /** Only blocks of inode i have gone. */
  ghost predicate Shrunk(owner: Owner, owner0: Owner, i: nat) {
    && (forall b :: b in owner ==> b in owner0 && owner0[b] == owner[b])
    && (forall b :: b in owner0 && b !in owner ==> owner0[b].0 == i)
  }

  /** Everything bfree of entry j needs and brings about. */
  lemma EntryFreed(sb: Super, blk0: Disk, ino0: seq<Inode>, blk: Disk, ino: seq<Inode>, owner: Owner, owner0: Owner,
                   i: nat, j: nat)
    requires Own(sb, blk, ino, owner, i, j) && i < |ino| && j < NINDIRECT && ino[i].addrs[NDIRECT] != 0
    requires Others(blk0, ino0, blk, ino, i) && Shrunk(owner, owner0, i)
    ensures ino[i].addrs[NDIRECT] < |blk|
    ensures var b := WordAt(blk[ino[i].addrs[NDIRECT]], j);
            if b == 0 then Own(sb, blk, ino, owner, i, j + 1)
            else && b < sb.size && sb.BBlock(b) < |blk| && Marked(sb, blk, b)
                 && Own(sb, Free(sb, blk, b), ino, owner - {b}, i, j + 1)
                 && Others(blk0, ino0, Free(sb, blk, b), ino, i) && Shrunk(owner - {b}, owner0, i)
  {
    var a := ino[i].addrs[NDIRECT];
    assert a == Ref(blk, ino[i], NDIRECT) && a in owner;
    FreeEntry(sb, blk, ino, owner, i, j);
    var b := Ref(blk, ino[i], NDIRECT + 1 + j);
    if b != 0 {
      OthersAfterFree(sb, blk0, ino0, blk, ino, owner, i, j, b, i, ino);
    }
  }

  /** No entry of inode i's indirect block is dead yet. */
  lemma NoneDead(sb: Super, blk: Disk, ino: seq<Inode>, owner: Owner, i: nat)
    requires Own(sb, blk, ino, owner, 0, 0)
    ensures Own(sb, blk, ino, owner, i, 0)
  {
  }

  lemma IndirectFreed(sb: Super, blk0: Disk, ino0: seq<Inode>, blk: Disk, ino: seq<Inode>, owner: Owner,
                      owner0: Owner, i: nat)
    requires Own(sb, blk, ino, owner, i, NINDIRECT) && i < |ino| && ino[i].addrs[NDIRECT] != 0
    requires Others(blk0, ino0, blk, ino, i) && Shrunk(owner, owner0, i)
    ensures var b, ino1 := ino[i].addrs[NDIRECT], ino[i := ino[i].(addrs := ino[i].addrs[NDIRECT := 0])];
            && b < sb.size && sb.BBlock(b) < |blk| && Marked(sb, blk, b)
            && Own(sb, Free(sb, blk, b), ino1, owner - {b}, 0, 0)
            && Others(blk0, ino0, Free(sb, blk, b), ino1, i) && Shrunk(owner - {b}, owner0, i)
  {
    var b := ino[i].addrs[NDIRECT];
    assert b == Ref(blk, ino[i], NDIRECT);
    FreeIndirect(sb, blk, ino, owner, i);
    OthersAfterFree(sb, blk0, ino0, blk, ino, owner, i, NINDIRECT, b, i,
                    ino[i := ino[i].(addrs := ino[i].addrs[NDIRECT := 0])]);
  }

  // ----- what a change of one file leaves alone -----

  /** The state that the functions change. */
  datatype Snap = Snap(blk: Disk, ino: seq<Inode>, calls: seq<nat>)

  /** Only the size and the addresses may differ. */
  predicate SameHead(a: Inode, b: Inode) {
    a.kind == b.kind && a.major == b.major && a.minor == b.minor && a.nlink == b.nlink
  }

  ghost predicate OnlyInode(ino0: seq<Inode>, ino: seq<Inode>, i: nat) {
    && |ino| == |ino0| && (i < |ino| ==> SameHead(ino0[i], ino[i]))
    && forall j :: 0 <= j < |ino| && j != i ==> ino[j] == ino0[j]
  }

  ghost predicate SameOrLogged(blk0: Disk, calls0: seq<nat>, blk: Disk, calls: seq<nat>, b: nat) {
    SameAt(blk0, blk, b) || (|calls0| <= |calls| && b in calls[|calls0|..])
  }

  /** Every block that has changed has been passed to log_write. */
  ghost predicate AllLogged(blk0: Disk, calls0: seq<nat>, blk: Disk, calls: seq<nat>) {
    && calls0 <= calls && |blk| == |blk0|
    && forall b: nat :: b < |blk| ==> SameOrLogged(blk0, calls0, blk, calls, b)
  }

  /** Only inode i has changed, in its size and addresses, no block before the
      bitmap has, and every block that has is logged. */
  ghost predicate Steady(sb: Super, i: nat, was: Snap, now: Snap) {
    && InodesKept(sb, was.blk, now.blk) && AllLogged(was.blk, was.calls, now.blk, now.calls)
    && OnlyInode(was.ino, now.ino, i)
  }

  lemma LoggedTrans(blk0: Disk, calls0: seq<nat>, blk1: Disk, calls1: seq<nat>, blk2: Disk, calls2: seq<nat>)
    requires AllLogged(blk0, calls0, blk1, calls1) && AllLogged(blk1, calls1, blk2, calls2)
    ensures AllLogged(blk0, calls0, blk2, calls2)
  {
    forall b: nat | b < |blk2| ensures SameOrLogged(blk0, calls0, blk2, calls2, b) {
      assert SameOrLogged(blk0, calls0, blk1, calls1, b) && SameOrLogged(blk1, calls1, blk2, calls2, b);
      assert calls2[|calls0|..] == calls1[|calls0|..] + calls2[|calls1|..];
    }
  }

  lemma SteadyTrans(sb: Super, i: nat, a: Snap, b: Snap, c: Snap)
    requires Steady(sb, i, a, b) && Steady(sb, i, b, c)
    ensures Steady(sb, i, a, c)
  {
    KeptTrans(sb, a.blk, b.blk, c.blk);
    LoggedTrans(a.blk, a.calls, b.blk, b.calls, c.blk, c.calls);
  }

  lemma NothingLogged(blk: Disk, calls: seq<nat>)
    ensures AllLogged(blk, calls, blk, calls)
  {
    forall b: nat | b < |blk| ensures SameOrLogged(blk, calls, blk, calls, b) {
      assert SameAt(blk, blk, b);
    }
  }

  lemma SteadySame(sb: Super, i: nat, was: Snap, now: Snap)
    requires now.blk == was.blk && now.calls == was.calls && OnlyInode(was.ino, now.ino, i)
    ensures Steady(sb, i, was, now)
  {
    NothingLogged(was.blk, was.calls);
  }

  lemma SteadyResize(sb: Super, i: nat, was: Snap, now: Snap, size: nat)
    requires Steady(sb, i, was, now) && i < |now.ino|
    ensures Steady(sb, i, was, now.(ino := now.ino[i := now.ino[i].(size := size)]))
  {
  }

  /** A write and its log_write. */
  lemma WriteLogged(blk: Disk, calls: seq<nat>, a: nat, data: Block)
    requires a < |blk|
    ensures AllLogged(blk, calls, blk[a := data], calls + [a])
  {
    var blk1, calls1 := blk[a := data], calls + [a];
    forall b: nat | b < |blk1| ensures SameOrLogged(blk, calls, blk1, calls1, b) {
      assert b != a ==> SameAt(blk, blk1, b);
    }
  }

  lemma AllocLogged(sb: Super, blk: Disk, calls: seq<nat>, b: nat)
    requires b < |blk| && sb.BBlock(b) < |blk|
    ensures AllLogged(blk, calls, Alloc(sb, blk, b), calls + [sb.BBlock(b), b])
  {
    var blk1, calls1 := Alloc(sb, blk, b), calls + [sb.BBlock(b), b];
    forall c: nat | c < |blk1| ensures SameOrLogged(blk, calls, blk1, calls1, c) {
      assert c != b && c != sb.BBlock(b) ==> SameAt(blk, blk1, c);
    }
  }

  lemma BitPosition(sb: Super, b: nat, q: nat, bi: nat)
    requires b == BPB * q && bi < BPB
    ensures sb.BBlock(b + bi) == sb.BBlock(b) && (b + bi) % BPB == bi
  {
  }

  class FileSystem {
    const sb: Super
    var blk: Disk
    var ino: seq<Inode>
    ghost var owner: Owner
    ghost var calls: seq<nat>

    ghost function Now(): Snap
      reads this
    {
      Snap(blk, ino, calls)
    }

    ghost predicate Owned()
      reads this
    {
      Own(sb, blk, ino, owner, 0, 0)
    }

    ghost predicate Valid()
      reads this
    {
      Owned() && AllHoleFree(blk, ino)
    }

    /** The first free block, marked and zeroed; 0 when there is none (or when
        block 0 itself was free). */
    method Balloc() returns (r: nat)
      requires sb.Ok() && |blk| == sb.size
      modifies this`blk, this`calls
      ensures Full(sb, old(blk)) ==> r == 0 && blk == old(blk) && calls == old(calls)
      ensures !Full(sb, old(blk)) ==>
                && r < sb.size && !Marked(sb, old(blk), r) && (forall c: nat :: c < r ==> Marked(sb, old(blk), c))
                && sb.BBlock(r) < |old(blk)| && blk == Alloc(sb, old(blk), r)
                && calls == old(calls) + [sb.BBlock(r), r]
    {
      var b := 0;
      ghost var q := 0;
      while b < sb.size
        invariant b == BPB * q && blk == old(blk) && calls == old(calls)
        invariant forall c: nat :: c < b && c < sb.size ==> Marked(sb, blk, c)
        decreases sb.size + BPB - b
      {
        BBlockInMeta(sb, b);
        var bp := blk[sb.BBlock(b)];
        var bi := 0;
        while bi < BPB && b + bi < sb.size
          invariant 0 <= bi <= BPB && blk == old(blk) && calls == old(calls)
          invariant forall c: nat :: c < b + bi && c < sb.size ==> Marked(sb, blk, c)
        {
          BitPosition(sb, b, q, bi);
          assert Marked(sb, blk, b + bi) <==> BitAt(bp, bi);
          if !BitAt(bp, bi) {
            r := b + bi;
            BBlockInMeta(sb, r);
            blk := blk[sb.BBlock(b) := SetBitAt(bp, bi)];
            blk := blk[r := ZeroBlock()];
            calls := calls + [sb.BBlock(b), r];
            return;
          }
          bi := bi + 1;
        }
        b := b + BPB;
        q := q + 1;
      }
      r := 0;
    }

    /** balloc where the metadata is marked, as it is under the ownership invariant. */
    method AllocBlock() returns (r: nat)
      requires Owned()
      modifies this`blk, this`calls
      ensures r == 0 ==> blk == old(blk) && calls == old(calls) && Full(sb, blk)
      ensures r != 0 ==> sb.DataStart() <= r < sb.size && !Marked(sb, old(blk), r) && r !in owner
      ensures r != 0 ==> sb.BBlock(r) < |old(blk)| && blk == Alloc(sb, old(blk), r)
                         && calls == old(calls) + [sb.BBlock(r), r] && InodesKept(sb, old(blk), blk)
      ensures AllLogged(old(blk), old(calls), blk, calls)
    {
      r := Balloc();
      assert Marked(sb, old(blk), 0);
      if r != 0 {
        assert r >= sb.DataStart();
        KeptAlloc(sb, old(blk), r);
        AllocLogged(sb, old(blk), old(calls), r);
      } else {
        NothingLogged(blk, calls);
      }
    }

    /** False stands for the panic "freeing free block". */
    method Bfree(b: nat) returns (ok: bool)
      requires sb.Ok() && |blk| == sb.size && b < sb.size
      modifies this`blk, this`calls
      ensures sb.BBlock(b) < |old(blk)|
      ensures ok <==> Marked(sb, old(blk), b)
      ensures ok ==> blk == Free(sb, old(blk), b) && calls == old(calls) + [sb.BBlock(b)]
      ensures !ok ==> blk == old(blk) && calls == old(calls)
    {
      BBlockInMeta(sb, b);
      var bp := blk[sb.BBlock(b)];
      var bi := b % BPB;
      if !BitAt(bp, bi) {
        return false;
      }
      blk := blk[sb.BBlock(b) := ClearBitAt(bp, bi)];
      calls := calls + [sb.BBlock(b)];
      ok := true;
    }

    /** bfree of a block in use. */
    method FreeLogged(b: nat) returns (ok: bool)
      requires sb.Ok() && |blk| == sb.size && b < sb.size && Marked(sb, blk, b)
      modifies this`blk, this`calls
      ensures ok && sb.BBlock(b) < |old(blk)| && blk == Free(sb, old(blk), b)
      ensures InodesKept(sb, old(blk), blk) && AllLogged(old(blk), old(calls), blk, calls)
    {
      ok := Bfree(b);
      KeptFree(sb, old(blk), b);
      WriteLogged(old(blk), old(calls), sb.BBlock(b), blk[sb.BBlock(b)]);
    }

    /** Copies inode i into its 64 bytes of its inode block: ilock would read
        back exactly this inode, every other inode on disk stays as it is, and so
        does everything the files hold. */
    method Iupdate(i: nat)
      requires Owned() && i < |ino| && ino[i].size < UINT
      modifies this`blk, this`calls
      ensures Owned() && AllKeep(old(blk), ino, blk, ino)
      ensures Synced(i) && forall j :: 0 <= j < |ino| && j != i ==> KeptOnDisk(old(blk), j)
      ensures calls == old(calls) + [sb.IBlock(i)]
      ensures AllLogged(old(blk), old(calls), blk, calls) && KeptBut(old(blk), sb.IBlock(i))
    {
      IBlockInMeta(sb, i);
      OwnStorable(sb, blk, ino, owner, i);
      var bp := StoreInode(blk[sb.IBlock(i)], i % IPB, ino[i]);
      InodeWriteKeepsOwn(sb, blk, ino, owner, i, bp);
      InodeWriteKeeps(sb, blk, ino, owner, i, bp);
      forall j | 0 <= j < |ino| && j != i ensures sb.IBlock(j) < |blk| && OnDisk(sb, blk[sb.IBlock(i) := bp], j) == OnDisk(sb, blk, j) {
        IBlockInMeta(sb, j);
        OnDiskElsewhere(sb, blk, i, bp, j);
      }
      blk := blk[sb.IBlock(i) := bp];
      calls := calls + [sb.IBlock(i)];
      WriteLogged(old(blk), old(calls), sb.IBlock(i), bp);
    }

    /** No block before the bitmap has changed but possibly this one. */
    ghost predicate KeptBut(blk0: Disk, a: nat)
      reads this
    {
      |blk| == |blk0| && forall b: nat :: b < |blk| && b < sb.bmapstart && b != a ==> SameAt(blk0, blk, b)
    }

    /** The other inodes are as they were, inode i keeps its kind, numbers and
        links, no block before the bitmap but its own inode block has changed,
        and every block that has is logged. */
    ghost predicate Confined(i: nat, was: Snap)
      reads this
    {
      && OnlyInode(was.ino, ino, i) && AllLogged(was.blk, was.calls, blk, calls)
      && KeptBut(was.blk, sb.IBlock(i))
    }

    /** Inode i on disk is the one in memory. */
    ghost predicate Synced(i: nat)
      reads this
    {
      i < |ino| && sb.IBlock(i) < |blk| && OnDisk(sb, blk, i) == ino[i]
    }

    /** Inode j on disk is as it was. */
    ghost predicate KeptOnDisk(blk0: Disk, j: nat)
      reads this
    {
      sb.IBlock(j) < |blk| == |blk0| && OnDisk(sb, blk, j) == OnDisk(sb, blk0, j)
    }

    /** Fills address s of inode i if it is empty. */
    method MapAddr(i: nat, s: nat) returns (addr: nat)
      requires Owned() && i < |ino| && s <= NDIRECT
      modifies this`blk, this`ino, this`owner, this`calls
      ensures Owned() && AllKeep(old(blk), old(ino), blk, ino) && Steady(sb, i, old(Now()), Now())
      ensures ino[i].addrs[s] == addr && (addr == 0 ==> Full(sb, blk))
      ensures addr == 0 || old(ino[i].addrs[s]) != 0 ==>
                blk == old(blk) && ino == old(ino) && owner == old(owner)
      ensures forall t :: 0 <= t <= NDIRECT && t != s ==> ino[i].addrs[t] == old(ino[i].addrs[t])
      ensures calls == old(calls) + AddrLog(sb, old(ino[i].addrs[s]) != 0, addr)
      ensures s == NDIRECT && old(ino[i].addrs[s]) == 0 && addr != 0 ==>
                forall j :: 0 <= j < NINDIRECT ==> Entry(blk, addr, j) == 0
    {
      addr := ino[i].addrs[s];
      KeepsRefl(sb, blk, ino, owner);
      SteadySame(sb, i, Now(), Now());
      if addr == 0 {
        addr := AllocBlock();
        if addr == 0 {
          return;
        }
        LinkAddr(sb, old(blk), ino, owner, addr, i, s);
        ino := ino[i := ino[i].(addrs := ino[i].addrs[s := addr])];
        owner := owner[addr := (i, s)];
        LinkedKeeps(sb, old(blk), old(ino), old(owner), addr, i, s, blk, ino);
        forall j | 0 <= j < NINDIRECT ensures Entry(blk, addr, j) == 0 {
          FreshEntries(sb, old(blk), addr, j);
        }
      }
    }

    /** Fills entry j of inode i's indirect block if it is empty. */
    method MapEntry(i: nat, j: nat) returns (addr: nat)
      requires Owned() && i < |ino| && j < NINDIRECT && ino[i].addrs[NDIRECT] != 0
      modifies this`blk, this`owner, this`calls
      ensures Owned() && AllKeep(old(blk), old(ino), blk, ino) && Steady(sb, i, old(Now()), Now())
      ensures Entry(blk, ino[i].addrs[NDIRECT], j) == addr && (addr == 0 ==> Full(sb, blk))
      ensures addr == 0 || Entry(old(blk), ino[i].addrs[NDIRECT], j) != 0 ==>
                blk == old(blk) && owner == old(owner)
      ensures calls == old(calls) + EntryLog(sb, Entry(old(blk), ino[i].addrs[NDIRECT], j) != 0, addr, ino[i].addrs[NDIRECT])
    {
      var a := ino[i].addrs[NDIRECT];
      assert a == Ref(blk, ino[i], NDIRECT) && a in owner;
      KeepsRefl(sb, blk, ino, owner);
      SteadySame(sb, i, Now(), Now());
      Appended(calls, [], []);
      addr := WordAt(blk[a], j);
      if addr == 0 {
        addr := FillEntry(i, j, a);
      }
    }

    /** balloc for an empty entry j of inode i's indirect block a. */
    method FillEntry(i: nat, j: nat, a: nat) returns (addr: nat)
      requires Owned() && i < |ino| && j < NINDIRECT && a == ino[i].addrs[NDIRECT] && 0 < a < |blk| && Entry(blk, a, j) == 0
      modifies this`blk, this`owner, this`calls
      ensures addr == 0 ==> blk == old(blk) && owner == old(owner) && Full(sb, blk)
      ensures addr != 0 ==> Owned() && AllKeep(old(blk), ino, blk, ino) && Entry(blk, a, j) == addr
      ensures Steady(sb, i, old(Now()), Now())
      ensures calls == old(calls) + EntryLog(sb, false, addr, a)
    {
      Appended(calls, [], []);
      var bp := blk[a];
      addr := AllocBlock();
      SteadySame(sb, i, old(Now()), old(Now()));
      if addr != 0 {
        ghost var mid := Now();
        EntryLinked(sb, old(blk), ino, owner, addr, i, j);
        blk := blk[a := SetWordAt(bp, j, addr)];
        assert blk == AllocEntry(sb, old(blk), addr, a, j);
        calls := calls + [a];
        Appended(old(calls), [sb.BBlock(addr), addr], [a]);
        WriteLogged(mid.blk, mid.calls, a, SetWordAt(bp, j, addr));
        LoggedTrans(old(blk), old(calls), mid.blk, mid.calls, blk, calls);
        owner := owner[addr := (i, NDIRECT + 1 + j)];
      }
    }

    /** The disk block of block bn of file i, allocated if need be; 0 when the disk is full. */
    method Bmap(i: nat, bn: nat) returns (addr: nat)
      requires Owned() && i < |ino| && bn < MAXFILE
      modifies this`blk, this`ino, this`owner, this`calls
      ensures Owned() && AllKeep(old(blk), old(ino), blk, ino) && Steady(sb, i, old(Now()), Now())
      ensures FileBlock(blk, ino[i], bn) == addr && (addr == 0 ==> Full(sb, blk))
      ensures FileBlock(old(blk), old(ino[i]), bn) != 0 ==>
                blk == old(blk) && ino == old(ino) && owner == old(owner) && calls == old(calls)
      ensures old(ino[i].addrs[NDIRECT]) != 0 ==> ino[i].addrs[NDIRECT] == old(ino[i].addrs[NDIRECT])
      ensures calls == old(calls) + MapLog(sb, old(ino[i].addrs[NDIRECT]), ino[i].addrs[NDIRECT], bn,
                                             FileBlock(old(blk), old(ino[i]), bn) != 0, addr)
    {
      if bn < NDIRECT {
        addr := MapAddr(i, bn);
      } else {
        addr := MapFar(i, bn - NDIRECT);
      }
    }

    /** bmap through the indirect block, which is allocated first if need be. */
    method MapFar(i: nat, j: nat) returns (addr: nat)
      requires Owned() && i < |ino| && j < NINDIRECT
      modifies this`blk, this`ino, this`owner, this`calls
      ensures Owned() && AllKeep(old(blk), old(ino), blk, ino) && Steady(sb, i, old(Now()), Now())
      ensures Entry(blk, ino[i].addrs[NDIRECT], j) == addr && (addr == 0 ==> Full(sb, blk))
      ensures Entry(old(blk), old(ino[i].addrs[NDIRECT]), j) != 0 ==> blk == old(blk) && ino == old(ino) && owner == old(owner)
      ensures old(ino[i].addrs[NDIRECT]) != 0 ==> ino[i].addrs[NDIRECT] == old(ino[i].addrs[NDIRECT])
      ensures calls == old(calls) + (AddrLog(sb, old(ino[i].addrs[NDIRECT]) != 0, ino[i].addrs[NDIRECT])
                                     + EntryLog(sb, Entry(old(blk), old(ino[i].addrs[NDIRECT]), j) != 0, addr,
                                                ino[i].addrs[NDIRECT]))
    {
      var a := MapAddr(i, NDIRECT);
      if a == 0 {
        return 0;
      }
      ghost var mid := Now();
      addr := MapEntry(i, j);
      MapTrans(sb, old(blk), old(ino), mid.blk, mid.ino, blk, ino);
      SteadyTrans(sb, i, old(Now()), mid, Now());
      Appended(old(calls), AddrLog(sb, old(ino[i].addrs[NDIRECT]) != 0, a),
               EntryLog(sb, Entry(old(blk), old(ino[i].addrs[NDIRECT]), j) != 0, addr, a));
    }

    /** Discards the contents of file i.  False stands for bfree's panic. */
    method Itrunc(i: nat) returns (ok: bool)
      requires Valid() && i < |ino|
      modifies this
      ensures ok && Valid() && |ino| == |old(ino)|
      ensures ino[i].size == 0 && forall s :: 0 <= s <= NDIRECT ==> ino[i].addrs[s] == 0
      ensures Others(old(blk), old(ino), blk, ino, i)
      ensures forall b :: b in owner <==> b in old(owner) && old(owner)[b].0 != i
      ensures Synced(i) && forall j :: 0 <= j < |ino| && j != i ==> KeptOnDisk(old(blk), j)
      ensures Confined(i, old(Now()))
    {
      ok := Empty(i);
      Save(i, old(Now()));
    }

    /** Everything itrunc does before iupdate. */
    method Empty(i: nat) returns (ok: bool)
      requires Valid() && i < |ino|
      modifies this`blk, this`ino, this`owner, this`calls
      ensures ok && Valid() && Others(old(blk), old(ino), blk, ino, i) && Steady(sb, i, old(Now()), Now())
      ensures ino[i].size == 0 && forall s :: 0 <= s <= NDIRECT ==> ino[i].addrs[s] == 0
      ensures forall b :: b in owner <==> b in old(owner) && old(owner)[b].0 != i
    {
      ok := FreeBlocks(i);
      NothingOwned(sb, blk, ino, owner, old(owner), i);
      Emptied(sb, old(blk), old(ino), blk, ino, owner, i);
      SteadyResize(sb, i, old(Now()), Now(), 0);
      ino := ino[i := ino[i].(size := 0)];
    }

    /** iupdate at the end of a change to inode i. */
    method Save(i: nat, ghost was: Snap)
      requires Owned() && i < |ino| && AllHoleFree(blk, ino)
      requires Others(was.blk, was.ino, blk, ino, i) && Steady(sb, i, was, Now())
      modifies this`blk, this`calls
      ensures Valid() && Others(was.blk, was.ino, blk, ino, i)
      ensures HoleFree(old(blk), ino[i]) && Flat(blk, ino[i]) == Flat(old(blk), ino[i])
      ensures Synced(i) && forall j :: 0 <= j < |ino| && j != i ==> KeptOnDisk(was.blk, j)
      ensures AllLogged(was.blk, was.calls, blk, calls) && KeptBut(was.blk, sb.IBlock(i))
      ensures calls == old(calls) + [sb.IBlock(i)]
    {
      assert HoleFree(blk, ino[i]);
      forall j | 0 <= j < |ino| && j != i ensures sb.IBlock(j) < |blk| && OnDisk(sb, blk, j) == OnDisk(sb, was.blk, j) {
        KeptInode(sb, was.blk, blk, j);
      }
      Iupdate(i);
      KeepsAll(old(blk), ino, blk, ino);
      LoggedTrans(was.blk, was.calls, old(blk), old(calls), blk, calls);
      forall j | 0 <= j < |ino| && j != i ensures KeptOnDisk(was.blk, j) {
        assert KeptOnDisk(old(blk), j);
      }
      forall b: nat | b < |blk| && b < sb.bmapstart && b != sb.IBlock(i) ensures SameAt(was.blk, blk, b) {
        assert SameAt(was.blk, old(blk), b) && SameAt(old(blk), blk, b);
      }
    }

    /** Everything itrunc does before it sets the size. */
    method FreeBlocks(i: nat) returns (ok: bool)
      requires Valid() && i < |ino|
      modifies this`blk, this`ino, this`owner, this`calls
      ensures ok && Owned() && Others(old(blk), old(ino), blk, ino, i) && Shrunk(owner, old(owner), i)
      ensures Steady(sb, i, old(Now()), Now())
      ensures forall s :: 0 <= s <= NDIRECT ==> ino[i].addrs[s] == 0
    {
      ok := FreeDirects(i);
      if ino[i].addrs[NDIRECT] != 0 {
        ghost var mid := Now();
        ok := FreeEntries(i, old(blk), old(ino), old(owner));
        SteadyTrans(sb, i, old(Now()), mid, Now());
      }
    }

    /** itrunc's first loop. */
    method FreeDirects(i: nat) returns (ok: bool)
      requires Valid() && i < |ino|
      modifies this`blk, this`ino, this`owner, this`calls
      ensures ok && Owned() && Others(old(blk), old(ino), blk, ino, i) && Shrunk(owner, old(owner), i)
      ensures Steady(sb, i, old(Now()), Now())
      ensures forall s :: 0 <= s < NDIRECT ==> ino[i].addrs[s] == 0
    {
      SteadySame(sb, i, Now(), Now());
      ok := true;
      var k := 0;
      while k < NDIRECT
        invariant 0 <= k <= NDIRECT && Owned() && |ino| == |old(ino)| && ok
        invariant Others(old(blk), old(ino), blk, ino, i)
        invariant forall s :: 0 <= s < k ==> ino[i].addrs[s] == 0
        invariant Shrunk(owner, old(owner), i) && Steady(sb, i, old(Now()), Now())
      {
        if ino[i].addrs[k] != 0 {
          ghost var mid := Now();
          ok := FreeAddr(i, k, old(blk), old(ino));
          SteadyTrans(sb, i, old(Now()), mid, Now());
        }
        k := k + 1;
      }
    }

    /** bfree of a direct address, then clearing it. */
    method FreeAddr(i: nat, s: nat, ghost blk0: Disk, ghost ino0: seq<Inode>) returns (ok: bool)
      requires Owned() && i < |ino| && s < NDIRECT && ino[i].addrs[s] != 0 && Others(blk0, ino0, blk, ino, i)
      modifies this`blk, this`ino, this`owner, this`calls
      ensures ok && Owned() && Others(blk0, ino0, blk, ino, i) && Steady(sb, i, old(Now()), Now())
      ensures ino == old(ino)[i := old(ino)[i].(addrs := old(ino)[i].addrs[s := 0])]
      ensures Shrunk(owner, old(owner), i)
    {
      var b := ino[i].addrs[s];
      FreeDirect(sb, blk, ino, owner, i, s);
      assert b == Ref(blk, ino[i], s);
      ghost var ino1 := ino[i := ino[i].(addrs := ino[i].addrs[s := 0])];
      OthersAfterFree(sb, blk0, ino0, blk, ino, owner, 0, 0, b, i, ino1);
      ok := FreeLogged(b);
      ino := ino[i := ino[i].(addrs := ino[i].addrs[s := 0])];
      owner := owner - {b};
    }

    method FreeOneEntry(i: nat, j: nat, ghost blk0: Disk, ghost ino0: seq<Inode>, ghost owner0: Owner) returns (ok: bool)
      requires Own(sb, blk, ino, owner, i, j) && i < |ino| && j < NINDIRECT && ino[i].addrs[NDIRECT] != 0
      requires Others(blk0, ino0, blk, ino, i) && Shrunk(owner, owner0, i)
      modifies this`blk, this`owner, this`calls
      ensures ok && Own(sb, blk, ino, owner, i, j + 1) && Steady(sb, i, old(Now()), Now())
      ensures Others(blk0, ino0, blk, ino, i) && Shrunk(owner, owner0, i)
    {
      EntryFreed(sb, blk0, ino0, blk, ino, owner, owner0, i, j);
      var b := WordAt(blk[ino[i].addrs[NDIRECT]], j);
      SteadySame(sb, i, Now(), Now());
      ok := true;
      if b != 0 {
        ok := FreeLogged(b);
        owner := owner - {b};
      }
    }

    /** itrunc's second half: the entries of the indirect block, then the block itself. */
    method FreeEntries(i: nat, ghost blk0: Disk, ghost ino0: seq<Inode>, ghost owner0: Owner) returns (ok: bool)
      requires Owned() && i < |ino| && ino[i].addrs[NDIRECT] != 0
      requires Others(blk0, ino0, blk, ino, i) && Shrunk(owner, owner0, i)
      modifies this`blk, this`ino, this`owner, this`calls
      ensures ok && Owned() && Others(blk0, ino0, blk, ino, i) && Shrunk(owner, owner0, i)
      ensures Steady(sb, i, old(Now()), Now())
      ensures ino == old(ino)[i := old(ino)[i].(addrs := old(ino)[i].addrs[NDIRECT := 0])]
    {
      SteadySame(sb, i, Now(), Now());
      NoneDead(sb, blk, ino, owner, i);
      ok := true;
      var j := 0;
      while j < NINDIRECT
        invariant 0 <= j <= NINDIRECT && ok && ino == old(ino)
        invariant Own(sb, blk, ino, owner, i, j) && Steady(sb, i, old(Now()), Now())
        invariant Others(blk0, ino0, blk, ino, i) && Shrunk(owner, owner0, i)
      {
        ghost var mid := Now();
        ok := FreeOneEntry(i, j, blk0, ino0, owner0);
        SteadyTrans(sb, i, old(Now()), mid, Now());
        j := j + 1;
      }
      ghost var mid := Now();
      ok := FreeIndirectBlock(i, blk0, ino0, owner0);
      SteadyTrans(sb, i, old(Now()), mid, Now());
    }

    method FreeIndirectBlock(i: nat, ghost blk0: Disk, ghost ino0: seq<Inode>, ghost owner0: Owner) returns (ok: bool)
      requires Own(sb, blk, ino, owner, i, NINDIRECT) && i < |ino| && ino[i].addrs[NDIRECT] != 0
      requires Others(blk0, ino0, blk, ino, i) && Shrunk(owner, owner0, i)
      modifies this`blk, this`ino, this`owner, this`calls
      ensures ok && Owned() && Others(blk0, ino0, blk, ino, i) && Shrunk(owner, owner0, i)
      ensures Steady(sb, i, old(Now()), Now())
      ensures ino == old(ino)[i := old(ino)[i].(addrs := old(ino)[i].addrs[NDIRECT := 0])]
    {
      IndirectFreed(sb, blk0, ino0, blk, ino, owner, owner0, i);
      var a := ino[i].addrs[NDIRECT];
      ok := FreeLogged(a);
      ino := ino[i := ino[i].(addrs := ino[i].addrs[NDIRECT := 0])];
      owner := owner - {a};
    }

    /** The bytes [off, off + n) of file i, cut off at its end.  On a hole-free
        file bmap finds every block, so nothing is allocated or logged. */
    method Readi(i: nat, off: nat, n: nat) returns (r: seq<Byte>)
      requires Valid() && i < |ino| && off < UINT && n < UINT
      modifies this`blk, this`ino, this`owner, this`calls
      ensures blk == old(blk) && ino == old(ino) && owner == old(owner) && calls == old(calls)
      ensures off > ino[i].size || (off + n) % UINT < off ==> r == []
      ensures off <= ino[i].size && (off + n) % UINT >= off ==>
                r == Flat(blk, ino[i])[off..if off + n > ino[i].size then ino[i].size else off + n]
    {
      r := [];
      if off > ino[i].size || (off + n) % UINT < off {
        return;
      }
      var len := if off + n > ino[i].size then ino[i].size - off else n;
      assert HoleFree(blk, ino[i]);
      r := ReadRounds(i, off, len, Flat(blk, ino[i]));
    }

    /** f is what file i holds. */
    ghost predicate Holds(i: nat, f: seq<Byte>)
      reads this
    {
      i < |ino| && HoleFree(blk, ino[i]) && f == Flat(blk, ino[i])
    }

    /** readi's loop. */
    method ReadRounds(i: nat, off: nat, len: nat, ghost f: seq<Byte>) returns (r: seq<Byte>)
      requires Valid() && Holds(i, f) && off + len <= |f|
      modifies this`blk, this`ino, this`owner, this`calls
      ensures blk == old(blk) && ino == old(ino) && owner == old(owner) && calls == old(calls)
      ensures r == f[off..off + len]
    {
      r := [];
      var tot := 0;
      while tot < len
        invariant 0 <= tot <= len && Valid() && Holds(i, f) && |r| == tot
        invariant blk == old(blk) && ino == old(ino) && owner == old(owner) && calls == old(calls)
        invariant r == f[off..off + tot]
      {
        var piece := ReadBlock(i, off + tot, len - tot, f);
        SliceJoin(f, off, off + tot, off + tot + |piece|);
        r := r + piece;
        tot := tot + |piece|;
      }
    }

    /** One round of readi's loop: up to `len` bytes from `at` to the end of its block. */
    method ReadBlock(i: nat, at: nat, len: nat, ghost f: seq<Byte>) returns (piece: seq<Byte>)
      requires Valid() && Holds(i, f) && 0 < len && at + len <= |f|
      modifies this`blk, this`ino, this`owner, this`calls
      ensures Valid() && Holds(i, f)
      ensures blk == old(blk) && ino == old(ino) && owner == old(owner) && calls == old(calls)
      ensures 0 < |piece| <= len && piece == f[at..at + |piece|]
    {
      assert (at / BSIZE) * BSIZE < ino[i].size;
      var addr := Bmap(i, at / BSIZE);
      OwnedBlock(sb, blk, ino, owner, i, at / BSIZE);
      var m := if len < BSIZE - at % BSIZE then len else BSIZE - at % BSIZE;
      piece := blk[addr][at % BSIZE..at % BSIZE + m];
      ReadPiece(blk, ino[i], at, m, piece);
    }

    /** Writes `data` to file i at `off`; -1 on a bad range, else the number of
        bytes written, which is short only when the disk is full. */
    method Writei(i: nat, off: nat, data: seq<Byte>) returns (r: int)
      requires Valid() && i < |ino| && off < UINT && |data| < UINT
      modifies this
      ensures Valid() && |ino| == |old(ino)|
      ensures r == -1 <==> off > old(ino)[i].size || (off + |data|) % UINT < off || off + |data| > MAXBYTES
      ensures r == -1 ==> blk == old(blk) && ino == old(ino) && calls == old(calls)
      ensures r != -1 ==> 0 <= r <= |data| && off <= old(ino)[i].size <= MAXBYTES && |old(ino)[i].addrs| == NDIRECT + 1
                          && Flat(blk, ino[i]) == Splice(Flat(old(blk), old(ino)[i]), off, data[..r])
      ensures r != -1 ==> Others(old(blk), old(ino), blk, ino, i)
      ensures r != -1 ==> Synced(i) && forall j :: 0 <= j < |ino| && j != i ==> KeptOnDisk(old(blk), j)
      ensures r != -1 ==> ino[i].size == if off + r > old(ino)[i].size then off + r else old(ino)[i].size
      ensures Confined(i, old(Now()))
      ensures 0 <= r < |data| ==> Full(sb, blk)
      ensures old(calls) <= calls
      ensures r != -1 && |data| <= 3 * BSIZE ==> WithinBudget(sb, calls[|old(calls)|..])
    {
      SteadySame(sb, i, Now(), Now());
      if off > ino[i].size || (off + |data|) % UINT < off {
        return -1;
      }
      if off + |data| > MAXBYTES {
        return -1;
      }
      assert HoleFree(blk, ino[i]);
      WritingStarts(sb, blk, ino, owner, i, off, data);
      ghost var made;
      r, made := WriteRounds(i, off, data);
      FinishWrite(i, off, data, r, old(Now()));
      assert calls[|old(calls)|..] == made + [sb.IBlock(i)];
      assert calls[|old(calls)|..][..|made|] == made;
    }

    /** writei in the middle of its work. */
    ghost predicate InWrite(blk0: Disk, ino0: seq<Inode>, i: nat, off: nat, data: seq<Byte>, tot: nat)
      reads this
    {
      && i < |ino| && |ino[i].addrs| == NDIRECT + 1 && tot <= |data| && off + |data| <= MAXBYTES
      && Amid(3 + depth, blk0, ino0, i, off, data, tot)
    }

    ghost const depth: nat

    /** Writing, read through a depth that proofs leave open. */
    ghost predicate Amid(d: nat, blk0: Disk, ino0: seq<Inode>, i: nat, off: nat, data: seq<Byte>, tot: nat)
      reads this
      decreases d
    {
      if d == 0 then Writing(sb, blk0, ino0, blk, ino, owner, i, off, data, tot)
      else Amid(d - 1, blk0, ino0, i, off, data, tot)
    }

    lemma {:induction false} AmidIs(d: nat, blk0: Disk, ino0: seq<Inode>, i: nat, off: nat, data: seq<Byte>, tot: nat)
      ensures Amid(d, blk0, ino0, i, off, data, tot)
              <==> Writing(sb, blk0, ino0, blk, ino, owner, i, off, data, tot)
      decreases d
    {
      if d > 0 {
        AmidIs(d - 1, blk0, ino0, i, off, data, tot);
      }
    }

    /** writei's loop; it ends early when the disk is full. */
    method WriteRounds(i: nat, off: nat, data: seq<Byte>) returns (tot: nat, ghost made: seq<nat>)
      requires Writing(sb, blk, ino, blk, ino, owner, i, off, data, 0)
      modifies this`blk, this`ino, this`owner, this`calls
      ensures Writing(sb, old(blk), old(ino), blk, ino, owner, i, off, data, tot) && Steady(sb, i, old(Now()), Now())
      ensures tot < |data| ==> Full(sb, blk)
      ensures calls == old(calls) + made && (|data| <= 3 * BSIZE ==> |L.Blocks(made)| <= MostBlocks(sb))
    {
      ghost var t := Tally({}, {}, 0, 0);
      ghost var ind0 := ino[i].addrs[NDIRECT];
      made := [];
      tot := 0;
      SteadySame(sb, i, Now(), Now());
      AmidIs(3 + depth, blk, ino, i, off, data, 0);
      while tot < |data|
        invariant InWrite(old(blk), old(ino), i, off, data, tot) && Steady(sb, i, old(Now()), Now())
        invariant calls == old(calls) + made && Footprint(sb, L.Blocks(made), ind0, ino[i].addrs[NDIRECT], t)
        invariant Paced(off, |data|, tot, t)
      {
        var m;
        m, t, made := WriteRound(i, off, data, tot, old(Now()), made, ind0, t);
        if m == 0 {
          break;
        }
        tot := tot + m;
      }
      AmidIs(3 + depth, old(blk), old(ino), i, off, data, tot);
      FootprintBound(sb, L.Blocks(made), ind0, ino[i].addrs[NDIRECT], t, off, |data|, tot);
    }

    /** writei's last lines: the new size, and the inode back to disk. */
    method FinishWrite(i: nat, off: nat, data: seq<Byte>, tot: nat, ghost was: Snap)
      requires Writing(sb, was.blk, was.ino, blk, ino, owner, i, off, data, tot) && Steady(sb, i, was, Now())
      modifies this`ino, this`blk, this`calls
      ensures Valid() && Others(was.blk, was.ino, blk, ino, i)
      ensures Flat(blk, ino[i]) == Splice(Flat(was.blk, was.ino[i]), off, data[..tot])
      ensures ino[i].size == if off + tot > was.ino[i].size then off + tot else was.ino[i].size
      ensures Synced(i) && forall j :: 0 <= j < |ino| && j != i ==> KeptOnDisk(was.blk, j)
      ensures Confined(i, was)
      ensures calls == old(calls) + [sb.IBlock(i)]
    {
      WritingEnds(sb, was.blk, was.ino, blk, ino, owner, i, off, data, tot);
      SteadyResize(sb, i, was, Now(), off + tot);
      if off + tot > ino[i].size {
        ino := ino[i := ino[i].(size := off + tot)];
      }
      OthersAndOne(was.blk, was.ino, blk, ino, i);
      Save(i, was);
    }

    /** One round of writei's loop; m is 0 when bmap finds no block. */
    method WriteRound(i: nat, off: nat, data: seq<Byte>, tot: nat, ghost was: Snap,
                      ghost made: seq<nat>, ghost ind0: nat, ghost t: Tally)
      returns (m: nat, ghost t1: Tally, ghost made1: seq<nat>)
      requires InWrite(was.blk, was.ino, i, off, data, tot) && tot < |data|
      requires calls == was.calls + made && Footprint(sb, L.Blocks(made), ind0, ino[i].addrs[NDIRECT], t)
      requires Paced(off, |data|, tot, t) && Steady(sb, i, was, Now())
      modifies this`blk, this`ino, this`owner, this`calls
      ensures tot + m <= |data| && InWrite(was.blk, was.ino, i, off, data, tot + m)
      ensures calls == was.calls + made1 && Footprint(sb, L.Blocks(made1), ind0, ino[i].addrs[NDIRECT], t1)
      ensures Paced(off, |data|, tot + m, t1) && Steady(sb, i, was, Now())
      ensures m == 0 ==> Full(sb, blk)
    {
      ghost var ind := ino[i].addrs[NDIRECT];
      ghost var addr, mapped;
      m, addr, mapped := WriteBlock(i, off, data, tot, was.blk, was.ino);
      SteadyTrans(sb, i, was, old(Now()), Now());
      t1 := Next(sb, t, ind, ino[i].addrs[NDIRECT], mapped, addr);
      TallyRound(sb, made, ind0, ind, ino[i].addrs[NDIRECT], mapped, addr, t, off, |data|, tot, m);
      Appended(was.calls, made, RoundLog(sb, ind, ino[i].addrs[NDIRECT], (off + tot) / BSIZE, mapped, addr));
      made1 := made + RoundLog(sb, ind, ino[i].addrs[NDIRECT], (off + tot) / BSIZE, mapped, addr);
    }

    /** The bytes that fall into one block: bmap, copy, log_write. */
    method WriteBlock(i: nat, off: nat, data: seq<Byte>, tot: nat, ghost blk0: Disk, ghost ino0: seq<Inode>)
      returns (m: nat, ghost addr: nat, ghost mapped: bool)
      requires InWrite(blk0, ino0, i, off, data, tot) && tot < |data|
      modifies this`blk, this`ino, this`owner, this`calls
      ensures addr == 0 <==> m == 0
      ensures m != 0 ==> m == RoundSize(off, |data|, tot)
      ensures tot + m <= |data| && InWrite(blk0, ino0, i, off, data, tot + m)
      ensures m == 0 ==> Full(sb, blk)
      ensures Mapping(sb, old(ino[i].addrs[NDIRECT]), ino[i].addrs[NDIRECT], (off + tot) / BSIZE, mapped, addr, off, tot)
      ensures calls == old(calls) + RoundLog(sb, old(ino[i].addrs[NDIRECT]), ino[i].addrs[NDIRECT],
                                             (off + tot) / BSIZE, mapped, addr)
      ensures Steady(sb, i, old(Now()), Now())
    {
      var a;
      a, mapped := MapForWrite(i, off, data, tot, blk0, ino0);
      addr := a;
      ghost var log := MapLog(sb, old(ino[i].addrs[NDIRECT]), ino[i].addrs[NDIRECT], (off + tot) / BSIZE, mapped, a);
      Appended(log, [], []);
      m := 0;
      if a != 0 {
        m := RoundSize(off, |data|, tot);
        CopyIn(i, off, data, tot, m, a, blk0, ino0, old(Now()), log);
      }
    }

    /** The copy into one mapped block, and its log_write. */
    method CopyIn(i: nat, off: nat, data: seq<Byte>, tot: nat, m: nat, a: nat, ghost blk0: Disk, ghost ino0: seq<Inode>,
                  ghost was: Snap, ghost log: seq<nat>)
      requires InWrite(blk0, ino0, i, off, data, tot)
      requires 0 < m && tot + m <= |data| && (off + tot) % BSIZE + m <= BSIZE
      requires a == FileBlock(blk, ino[i], (off + tot) / BSIZE) != 0
      requires Steady(sb, i, was, Now()) && calls == was.calls + log
      modifies this`blk, this`calls
      ensures InWrite(blk0, ino0, i, off, data, tot + m)
      ensures Steady(sb, i, was, Now()) && calls == was.calls + (log + [a])
    {
      AmidIs(3 + depth, blk0, ino0, i, off, data, tot);
      WritingStep(sb, blk0, ino0, blk, ino, owner, i, off, data, tot, m);
      RefMeta(sb, blk, ino, owner, i, SlotOf((off + tot) / BSIZE));
      var bp := Patch(blk[a], (off + tot) % BSIZE, data[tot..tot + m]);
      KeptWrite(sb, blk, a, bp);
      WriteLogged(blk, calls, a, bp);
      blk := blk[a := bp];
      calls := calls + [a];
      AmidIs(3 + depth, blk0, ino0, i, off, data, tot + m);
      SteadyTrans(sb, i, was, old(Now()), Now());
      Appended(was.calls, log, [a]);
    }

    /** bmap as writei calls it. */
    method MapForWrite(i: nat, off: nat, data: seq<Byte>, tot: nat, ghost blk0: Disk, ghost ino0: seq<Inode>)
      returns (addr: nat, ghost mapped: bool)
      requires InWrite(blk0, ino0, i, off, data, tot) && tot < |data|
      modifies this`blk, this`ino, this`owner, this`calls
      ensures InWrite(blk0, ino0, i, off, data, tot)
      ensures FileBlock(blk, ino[i], (off + tot) / BSIZE) == addr && (addr == 0 ==> Full(sb, blk))
      ensures Mapping(sb, old(ino[i].addrs[NDIRECT]), ino[i].addrs[NDIRECT], (off + tot) / BSIZE, mapped, addr, off, tot)
      ensures calls == old(calls) + MapLog(sb, old(ino[i].addrs[NDIRECT]), ino[i].addrs[NDIRECT],
                                             (off + tot) / BSIZE, mapped, addr)
      ensures Steady(sb, i, old(Now()), Now())
    {
      AmidIs(3 + depth, blk0, ino0, i, off, data, tot);
      mapped := FileBlock(blk, ino[i], (off + tot) / BSIZE) != 0;
      assert off % BSIZE != 0 && tot == 0 ==> mapped by {
        FirstBlockMapped(blk, ino[i], off);
      }
      addr := Bmap(i, (off + tot) / BSIZE);
      RefBound(sb, blk, ino, owner, i, SlotOf((off + tot) / BSIZE));
      RefBound(sb, blk, ino, owner, i, NDIRECT);
      GoOn(blk0, ino0, old(blk), old(ino), old(owner), i, off, data, tot);
    }

    /** A change that keeps the contents of all files does not disturb the write. */
    lemma GoOn(blk0: Disk, ino0: seq<Inode>, blk1: Disk, ino1: seq<Inode>, owner1: Owner,
               i: nat, off: nat, data: seq<Byte>, tot: nat)
      requires Writing(sb, blk0, ino0, blk1, ino1, owner1, i, off, data, tot)
      requires Owned() && AllKeep(blk1, ino1, blk, ino)
      ensures InWrite(blk0, ino0, i, off, data, tot)
    {
      WritingKeeps(sb, blk0, ino0, blk1, ino1, owner1, i, off, data, tot, blk, ino, owner);
      AmidIs(3 + depth, blk0, ino0, i, off, data, tot);
    }

    /** Reading back what was just written gives the bytes that were written. */
    method WriteThenRead(i: nat, off: nat, data: seq<Byte>) returns (r: int, back: seq<Byte>)
      requires Valid() && i < |ino| && off < UINT && |data| < UINT
      modifies this
      ensures Valid()
      ensures r >= 0 ==> r <= |data| && back == data[..r]
      ensures r < 0 ==> back == [] && blk == old(blk) && ino == old(ino)
    {
      back := [];
      r := Writei(i, off, data);
      if r >= 0 {
        SpliceSlice(Flat(old(blk), old(ino)[i]), off, data[..r]);
        ReadFits(off, r, ino[i].size);
        back := Readi(i, off, r);
      }
    }
  }
}
