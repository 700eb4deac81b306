/** A file as one flat sequence of bytes, and how writes to single blocks look
    from there. */
module FsContents {
  import opened BlockBytes
  import opened FsOwnership

  const MAXBYTES: nat := MAXFILE * BSIZE

  /** Slot 12 of an inode is the indirect block itself. */
  function SlotOf(bn: nat): nat { if bn < NDIRECT then bn else bn + 1 }

  function FileBlock(blk: Disk, ip: Inode, bn: nat): nat
    requires |ip.addrs| == NDIRECT + 1 && bn < MAXFILE
  {
    Ref(blk, ip, SlotOf(bn))
  }

  function ByteIn(blk: Disk, a: nat, o: nat): Byte
    requires o < BSIZE
  {
    if a == 0 || a >= |blk| then 0 else blk[a][o]
  }

  function ByteAt(blk: Disk, ip: Inode, k: nat): Byte
    requires |ip.addrs| == NDIRECT + 1 && k < MAXBYTES
  {
    ByteIn(blk, FileBlock(blk, ip, k / BSIZE), k % BSIZE)
  }

  /** The contents of a file. */
  ghost function Flat(blk: Disk, ip: Inode): (r: seq<Byte>)
    requires |ip.addrs| == NDIRECT + 1 && ip.size <= MAXBYTES
    ensures |r| == ip.size && forall k :: 0 <= k < ip.size ==> r[k] == ByteAt(blk, ip, k)
  {
    seq(ip.size, k requires 0 <= k < ip.size => ByteAt(blk, ip, k))
  }

  /** Every block below the given size is mapped. */
  ghost predicate MappedTo(blk: Disk, ip: Inode, size: nat) {
    && |ip.addrs| == NDIRECT + 1 && size <= MAXBYTES
    && forall bn: nat :: bn * BSIZE < size ==> FileBlock(blk, ip, bn) != 0
  }

  ghost predicate HoleFree(blk: Disk, ip: Inode) { MappedTo(blk, ip, ip.size) }

  ghost predicate AllHoleFree(blk: Disk, ino: seq<Inode>) {
    forall i :: 0 <= i < |ino| ==> HoleFree(blk, ino[i])
  }

  /** Replace |d| bytes of a file from `off` on, growing it if need be. */
  function Splice(f: seq<Byte>, off: nat, d: seq<Byte>): seq<Byte>
    requires off <= |f|
  {
    f[..off] + d + (if off + |d| < |f| then f[off + |d|..] else [])
  }

  /** Byte by byte: the new bytes where they go, the old ones everywhere else,
      and no hole. */
  lemma SpliceBytes(f: seq<Byte>, off: nat, d: seq<Byte>, k: nat)
    requires off <= |f|
    ensures |Splice(f, off, d)| == if off + |d| > |f| then off + |d| else |f|
    ensures k < |Splice(f, off, d)| ==>
              (if off <= k < off + |d| then Splice(f, off, d)[k] == d[k - off]
               else k < |f| && Splice(f, off, d)[k] == f[k])
  {
  }

  // ----- mapping a new block leaves the contents alone -----

  /** Mapped blocks keep their place and their bytes. */
  ghost predicate Keeps(blk: Disk, ip: Inode, blk1: Disk, ip1: Inode) {
    && |ip.addrs| == |ip1.addrs| == NDIRECT + 1 && ip1.size == ip.size && |blk1| == |blk|
    && (forall bn :: 0 <= bn < MAXFILE && FileBlock(blk, ip, bn) != 0 ==>
          && FileBlock(blk1, ip1, bn) == FileBlock(blk, ip, bn) < |blk|
          && blk1[FileBlock(blk, ip, bn)] == blk[FileBlock(blk, ip, bn)])
  }

  ghost predicate AllKeep(blk: Disk, ino: seq<Inode>, blk1: Disk, ino1: seq<Inode>) {
    |ino1| == |ino| && forall j :: 0 <= j < |ino| ==> Keeps(blk, ino[j], blk1, ino1[j])
  }

  lemma OwnedBlock(sb: Super, blk: Disk, ino: seq<Inode>, owner: Owner, j: nat, bn: nat)
    requires Own(sb, blk, ino, owner, 0, 0) && j < |ino| && bn < MAXFILE && FileBlock(blk, ino[j], bn) != 0
    ensures var a := FileBlock(blk, ino[j], bn);
            a in owner && owner[a] == (j, SlotOf(bn)) && sb.DataStart() <= a < sb.size
  {
  }

  lemma LinkedKeeps(sb: Super, blk: Disk, ino: seq<Inode>, owner: Owner, b: nat, i: nat, s: nat,
                    blk1: Disk, ino1: seq<Inode>)
    requires Own(sb, blk, ino, owner, 0, 0) && i < |ino| && s < NSLOTS && Ref(blk, ino[i], s) == 0
    requires Linked(blk, ino, owner, b, i, s, blk1, ino1)
    ensures AllKeep(blk, ino, blk1, ino1)
  {
    forall j | 0 <= j < |ino| ensures Keeps(blk, ino[j], blk1, ino1[j]) {
      forall bn | 0 <= bn < MAXFILE && FileBlock(blk, ino[j], bn) != 0
        ensures && FileBlock(blk1, ino1[j], bn) == FileBlock(blk, ino[j], bn) < |blk|
                && blk1[FileBlock(blk, ino[j], bn)] == blk[FileBlock(blk, ino[j], bn)]
      {
        OwnedBlock(sb, blk, ino, owner, j, bn);
      }
    }
  }

  /** Everything that filling entry j of inode i's indirect block with a fresh block brings about. */
  lemma EntryLinked(sb: Super, blk: Disk, ino: seq<Inode>, owner: Owner, b: nat, i: nat, j: nat)
    requires Own(sb, blk, ino, owner, 0, 0) && sb.DataStart() <= b < sb.size && b !in owner
    requires i < |ino| && j < NINDIRECT && ino[i].addrs[NDIRECT] != 0 && Entry(blk, ino[i].addrs[NDIRECT], j) == 0
    ensures sb.BBlock(b) < |blk| && ino[i].addrs[NDIRECT] < |blk|
    ensures var blk1 := AllocEntry(sb, blk, b, ino[i].addrs[NDIRECT], j);
            && Own(sb, blk1, ino, owner[b := (i, NDIRECT + 1 + j)], 0, 0)
            && AllKeep(blk, ino, blk1, ino) && InodesKept(sb, blk, blk1)
            && Entry(blk1, ino[i].addrs[NDIRECT], j) == b
  {
    LinkEntry(sb, blk, ino, owner, b, i, j);
    var a := ino[i].addrs[NDIRECT];
    var blk1 := AllocEntry(sb, blk, b, a, j);
    assert Ref(blk1, ino[i], NDIRECT + 1 + j) == b;
    LinkedKeeps(sb, blk, ino, owner, b, i, NDIRECT + 1 + j, blk1, ino);
    RefMeta(sb, blk, ino, owner, i, NDIRECT);
    KeptEntry(sb, blk, b, a, j);
  }

  lemma KeptEntry(sb: Super, blk: Disk, b: nat, a: nat, j: nat)
    requires sb.Ok() && |blk| == sb.size && sb.DataStart() <= b < sb.size && sb.BBlock(b) < |blk|
    requires j < NINDIRECT && sb.bmapstart <= a < |blk|
    ensures InodesKept(sb, blk, AllocEntry(sb, blk, b, a, j))
  {
    KeptAlloc(sb, blk, b);
    KeptWrite(sb, Alloc(sb, blk, b), a, SetWordAt(blk[a], j, b));
    KeptTrans(sb, blk, Alloc(sb, blk, b), AllocEntry(sb, blk, b, a, j));
  }

  lemma MapTrans(sb: Super, blk: Disk, ino: seq<Inode>, blk1: Disk, ino1: seq<Inode>, blk2: Disk, ino2: seq<Inode>)
    requires AllKeep(blk, ino, blk1, ino1) && AllKeep(blk1, ino1, blk2, ino2)
    requires InodesKept(sb, blk, blk1) && InodesKept(sb, blk1, blk2)
    ensures AllKeep(blk, ino, blk2, ino2) && InodesKept(sb, blk, blk2)
  {
    KeepsTrans(blk, ino, blk1, ino1, blk2, ino2);
    KeptTrans(sb, blk, blk1, blk2);
  }

  lemma RefMeta(sb: Super, blk: Disk, ino: seq<Inode>, owner: Owner, i: nat, s: nat)
    requires Own(sb, blk, ino, owner, 0, 0) && i < |ino| && s < NSLOTS && Ref(blk, ino[i], s) != 0
    ensures sb.bmapstart <= Ref(blk, ino[i], s) < |blk|
  {
  }

  lemma RefBound(sb: Super, blk: Disk, ino: seq<Inode>, owner: Owner, i: nat, s: nat)
    requires Own(sb, blk, ino, owner, 0, 0) && i < |ino| && s < NSLOTS
    ensures Ref(blk, ino[i], s) < sb.size
  {
  }

  lemma KeepsTrans(blk: Disk, ino: seq<Inode>, blk1: Disk, ino1: seq<Inode>, blk2: Disk, ino2: seq<Inode>)
    requires AllKeep(blk, ino, blk1, ino1) && AllKeep(blk1, ino1, blk2, ino2)
    ensures AllKeep(blk, ino, blk2, ino2)
  {
    forall j | 0 <= j < |ino| ensures Keeps(blk, ino[j], blk2, ino2[j]) {
      assert Keeps(blk, ino[j], blk1, ino1[j]) && Keeps(blk1, ino1[j], blk2, ino2[j]);
    }
  }

  lemma KeepsRefl(sb: Super, blk: Disk, ino: seq<Inode>, owner: Owner)
    requires Own(sb, blk, ino, owner, 0, 0)
    ensures AllKeep(blk, ino, blk, ino)
  {
    forall j | 0 <= j < |ino| ensures Keeps(blk, ino[j], blk, ino[j]) {
      forall bn | 0 <= bn < MAXFILE && FileBlock(blk, ino[j], bn) != 0
        ensures FileBlock(blk, ino[j], bn) < |blk|
      {
        OwnedBlock(sb, blk, ino, owner, j, bn);
      }
    }
  }

  lemma InodeWriteKeeps(sb: Super, blk: Disk, ino: seq<Inode>, owner: Owner, i: nat, b: Block)
    requires Own(sb, blk, ino, owner, 0, 0) && i < |ino|
    ensures sb.IBlock(i) < |blk| && AllKeep(blk, ino, blk[sb.IBlock(i) := b], ino)
  {
    IBlockInMeta(sb, i);
    InodeWriteKeepsOwn(sb, blk, ino, owner, i, b);
    forall j | 0 <= j < |ino| ensures Keeps(blk, ino[j], blk[sb.IBlock(i) := b], ino[j]) {
      forall bn | 0 <= bn < MAXFILE && FileBlock(blk, ino[j], bn) != 0
        ensures && FileBlock(blk[sb.IBlock(i) := b], ino[j], bn) == FileBlock(blk, ino[j], bn) < |blk|
                && blk[sb.IBlock(i) := b][FileBlock(blk, ino[j], bn)] == blk[FileBlock(blk, ino[j], bn)]
      {
        OwnedBlock(sb, blk, ino, owner, j, bn);
      }
    }
  }

  lemma KeepsByte(blk: Disk, ip: Inode, blk1: Disk, ip1: Inode, k: nat)
    requires Keeps(blk, ip, blk1, ip1) && k < MAXBYTES && FileBlock(blk, ip, k / BSIZE) != 0
    ensures ByteAt(blk1, ip1, k) == ByteAt(blk, ip, k)
  {
  }

  lemma KeepsMapped(blk: Disk, ip: Inode, blk1: Disk, ip1: Inode, size: nat)
    requires Keeps(blk, ip, blk1, ip1) && MappedTo(blk, ip, size)
    ensures MappedTo(blk1, ip1, size)
  {
  }

  lemma KeepsContents(blk: Disk, ip: Inode, blk1: Disk, ip1: Inode)
    requires Keeps(blk, ip, blk1, ip1) && HoleFree(blk, ip)
    ensures HoleFree(blk1, ip1) && Flat(blk1, ip1) == Flat(blk, ip)
  {
    KeepsMapped(blk, ip, blk1, ip1, ip.size);
    forall k | 0 <= k < ip.size ensures ByteAt(blk1, ip1, k) == ByteAt(blk, ip, k) {
      KeepsByte(blk, ip, blk1, ip1, k);
    }
  }

  lemma KeepsAll(blk: Disk, ino: seq<Inode>, blk1: Disk, ino1: seq<Inode>)
    requires AllKeep(blk, ino, blk1, ino1) && AllHoleFree(blk, ino)
    ensures AllHoleFree(blk1, ino1)
    ensures forall j :: 0 <= j < |ino| ==> HoleFree(blk, ino[j]) && Flat(blk1, ino1[j]) == Flat(blk, ino[j])
  {
    forall j | 0 <= j < |ino| ensures HoleFree(blk, ino[j]) && HoleFree(blk1, ino1[j]) && Flat(blk1, ino1[j]) == Flat(blk, ino[j]) {
      KeepsContents(blk, ino[j], blk1, ino1[j]);
    }
  }

  // ----- writing into a mapped block -----

  function Patch(b: Block, o: nat, d: seq<Byte>): (r: Block)
    requires o + |d| <= BSIZE
    ensures forall k :: 0 <= k < BSIZE ==> r[k] == if o <= k < o + |d| then d[k - o] else b[k]
  {
    b[..o] + d + b[o + |d|..]
  }

  lemma WriteKeepsOwn(sb: Super, blk: Disk, ino: seq<Inode>, owner: Owner, i: nat, bn: nat, data: Block)
    requires Own(sb, blk, ino, owner, 0, 0) && i < |ino| && bn < MAXFILE && FileBlock(blk, ino[i], bn) != 0
    ensures FileBlock(blk, ino[i], bn) < |blk|
    ensures Own(sb, blk[FileBlock(blk, ino[i], bn) := data], ino, owner, 0, 0)
    ensures var a := FileBlock(blk, ino[i], bn);
            forall j, t :: 0 <= j < |ino| && 0 <= t < NSLOTS ==>
              Ref(blk[a := data], ino[j], t) == Ref(blk, ino[j], t)
  {
    var a := FileBlock(blk, ino[i], bn);
    OwnedBlock(sb, blk, ino, owner, i, bn);
    var blk1 := blk[a := data];
    BitsAfterDataWrite(sb, blk, owner, a, data);
    forall j, t | 0 <= j < |ino| && 0 <= t < NSLOTS ensures Ref(blk1, ino[j], t) == Ref(blk, ino[j], t) {
      RefAfterWrite(sb, blk, ino, owner, 0, 0, a, data, j, t);
    }
    assert RefsOwned(blk1, ino, owner, 0, 0);
    assert OwnedRefs(blk1, ino, owner, 0, 0);
  }

  /** A write of file i at bytes [at, at + |d|), inside one block, changes
      those bytes of that file and no other byte of any file. */
  lemma WriteByte(sb: Super, blk: Disk, ino: seq<Inode>, owner: Owner, i: nat, at: nat, d: seq<Byte>, j: nat, k: nat)
    requires Own(sb, blk, ino, owner, 0, 0) && i < |ino| && at < MAXBYTES && at % BSIZE + |d| <= BSIZE
    requires FileBlock(blk, ino[i], at / BSIZE) != 0 && j < |ino| && k < MAXBYTES
    ensures FileBlock(blk, ino[i], at / BSIZE) < |blk|
    ensures var a := FileBlock(blk, ino[i], at / BSIZE);
            ByteAt(blk[a := Patch(blk[a], at % BSIZE, d)], ino[j], k)
            == if j == i && at <= k < at + |d| then d[k - at] else ByteAt(blk, ino[j], k)
  {
    var a := FileBlock(blk, ino[i], at / BSIZE);
    OwnedBlock(sb, blk, ino, owner, i, at / BSIZE);
    WriteKeepsOwn(sb, blk, ino, owner, i, at / BSIZE, Patch(blk[a], at % BSIZE, d));
    var c := FileBlock(blk, ino[j], k / BSIZE);
    if c != 0 {
      OwnedBlock(sb, blk, ino, owner, j, k / BSIZE);
    }
    SameBlock(at, |d|, k);
  }

  lemma SameBlock(at: nat, n: nat, k: nat)
    requires at % BSIZE + n <= BSIZE
    ensures at <= k < at + n <==> k / BSIZE == at / BSIZE && at % BSIZE <= k % BSIZE < at % BSIZE + n
    ensures k / BSIZE == at / BSIZE ==> k - at == k % BSIZE - at % BSIZE
    ensures SlotOf(k / BSIZE) == SlotOf(at / BSIZE) <==> k / BSIZE == at / BSIZE
  {
  }

  // ----- writei, one block at a time -----

  /** Byte k of the file being written, after `tot` bytes have gone in at `off`. */
  ghost predicate Progress(blk0: Disk, ip0: Inode, blk: Disk, ip: Inode, off: nat, data: seq<Byte>, tot: nat)
    requires |ip0.addrs| == |ip.addrs| == NDIRECT + 1 && tot <= |data| && off + |data| <= MAXBYTES
  {
    forall k :: 0 <= k < MAXBYTES && (k < off + tot || k < ip0.size) ==>
      ByteAt(blk, ip, k) == if off <= k < off + tot then data[k - off] else ByteAt(blk0, ip0, k)
  }

  ghost predicate Others(blk0: Disk, ino0: seq<Inode>, blk: Disk, ino: seq<Inode>, i: nat) {
    && |ino| == |ino0|
    && forall j :: 0 <= j < |ino| && j != i ==>
         HoleFree(blk0, ino0[j]) && HoleFree(blk, ino[j]) && Flat(blk, ino[j]) == Flat(blk0, ino0[j])
  }

  ghost predicate Writing(sb: Super, blk0: Disk, ino0: seq<Inode>, blk: Disk, ino: seq<Inode>, owner: Owner,
                          i: nat, off: nat, data: seq<Byte>, tot: nat)
  {
    && Own(sb, blk, ino, owner, 0, 0) && Others(blk0, ino0, blk, ino, i)
    && i < |ino| && tot <= |data| && off + |data| <= MAXBYTES && off <= ino0[i].size <= MAXBYTES
    && |ino0[i].addrs| == NDIRECT + 1 && ino[i].size == ino0[i].size
    && MappedTo(blk, ino[i], ino[i].size) && MappedTo(blk, ino[i], off + tot)
    && Progress(blk0, ino0[i], blk, ino[i], off, data, tot)
  }

  lemma WritingStarts(sb: Super, blk: Disk, ino: seq<Inode>, owner: Owner, i: nat, off: nat, data: seq<Byte>)
    requires Own(sb, blk, ino, owner, 0, 0) && AllHoleFree(blk, ino)
    requires i < |ino| && off <= ino[i].size && off + |data| <= MAXBYTES
    ensures Writing(sb, blk, ino, blk, ino, owner, i, off, data, 0)
  {
    assert HoleFree(blk, ino[i]);
  }

  /** bmap on the way does no harm. */
  lemma WritingKeeps(sb: Super, blk0: Disk, ino0: seq<Inode>, blk: Disk, ino: seq<Inode>, owner: Owner,
                     i: nat, off: nat, data: seq<Byte>, tot: nat, blk1: Disk, ino1: seq<Inode>, owner1: Owner)
    requires Writing(sb, blk0, ino0, blk, ino, owner, i, off, data, tot)
    requires Own(sb, blk1, ino1, owner1, 0, 0) && AllKeep(blk, ino, blk1, ino1)
    ensures Writing(sb, blk0, ino0, blk1, ino1, owner1, i, off, data, tot)
  {
    forall j | 0 <= j < |ino| && j != i ensures HoleFree(blk1, ino1[j]) && Flat(blk1, ino1[j]) == Flat(blk0, ino0[j]) {
      KeepsContents(blk, ino[j], blk1, ino1[j]);
    }
    assert Keeps(blk, ino[i], blk1, ino1[i]);
    KeepsMapped(blk, ino[i], blk1, ino1[i], ino[i].size);
    KeepsMapped(blk, ino[i], blk1, ino1[i], off + tot);
    forall k | 0 <= k < MAXBYTES && (k < off + tot || k < ino[i].size)
      ensures ByteAt(blk1, ino1[i], k) == ByteAt(blk, ino[i], k)
    {
      assert (k / BSIZE) * BSIZE <= k;
      KeepsByte(blk, ino[i], blk1, ino1[i], k);
    }
  }

  /** One round of writei's loop: m more bytes, all within one mapped block. */
  lemma WritingStep(sb: Super, blk0: Disk, ino0: seq<Inode>, blk: Disk, ino: seq<Inode>, owner: Owner,
                    i: nat, off: nat, data: seq<Byte>, tot: nat, m: nat)
    requires Writing(sb, blk0, ino0, blk, ino, owner, i, off, data, tot)
    requires 0 < m && tot + m <= |data| && (off + tot) % BSIZE + m <= BSIZE
    requires FileBlock(blk, ino[i], (off + tot) / BSIZE) != 0
    ensures var a := FileBlock(blk, ino[i], (off + tot) / BSIZE);
            && a < |blk|
            && Writing(sb, blk0, ino0, blk[a := Patch(blk[a], (off + tot) % BSIZE, data[tot..tot + m])], ino, owner,
                       i, off, data, tot + m)
  {
    var at, d := off + tot, data[tot..tot + m];
    var a := FileBlock(blk, ino[i], at / BSIZE);
    OwnedBlock(sb, blk, ino, owner, i, at / BSIZE);
    var blk1 := blk[a := Patch(blk[a], at % BSIZE, d)];
    WriteKeepsOwn(sb, blk, ino, owner, i, at / BSIZE, blk1[a]);
    WritingOthers(sb, blk0, ino0, blk, ino, owner, i, at, d);
    MappedStep(blk, blk1, ino[i], at, m);
    ProgressStep(sb, blk0, ino0[i], blk, ino, owner, i, off, data, tot, m);
  }

  lemma MappedStep(blk: Disk, blk1: Disk, ip: Inode, at: nat, m: nat)
    requires MappedTo(blk, ip, ip.size) && MappedTo(blk, ip, at) && at + m <= MAXBYTES
    requires at < MAXBYTES && at % BSIZE + m <= BSIZE && FileBlock(blk, ip, at / BSIZE) != 0
    requires forall t :: 0 <= t < NSLOTS ==> Ref(blk1, ip, t) == Ref(blk, ip, t)
    ensures MappedTo(blk1, ip, ip.size) && MappedTo(blk1, ip, at + m)
  {
    forall bn: nat | bn * BSIZE < at + m ensures FileBlock(blk, ip, bn) != 0 {
      assert bn * BSIZE < at || bn == at / BSIZE;
    }
    forall bn: nat | bn < MAXFILE ensures FileBlock(blk1, ip, bn) == FileBlock(blk, ip, bn) {
    }
  }

  lemma ProgressStep(sb: Super, blk0: Disk, ip0: Inode, blk: Disk, ino: seq<Inode>, owner: Owner,
                     i: nat, off: nat, data: seq<Byte>, tot: nat, m: nat)
    requires Own(sb, blk, ino, owner, 0, 0) && i < |ino| && |ip0.addrs| == NDIRECT + 1
    requires 0 < m && tot + m <= |data| && off + |data| <= MAXBYTES && (off + tot) % BSIZE + m <= BSIZE
    requires FileBlock(blk, ino[i], (off + tot) / BSIZE) != 0
    requires Progress(blk0, ip0, blk, ino[i], off, data, tot)
    ensures var a := FileBlock(blk, ino[i], (off + tot) / BSIZE);
            && a < |blk|
            && Progress(blk0, ip0, blk[a := Patch(blk[a], (off + tot) % BSIZE, data[tot..tot + m])], ino[i],
                        off, data, tot + m)
  {
    var at, d := off + tot, data[tot..tot + m];
    var a := FileBlock(blk, ino[i], at / BSIZE);
    OwnedBlock(sb, blk, ino, owner, i, at / BSIZE);
    var blk1 := blk[a := Patch(blk[a], at % BSIZE, d)];
    forall k | 0 <= k < MAXBYTES && (k < at + m || k < ip0.size)
      ensures ByteAt(blk1, ino[i], k) == if off <= k < at + m then data[k - off] else ByteAt(blk0, ip0, k)
    {
      WriteByte(sb, blk, ino, owner, i, at, d, i, k);
      assert k < at || k < ip0.size ==>
          ByteAt(blk, ino[i], k) == if off <= k < at then data[k - off] else ByteAt(blk0, ip0, k);
    }
  }

  lemma WritingOthers(sb: Super, blk0: Disk, ino0: seq<Inode>, blk: Disk, ino: seq<Inode>, owner: Owner,
                      i: nat, at: nat, d: seq<Byte>)
    requires Own(sb, blk, ino, owner, 0, 0) && Others(blk0, ino0, blk, ino, i)
    requires i < |ino| && at < MAXBYTES && at % BSIZE + |d| <= BSIZE && FileBlock(blk, ino[i], at / BSIZE) != 0
    ensures var a := FileBlock(blk, ino[i], at / BSIZE);
            a < |blk| && Others(blk0, ino0, blk[a := Patch(blk[a], at % BSIZE, d)], ino, i)
  {
    var a := FileBlock(blk, ino[i], at / BSIZE);
    OwnedBlock(sb, blk, ino, owner, i, at / BSIZE);
    var blk1 := blk[a := Patch(blk[a], at % BSIZE, d)];
    WriteKeepsOwn(sb, blk, ino, owner, i, at / BSIZE, blk1[a]);
    forall j | 0 <= j < |ino| && j != i
      ensures HoleFree(blk1, ino[j]) && Flat(blk1, ino[j]) == Flat(blk0, ino0[j])
    {
      forall bn: nat | bn * BSIZE < ino[j].size ensures FileBlock(blk1, ino[j], bn) != 0 {
        assert FileBlock(blk, ino[j], bn) != 0;
      }
      forall k | 0 <= k < ino[j].size ensures ByteAt(blk1, ino[j], k) == ByteAt(blk, ino[j], k) {
        WriteByte(sb, blk, ino, owner, i, at, d, j, k);
      }
    }
  }

  /** writei's last step sets the size; the file is then the spliced sequence. */
  lemma WritingEnds(sb: Super, blk0: Disk, ino0: seq<Inode>, blk: Disk, ino: seq<Inode>, owner: Owner,
                    i: nat, off: nat, data: seq<Byte>, tot: nat)
    requires Writing(sb, blk0, ino0, blk, ino, owner, i, off, data, tot)
    ensures var ip := if off + tot > ino[i].size then ino[i].(size := off + tot) else ino[i];
            && HoleFree(blk, ip)
            && Flat(blk, ip) == Splice(Flat(blk0, ino0[i]), off, data[..tot])
            && Own(sb, blk, ino[i := ip], owner, 0, 0)
  {
    var ip := if off + tot > ino[i].size then ino[i].(size := off + tot) else ino[i];
    forall bn: nat | bn * BSIZE < ip.size ensures FileBlock(blk, ip, bn) != 0 {
      assert FileBlock(blk, ip, bn) == FileBlock(blk, ino[i], bn);
    }
    var want := Splice(Flat(blk0, ino0[i]), off, data[..tot]);
    assert |want| == ip.size;
    forall k | 0 <= k < ip.size ensures ByteAt(blk, ip, k) == want[k] {
      assert ByteAt(blk, ip, k) == ByteAt(blk, ino[i], k);
    }
    assert Flat(blk, ip) == want;
    ResizeKeepsOwn(sb, blk, ino, owner, i, ip.size);
  }

  lemma ResizeKeepsOwn(sb: Super, blk: Disk, ino: seq<Inode>, owner: Owner, i: nat, size: nat)
    requires Own(sb, blk, ino, owner, 0, 0) && i < |ino|
    ensures Own(sb, blk, ino[i := ino[i].(size := size)], owner, 0, 0)
  {
    var ino1 := ino[i := ino[i].(size := size)];
    forall j, t | 0 <= j < |ino| && 0 <= t < NSLOTS ensures Ref(blk, ino1[j], t) == Ref(blk, ino[j], t) {
    }
    assert RefsOwned(blk, ino1, owner, 0, 0);
    assert OwnedRefs(blk, ino1, owner, 0, 0);
  }

  /** Freeing a block, and changing inode i, leaves the other files alone. */
  lemma OthersAfterFree(sb: Super, blk0: Disk, ino0: seq<Inode>, blk: Disk, ino: seq<Inode>, owner: Owner,
                        di: nat, d: nat, b: nat, i: nat, ino1: seq<Inode>)
    requires Own(sb, blk, ino, owner, di, d) && b in owner && Others(blk0, ino0, blk, ino, i)
    requires d == 0 || di == i
    requires |ino1| == |ino| && forall j :: 0 <= j < |ino| && j != i ==> ino1[j] == ino[j]
    ensures sb.BBlock(b) < |blk| && Others(blk0, ino0, Free(sb, blk, b), ino1, i)
  {
    BBlockInMeta(sb, b);
    var blk1 := Free(sb, blk, b);
    forall j | 0 <= j < |ino| && j != i
      ensures HoleFree(blk1, ino1[j]) && Flat(blk1, ino1[j]) == Flat(blk0, ino0[j])
    {
      forall bn | 0 <= bn < MAXFILE && FileBlock(blk, ino[j], bn) != 0
        ensures && FileBlock(blk1, ino[j], bn) == FileBlock(blk, ino[j], bn) < |blk|
                && blk1[FileBlock(blk, ino[j], bn)] == blk[FileBlock(blk, ino[j], bn)]
      {
        RefsAfterFree(sb, blk, ino, owner, di, d, b, j, SlotOf(bn));
        var a := Ref(blk, ino[j], SlotOf(bn));
        assert a in owner;
      }
      assert HoleFree(blk, ino[j]);
      assert Keeps(blk, ino[j], blk1, ino1[j]);
      KeepsContents(blk, ino[j], blk1, ino1[j]);
    }
  }

  /** An inode with no addresses and size 0 is an empty file. */
  lemma EmptyFile(blk: Disk, ip: Inode)
    requires |ip.addrs| == NDIRECT + 1 && ip.size == 0
    ensures HoleFree(blk, ip) && Flat(blk, ip) == []
  {
  }

  /** After truncation the owned blocks are those of the other inodes. */
  lemma NothingOwned(sb: Super, blk: Disk, ino: seq<Inode>, owner: Owner, owner0: Owner, i: nat)
    requires Own(sb, blk, ino, owner, 0, 0) && i < |ino|
    requires forall s :: 0 <= s <= NDIRECT ==> ino[i].addrs[s] == 0
    requires forall b :: b in owner ==> b in owner0 && owner0[b] == owner[b]
    requires forall b :: b in owner0 && b !in owner ==> owner0[b].0 == i
    ensures forall b :: b in owner <==> b in owner0 && owner0[b].0 != i
  {
    forall b | b in owner ensures owner[b].0 != i {
      assert Ref(blk, ino[owner[b].0], owner[b].1) == b;
    }
  }
}
