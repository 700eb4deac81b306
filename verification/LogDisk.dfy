/** The on-disk side of the write-ahead log: block contents, the header block,
    and what recovery makes of a disk image.  A single block write is atomic. */
module LogDisk {
  import opened LogAdmission

  type Word = x: int | 0 <= x < 0x1_0000_0000
  const BLOCKWORDS: nat := 256

  /** BSIZE bytes, seen as 32-bit words (a log header is an array of ints). */
  type Block = b: seq<Word> | |b| == BLOCKWORDS witness seq(BLOCKWORDS, _ => 0)

  type Disk = seq<Block>

  /** log.start and log.size. */
  datatype Layout = Layout(start: nat, size: nat) {
    ghost predicate Fits(d: Disk) {
      start + size <= |d| < 0x1_0000_0000 && size >= 1
    }

    /** A block outside the log region. */
    predicate Home(b: nat) {
      b < start || start + size <= b
    }
  }

  ghost predicate SameHome(lay: Layout, d: Disk, e: Disk) {
    |d| == |e| && forall b :: 0 <= b < |d| && lay.Home(b) ==> d[b] == e[b]
  }

  // ----- the header block -----

  /** write_head leaves the words after the last block number as they were. */
  function SetHeader(old_: Block, lh: seq<nat>): (r: Block)
    requires |lh| <= LOGSIZE && forall i :: 0 <= i < |lh| ==> lh[i] < 0x1_0000_0000
  {
    [|lh|] + seq(|lh|, i requires 0 <= i < |lh| => lh[i]) + old_[1 + |lh|..]
  }

  function HeaderCount(lay: Layout, d: Disk): nat
    requires lay.start < |d|
  {
    d[lay.start][0]
  }

  ghost predicate GoodHeader(lay: Layout, d: Disk)
    requires lay.Fits(d)
  {
    && HeaderCount(lay, d) <= LOGSIZE && HeaderCount(lay, d) <= lay.size - 1
    && (forall i :: 1 <= i <= HeaderCount(lay, d) ==> d[lay.start][i] < |d| && lay.Home(d[lay.start][i]))
    && (forall i, j :: 1 <= i < j <= HeaderCount(lay, d) ==> d[lay.start][i] != d[lay.start][j])
  }

  ghost function Header(lay: Layout, d: Disk): (r: seq<nat>)
    requires lay.Fits(d) && GoodHeader(lay, d)
    ensures |r| == HeaderCount(lay, d) <= LOGSIZE && |r| <= lay.size - 1
    ensures Distinct(r)
    ensures forall k :: 0 <= k < |r| ==> r[k] < |d| && lay.Home(r[k])
  {
    seq(HeaderCount(lay, d), i requires 0 <= i < HeaderCount(lay, d) => d[lay.start][1 + i])
  }

  /** Reading back a header just written gives the list that was written. */
  lemma HeaderRoundTrip(lay: Layout, d: Disk, old_: Block, lh: seq<nat>)
    requires lay.Fits(d) && |lh| <= LOGSIZE && |lh| <= lay.size - 1 && Distinct(lh)
    requires forall k :: 0 <= k < |lh| ==> lh[k] < |d| && lay.Home(lh[k])
    ensures var e := d[lay.start := SetHeader(old_, lh)];
            lay.Fits(e) && GoodHeader(lay, e) && Header(lay, e) == lh
  {
    var h := SetHeader(old_, lh);
    var e := d[lay.start := h];
    assert forall i :: 1 <= i <= |lh| ==> h[i] == lh[i - 1];
    assert Header(lay, e) == lh;
  }

  // ----- recovery -----

  /** install_trans from position t on. */
  ghost function InstallFrom(lay: Layout, d: Disk, lh: seq<nat>, t: nat): (r: Disk)
    requires t <= |lh| <= lay.size - 1 && lay.Fits(d)
    requires forall k :: 0 <= k < |lh| ==> lh[k] < |d|
    ensures |r| == |d|
    decreases |lh| - t
  {
    if t == |lh| then d
    else InstallFrom(lay, d[lh[t] := d[lay.start + 1 + t]], lh, t + 1)
  }

  /** What recover_from_log leaves on the disk when it is not interrupted. */
  ghost function Recover(lay: Layout, d: Disk): (r: Disk)
    requires lay.Fits(d) && GoodHeader(lay, d)
    ensures |r| == |d|
  {
    var e := InstallFrom(lay, d, Header(lay, d), 0);
    e[lay.start := SetHeader(e[lay.start], [])]
  }

  /** `d` stands for the file-system contents `h`: the blocks named in the
      header are read from the log, the others from their home locations. */
  ghost predicate Represents(lay: Layout, d: Disk, h: Disk) {
    && lay.Fits(d) && GoodHeader(lay, d) && |h| == |d|
    && var lh := Header(lay, d);
       && (forall k :: 0 <= k < |lh| ==> d[lay.start + 1 + k] == h[lh[k]])
       && (forall b :: 0 <= b < |d| && lay.Home(b) && b !in lh ==> d[b] == h[b])
  }

  lemma {:induction false} InstallSpec(lay: Layout, d: Disk, lh: seq<nat>, t: nat, h: Disk)
    requires lay.Fits(d) && |h| == |d| && t <= |lh| <= lay.size - 1
    requires forall k :: 0 <= k < |lh| ==> lh[k] < |d| && lay.Home(lh[k])
    requires forall k :: 0 <= k < |lh| ==> d[lay.start + 1 + k] == h[lh[k]]
    requires forall k :: 0 <= k < t ==> d[lh[k]] == h[lh[k]]
    requires forall b :: 0 <= b < |d| && lay.Home(b) && b !in lh ==> d[b] == h[b]
    ensures SameHome(lay, InstallFrom(lay, d, lh, t), h)
    decreases |lh| - t
  {
    if t < |lh| {
      InstallSpec(lay, d[lh[t] := d[lay.start + 1 + t]], lh, t + 1, h);
    }
  }

  /** Recovery turns an image into exactly the contents it stands for. */
  lemma RecoverSpec(lay: Layout, d: Disk, h: Disk)
    requires Represents(lay, d, h)
    ensures SameHome(lay, Recover(lay, d), h)
    ensures GoodHeader(lay, Recover(lay, d)) && Header(lay, Recover(lay, d)) == []
  {
    InstallSpec(lay, d, Header(lay, d), 0, h);
  }

  /** Installing one more block does not change what the image stands for. */
  lemma InstallOneKeeps(lay: Layout, d: Disk, h: Disk, t: nat)
    requires Represents(lay, d, h) && t < |Header(lay, d)|
    ensures var e := d[Header(lay, d)[t] := d[lay.start + 1 + t]];
            Represents(lay, e, h) && Header(lay, e) == Header(lay, d)
  {
    var lh := Header(lay, d);
    var e := d[lh[t] := d[lay.start + 1 + t]];
    assert e[lay.start] == d[lay.start];
    assert Header(lay, e) == lh;
  }

  /** Writing a log data block while the header is empty changes nothing either. */
  lemma LogBlockWriteKeeps(lay: Layout, d: Disk, h: Disk, t: nat, blk: Block)
    requires Represents(lay, d, h) && Header(lay, d) == [] && t + 1 < lay.size
    ensures var e := d[lay.start + 1 + t := blk];
            Represents(lay, e, h) && Header(lay, e) == []
  {
    var e := d[lay.start + 1 + t := blk];
    assert e[lay.start] == d[lay.start];
  }

  /** The commit point: with every log block in place, one header write moves
      the image from the old contents to the new contents, all at once. */
  lemma CommitPoint(lay: Layout, d: Disk, h0: Disk, h1: Disk, lh: seq<nat>, old_: Block)
    requires Represents(lay, d, h0) && Header(lay, d) == [] && |h1| == |d|
    requires |lh| <= LOGSIZE && |lh| <= lay.size - 1 && Distinct(lh)
    requires forall k :: 0 <= k < |lh| ==> lh[k] < |d| && lay.Home(lh[k])
    requires forall k :: 0 <= k < |lh| ==> d[lay.start + 1 + k] == h1[lh[k]]
    requires forall b :: 0 <= b < |d| && lay.Home(b) && b !in lh ==> h1[b] == h0[b]
    ensures var e := d[lay.start := SetHeader(old_, lh)];
            Represents(lay, e, h1) && Header(lay, e) == lh
  {
    HeaderRoundTrip(lay, d, old_, lh);
  }

  /** Clearing the header of a fully installed image. */
  lemma ClearHeader(lay: Layout, d: Disk, h: Disk, old_: Block)
    requires Represents(lay, d, h)
    requires forall b :: 0 <= b < |d| && lay.Home(b) ==> d[b] == h[b]
    ensures var e := d[lay.start := SetHeader(old_, [])];
            Represents(lay, e, h) && Header(lay, e) == [] && SameHome(lay, e, h)
  {
    HeaderRoundTrip(lay, d, old_, []);
  }
}
