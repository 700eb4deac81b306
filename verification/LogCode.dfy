/** The functions of the log as code over its own fields: the header array, the
    counters, and the loops that copy blocks between cache, log and home.

    `images` is the history of the disk: one entry per block write, so it lists
    every point at which a crash can strike. */
module LogCode {
  import opened LogAdmission
  import opened LogDisk

  datatype Outcome = Logged | PanicTooBig | PanicOutside

  /** The contents with every logged block replaced by its cached version. */
  ghost function OverlayOf(cache: map<nat, Block>, h: Disk): (r: Disk)
    ensures |r| == |h|
    ensures forall b :: 0 <= b < |h| ==> r[b] == if b in cache then cache[b] else h[b]
  {
    seq(|h|, b requires 0 <= b < |h| => if b in cache then cache[b] else h[b])
  }

  /** From position `from` on, every image stands for `h`. */
  ghost predicate AllRepresent(lay: Layout, images: seq<Disk>, from: nat, h: Disk) {
    forall k :: from <= k < |images| ==> Represents(lay, images[k], h)
  }

  /** Between commits: the pinned blocks are exactly the logged ones, the disk holds `h`. */
  ghost predicate TxOk(lay: Layout, disk: Disk, cache: map<nat, Block>, adm: LogAdmission.State, h: Disk) {
    && LogAdmission.Inv(lay.size, adm)
    && Represents(lay, disk, h) && Header(lay, disk) == []
    && (forall b :: b in cache <==> b in adm.lh)
  }

  /** A logged block replaces one block of the contents to be committed. */
  lemma TxRecord(lay: Layout, disk: Disk, cache: map<nat, Block>, adm: LogAdmission.State, h: Disk,
                 p: Pid, b: nat, data: Block)
    requires TxOk(lay, disk, cache, adm, h) && p in adm.credit && !TooBig(adm, lay.size) && b < |disk|
    ensures TxOk(lay, disk, cache[b := data], Record(adm, p, b), h)
    ensures OverlayOf(cache[b := data], h) == OverlayOf(cache, h)[b := data]
  {
    InvStep(lay.size, adm, LogWrite(p, b), Record(adm, p, b));
  }

  lemma TxEnd(lay: Layout, disk: Disk, cache: map<nat, Block>, adm: LogAdmission.State, h: Disk, p: Pid)
    requires TxOk(lay, disk, cache, adm, h) && p in adm.credit
    ensures adm.outstanding >= 1 && !adm.committing
    ensures TxOk(lay, disk, cache, End(adm, p), h)
  {
    InProgress(lay.size, adm, p);
    InvStep(lay.size, adm, EndOp(p), End(adm, p));
  }

  lemma TxFinish(lay: Layout, disk: Disk, cache: map<nat, Block>, adm: LogAdmission.State, h: Disk)
    requires TxOk(lay, disk, cache, adm, h) && adm.lh == []
    ensures TxOk(lay, disk, cache, adm.(committing := false), h)
  {
  }

  ghost predicate AllHome(lay: Layout, disk: Disk, lh: seq<nat>) {
    forall k :: 0 <= k < |lh| ==> lh[k] < |disk| && lay.Home(lh[k])
  }

  ghost predicate CachedOnly(cache: map<nat, Block>, lh: seq<nat>) {
    forall b :: b in cache ==> b in lh
  }

  ghost predicate AllCached(cache: map<nat, Block>, lh: seq<nat>) {
    forall k :: 0 <= k < |lh| ==> lh[k] in cache
  }

  /** The first t log blocks hold the cached contents of the blocks they stand for. */
  ghost predicate LoggedAs(lay: Layout, disk: Disk, cache: map<nat, Block>, lh: seq<nat>, t: nat) {
    && t <= |lh| && lay.start + t < |disk|
    && forall k :: 0 <= k < t && lh[k] in cache ==> disk[lay.start + 1 + k] == cache[lh[k]]
  }

  ghost predicate Installed(disk: Disk, h: Disk, lh: seq<nat>, t: nat) {
    t <= |lh| && forall k :: 0 <= k < t ==> lh[k] < |disk| && lh[k] < |h| && disk[lh[k]] == h[lh[k]]
  }

  ghost predicate NoneCached(cache: map<nat, Block>, lh: seq<nat>, t: nat) {
    t <= |lh| && forall k :: 0 <= k < t ==> lh[k] !in cache
  }

  ghost predicate EitherRepresents(lay: Layout, images: seq<Disk>, from: nat, h0: Disk, h1: Disk) {
    forall k :: from <= k < |images| ==> Represents(lay, images[k], h0) || Represents(lay, images[k], h1)
  }

  lemma SplitImages(lay: Layout, images: seq<Disk>, from: nat, mid: nat, h0: Disk, h1: Disk)
    requires from <= mid <= |images|
    requires AllRepresent(lay, images[..mid], from, h0) && AllRepresent(lay, images, mid, h1)
    ensures EitherRepresents(lay, images, from, h0, h1)
  {
    forall k | from <= k < |images| ensures Represents(lay, images[k], h0) || Represents(lay, images[k], h1) {
      if k < mid {
        assert images[..mid][k] == images[k];
      }
    }
  }

  lemma JoinImages(lay: Layout, before: seq<Disk>, images: seq<Disk>, from: nat, h: Disk)
    requires from + 1 == |before| && before <= images && Represents(lay, before[from], h)
    requires AllRepresent(lay, images, |before|, h)
    ensures AllRepresent(lay, images, from, h)
  {
    assert images[from] == before[from];
  }

  lemma LogBlocksUncached(lay: Layout, disk: Disk, lh: seq<nat>, cache: map<nat, Block>, t: nat)
    requires CachedOnly(cache, lh) && AllHome(lay, disk, lh) && t < |lh| <= lay.size - 1
    ensures lay.start + 1 + t !in cache
  {
  }

  lemma InstallRound(lay: Layout, disk: Disk, h: Disk, lh: seq<nat>, tail: nat)
    requires Represents(lay, disk, h) && Header(lay, disk) == lh && tail < |lh|
    requires Installed(disk, h, lh, tail)
    ensures var e := disk[lh[tail] := disk[lay.start + 1 + tail]];
            Represents(lay, e, h) && Header(lay, e) == lh && Installed(e, h, lh, tail + 1)
  {
    InstallOneKeeps(lay, disk, h, tail);
  }

  lemma UncacheRound(cache: map<nat, Block>, lh: seq<nat>, tail: nat)
    requires CachedOnly(cache, lh) && NoneCached(cache, lh, tail) && tail < |lh|
    ensures CachedOnly(cache - {lh[tail]}, lh) && NoneCached(cache - {lh[tail]}, lh, tail + 1)
  {
  }

  /** Absorbing or appending in the fixed-size array is Record on the list it stands for. */
  lemma RecordInArray(lay: Layout, disk: Disk, block: seq<nat>, n: nat, i: nat, b: nat)
    requires i <= n < |block| && (i < n ==> block[i] == b) && (i == n ==> b !in block[..n])
    requires AllHome(lay, disk, block[..n]) && b < |disk| && lay.Home(b)
    ensures var lh := block[i := b][..if i == n then n + 1 else n];
            && lh == (if b in block[..n] then block[..n] else block[..n] + [b])
            && AllHome(lay, disk, lh)
  {
    if i < n {
      assert block[i := b] == block;
    } else {
      assert block[i := b][..n + 1] == block[..n] + [b];
    }
  }

  lemma NothingCached(cache: map<nat, Block>, lh: seq<nat>)
    requires CachedOnly(cache, lh) && NoneCached(cache, lh, |lh|)
    ensures cache == map[]
  {
    assert cache.Keys == {};
  }

  lemma TxFacts(lay: Layout, disk: Disk, cache: map<nat, Block>, adm: LogAdmission.State, h: Disk)
    requires TxOk(lay, disk, cache, adm, h) && AllHome(lay, disk, adm.lh) && adm.lh != []
    ensures lay.start !in cache && CachedOnly(cache, adm.lh) && |adm.lh| <= lay.size - 1
    ensures Distinct(adm.lh) && |adm.lh| <= LOGSIZE
    ensures AllCached(cache, adm.lh)
  {
  }

  /** After write_log the next header write is a commit point. */
  lemma CommitReady(lay: Layout, d: Disk, cache: map<nat, Block>, h: Disk, lh: seq<nat>)
    requires Represents(lay, d, h) && Header(lay, d) == []
    requires |lh| <= LOGSIZE && |lh| <= lay.size - 1 && Distinct(lh) && AllHome(lay, d, lh)
    requires CachedOnly(cache, lh) && AllCached(cache, lh) && LoggedAs(lay, d, cache, lh, |lh|)
    ensures var e := d[lay.start := SetHeader(d[lay.start], lh)];
            Represents(lay, e, OverlayOf(cache, h)) && Header(lay, e) == lh
  {
    CommitPoint(lay, d, h, OverlayOf(cache, h), lh, d[lay.start]);
  }

  lemma TxEmpty(lay: Layout, disk: Disk, adm: LogAdmission.State, h: Disk)
    requires LogAdmission.Inv(lay.size, adm) && Represents(lay, disk, h) && Header(lay, disk) == []
    ensures TxOk(lay, disk, map[], adm.(lh := []), h)
  {
  }

  lemma TxNothingLogged(lay: Layout, disk: Disk, cache: map<nat, Block>, adm: LogAdmission.State, h: Disk)
    requires TxOk(lay, disk, cache, adm, h) && adm.lh == []
    ensures cache == map[] && OverlayOf(cache, h) == h && SameHome(lay, disk, h)
  {
    assert cache.Keys == {};
  }

  /** A represented image whose logged blocks are all installed holds `h` at home. */
  lemma AllInstalled(lay: Layout, disk: Disk, h: Disk)
    requires Represents(lay, disk, h)
    requires forall k :: 0 <= k < |Header(lay, disk)| ==> disk[Header(lay, disk)[k]] == h[Header(lay, disk)[k]]
    ensures SameHome(lay, disk, h)
  {
  }

  class Log {
    const lay: Layout
    var disk: Disk
    var cache: map<nat, Block>   // blocks that log_write has pinned
    var n: nat                   // lh.n
    var block: seq<nat>          // lh.block, LOGSIZE entries
    var outstanding: nat
    var committing: bool
    ghost var adm: LogAdmission.State
    ghost var images: seq<Disk>

    ghost predicate Valid()
      reads this
    {
      && lay.Fits(disk) && |block| == LOGSIZE && n <= LOGSIZE
      && adm.lh == block[..n] && adm.outstanding == outstanding && adm.committing == committing
      && AllHome(lay, disk, adm.lh)
    }

    ghost predicate InTransaction(h: Disk)
      reads this
    {
      Valid() && TxOk(lay, disk, cache, adm, h)
    }

    /** initlog: mounts a disk that stands for `h` and recovers it. */
    constructor (lay: Layout, disk: Disk, ghost h: Disk)
      requires Represents(lay, disk, h)
      ensures InTransaction(h) && this.lay == lay && adm == Idle && cache == map[] && SameHome(lay, this.disk, h)
      ensures images != [] && images[0] == disk && AllRepresent(lay, images, 0, h)
    {
      this.lay := lay;
      this.disk := disk;
      cache := map[];
      n := 0;
      block := seq(LOGSIZE, _ => 0);
      outstanding, committing, adm := 0, false, Idle;
      images := [disk];
      new;
      RecoverFromLog(h);
    }

    function Bread(b: nat): Block
      reads this
      requires b < |disk|
    {
      if b in cache then cache[b] else disk[b]
    }

    method Bwrite(b: nat, data: Block)
      requires b < |disk|
      modifies this`disk, this`images
      ensures disk == old(disk)[b := data] && images == old(images) + [disk]
    {
      disk := disk[b := data];
      images := images + [disk];
    }

    method WriteHead()
      requires Valid() && lay.start !in cache
      modifies this`disk, this`images
      ensures disk == old(disk)[lay.start := SetHeader(old(disk)[lay.start], adm.lh)]
      ensures images == old(images) + [disk]
    {
      var hb := Bread(lay.start);
      var before := hb;
      hb := hb[0 := n];
      var i := 0;
      while i < n
        invariant 0 <= i <= n && |hb| == BLOCKWORDS && hb[0] == n
        invariant forall k :: 0 <= k < i ==> hb[1 + k] == block[k]
        invariant forall k :: 1 + i <= k < BLOCKWORDS ==> hb[k] == before[k]
      {
        hb := hb[1 + i := block[i]];
        i := i + 1;
      }
      assert hb == SetHeader(before, adm.lh);
      Bwrite(lay.start, hb);
    }

    method ReadHead()
      requires Valid() && lay.start !in cache && GoodHeader(lay, disk)
      modifies this`n, this`block, this`adm
      ensures Valid() && adm == old(adm).(lh := Header(lay, disk))
    {
      var lh := Bread(lay.start);
      n := lh[0];
      var i := 0;
      while i < n
        invariant 0 <= i <= n == HeaderCount(lay, disk) && |block| == LOGSIZE && adm == old(adm)
        invariant forall k :: 0 <= k < i ==> block[k] == lh[1 + k]
      {
        block := block[i := lh[1 + i]];
        i := i + 1;
      }
      assert block[..n] == Header(lay, disk);
      adm := adm.(lh := Header(lay, disk));
    }

    /** One round of install_trans's loop. */
    method InstallOne(tail: nat, recovering: bool, ghost h: Disk, ghost base: nat)
      requires Valid() && tail < n && Represents(lay, disk, h) && Header(lay, disk) == adm.lh
      requires CachedOnly(cache, adm.lh) && (recovering ==> cache == map[])
      requires Installed(disk, h, adm.lh, tail) && NoneCached(cache, adm.lh, tail)
      requires AllRepresent(lay, images, base, h)
      modifies this`disk, this`images, this`cache
      ensures Valid() && Represents(lay, disk, h) && Header(lay, disk) == adm.lh
      ensures CachedOnly(cache, adm.lh) && (recovering ==> cache == map[])
      ensures Installed(disk, h, adm.lh, tail + 1) && NoneCached(cache, adm.lh, tail + 1)
      ensures AllRepresent(lay, images, base, h) && images == old(images) + [disk]
    {
      LogBlocksUncached(lay, disk, adm.lh, cache, tail);
      var lbuf := Bread(lay.start + tail + 1);
      InstallRound(lay, disk, h, adm.lh, tail);
      UncacheRound(cache, adm.lh, tail);
      Bwrite(block[tail], lbuf);
      if !recovering {
        cache := cache - {block[tail]};
      }
    }

    /** Every image on the way, and the last one, stands for the same contents. */
    method InstallTrans(recovering: bool, ghost h: Disk)
      requires Valid() && Represents(lay, disk, h) && Header(lay, disk) == adm.lh
      requires CachedOnly(cache, adm.lh) && (recovering ==> cache == map[])
      modifies this`disk, this`images, this`cache
      ensures Valid() && Represents(lay, disk, h) && SameHome(lay, disk, h) && cache == map[]
      ensures |images| == |old(images)| + n && old(images) <= images
      ensures AllRepresent(lay, images, |old(images)|, h)
    {
      var tail := 0;
      while tail < n
        invariant 0 <= tail <= n && Valid() && Represents(lay, disk, h) && Header(lay, disk) == adm.lh
        invariant CachedOnly(cache, adm.lh) && (recovering ==> cache == map[])
        invariant Installed(disk, h, adm.lh, tail) && NoneCached(cache, adm.lh, tail)
        invariant |images| == |old(images)| + tail && old(images) <= images
        invariant AllRepresent(lay, images, |old(images)|, h)
      {
        InstallOne(tail, recovering, h, |old(images)|);
        tail := tail + 1;
      }
      NothingCached(cache, adm.lh);
      AllInstalled(lay, disk, h);
    }

    method WriteLog(ghost h: Disk)
      requires Valid() && n <= lay.size - 1 && Represents(lay, disk, h) && Header(lay, disk) == []
      modifies this`disk, this`images
      ensures |disk| == |old(disk)| && Represents(lay, disk, h) && Header(lay, disk) == []
      ensures SameHome(lay, disk, old(disk))
      ensures LoggedAs(lay, disk, cache, adm.lh, n)
      ensures |images| == |old(images)| + n && old(images) <= images
      ensures AllRepresent(lay, images, |old(images)|, h)
    {
      var tail := 0;
      while tail < n
        invariant 0 <= tail <= n && |disk| == |old(disk)|
        invariant Represents(lay, disk, h) && Header(lay, disk) == []
        invariant SameHome(lay, disk, old(disk))
        invariant LoggedAs(lay, disk, cache, adm.lh, tail)
        invariant |images| == |old(images)| + tail && old(images) <= images
        invariant AllRepresent(lay, images, |old(images)|, h)
      {
        var from := Bread(block[tail]);
        LogBlockWriteKeeps(lay, disk, h, tail, from);
        Bwrite(lay.start + tail + 1, from);
        tail := tail + 1;
      }
    }

    /** write_log and the header write: one image per logged block that stands
        for the old contents, then the commit point. */
    method WriteTransaction(ghost h: Disk)
      requires InTransaction(h) && n > 0
      modifies this`disk, this`images
      ensures |disk| == |old(disk)| && Represents(lay, disk, OverlayOf(cache, h)) && Header(lay, disk) == adm.lh
      ensures |images| == |old(images)| + n + 1 && old(images) <= images && images[|images| - 1] == disk
      ensures AllRepresent(lay, images[..|images| - 1], |old(images)|, h)
    {
      TxFacts(lay, disk, cache, adm, h);
      WriteLog(h);
      ghost var logged := images;
      CommitReady(lay, disk, cache, h, adm.lh);
      WriteHead();
      assert images[..|images| - 1] == logged;
    }

    /** install_trans and the second header write. */
    method InstallAndErase(ghost h: Disk)
      requires Valid() && Represents(lay, disk, h) && Header(lay, disk) == adm.lh && CachedOnly(cache, adm.lh)
      requires LogAdmission.Inv(lay.size, adm)
      modifies this`disk, this`images, this`cache, this`n, this`adm
      ensures InTransaction(h) && adm == old(adm).(lh := []) && cache == map[] && SameHome(lay, disk, h)
      ensures old(images) <= images && AllRepresent(lay, images, |old(images)|, h)
    {
      InstallTrans(false, h);
      n := 0;
      adm := adm.(lh := []);
      ClearHeader(lay, disk, h, disk[lay.start]);
      WriteHead();
      TxEmpty(lay, disk, old(adm), h);
    }

    /** Crash atomicity of one commit: up to the header write every image
        stands for the old contents, from it on for the new contents. */
    method Commit(ghost h: Disk)
      requires InTransaction(h)
      modifies this`disk, this`images, this`cache, this`n, this`adm
      ensures InTransaction(OverlayOf(old(cache), h))
      ensures adm == old(adm).(lh := []) && cache == map[]
      ensures SameHome(lay, disk, OverlayOf(old(cache), h))
      ensures old(images) <= images && |old(images)| + old(n) <= |images|
      ensures AllRepresent(lay, images[..|old(images)| + old(n)], |old(images)|, h)
      ensures AllRepresent(lay, images, |old(images)| + old(n), OverlayOf(old(cache), h))
    {
      if n > 0 {
        WriteTransaction(h);
        ghost var before := images;
        InstallAndErase(OverlayOf(cache, h));
        assert images[..|old(images)| + old(n)] == before[..|before| - 1];
        JoinImages(lay, before, images, |old(images)| + old(n), OverlayOf(old(cache), h));
      } else {
        TxNothingLogged(lay, disk, cache, adm, h);
      }
    }

    /** Recovery after a crash: memory is empty, the disk stands for some `h`. */
    method RecoverFromLog(ghost h: Disk)
      requires Valid() && cache == map[] && adm == Idle && Represents(lay, disk, h)
      modifies this`disk, this`images, this`n, this`block, this`cache, this`adm
      ensures InTransaction(h) && adm == Idle && cache == map[] && SameHome(lay, disk, h)
      ensures old(images) <= images && AllRepresent(lay, images, |old(images)|, h)
    {
      ReadHead();
      InstallTrans(true, h);
      n := 0;
      adm := adm.(lh := []);
      ClearHeader(lay, disk, h, disk[lay.start]);
      WriteHead();
      TxEmpty(lay, disk, Idle, h);
    }

    /** One pass of begin_op's loop; the caller sleeps and retries when it is refused. */
    method TryBeginOp(ghost h: Disk, ghost p: Pid) returns (admitted: bool)
      requires InTransaction(h) && p !in adm.credit
      modifies this`outstanding, this`adm
      ensures InTransaction(h)
      ensures admitted <==> CanBegin(old(adm))
      ensures adm == if admitted then Begin(old(adm), p) else old(adm)
    {
      if committing {
        admitted := false;
      } else if n + (outstanding + 1) * MAXOPBLOCKS > LOGSIZE {
        admitted := false;
      } else {
        InvStep(lay.size, adm, BeginOp(p), Begin(adm, p));
        outstanding := outstanding + 1;
        adm := Begin(adm, p);
        admitted := true;
      }
    }

    /** log_write's search for an entry to absorb into. */
    method Find(b: nat) returns (i: nat)
      requires n <= |block|
      ensures i <= n && (i < n ==> block[i] == b) && (i == n ==> b !in block[..n])
    {
      i := 0;
      while i < n && block[i] != b
        invariant 0 <= i <= n
        invariant forall k :: 0 <= k < i ==> block[k] != b
      {
        i := i + 1;
      }
    }

    /** log_write of a buffer for block b whose contents are now `data`, by an
        operation p in progress, within its budget or not. */
    method LogWrite(b: nat, data: Block, ghost h: Disk, ghost p: Pid) returns (r: Outcome)
      requires InTransaction(h) && b < |disk| && lay.Home(b)
      requires p in adm.credit
      modifies this`n, this`cache, this`adm, this`block
      ensures InTransaction(h)
      ensures r.PanicTooBig? <==> TooBig(old(adm), lay.size)
      ensures !r.PanicOutside?
      ensures r.Logged? ==> adm == Record(old(adm), p, b) && cache == old(cache)[b := data]
      ensures !r.Logged? ==> adm == old(adm) && cache == old(cache)
    {
      InProgress(lay.size, adm, p);
      if n >= LOGSIZE || n >= lay.size - 1 {
        return PanicTooBig;
      }
      if outstanding < 1 {
        return PanicOutside;
      }
      RecordBlock(b, data, h, p);
      r := Logged;
    }

    /** The part of log_write after its two tests. */
    method RecordBlock(b: nat, data: Block, ghost h: Disk, ghost p: Pid)
      requires InTransaction(h) && b < |disk| && lay.Home(b) && !TooBig(adm, lay.size)
      requires p in adm.credit
      modifies this`n, this`cache, this`adm, this`block
      ensures InTransaction(h) && adm == Record(old(adm), p, b) && cache == old(cache)[b := data]
    {
      var i := Find(b);
      TxRecord(lay, disk, cache, adm, h, p, b, data);
      RecordInArray(lay, disk, block, n, i, b);
      adm := Record(adm, p, b);
      block := block[i := b];
      n := if i == n then n + 1 else n;
      assert Valid();
      cache := cache[b := data];
    }

    /** The last operation to end runs the commit. */
    method EndOp(ghost h: Disk, ghost p: Pid) returns (committed: bool)
      requires InTransaction(h) && p in adm.credit
      modifies this`outstanding, this`committing, this`adm, this`disk, this`images, this`cache, this`n
      ensures committed <==> old(outstanding) == 1
      ensures !committed ==> InTransaction(h) && adm == End(old(adm), p)
      ensures !committed ==> images == old(images) && disk == old(disk) && cache == old(cache)
      ensures committed ==> InTransaction(OverlayOf(old(cache), h)) && adm == Finish(End(old(adm), p))
      ensures committed ==> SameHome(lay, disk, OverlayOf(old(cache), h)) && cache == map[]
      ensures committed ==>
                && |old(images)| + old(n) <= |images|
                && AllRepresent(lay, images[..|old(images)| + old(n)], |old(images)|, h)
                && AllRepresent(lay, images, |old(images)| + old(n), OverlayOf(old(cache), h))
      ensures old(images) <= images
      ensures EitherRepresents(lay, images, |old(images)|, h, OverlayOf(old(cache), h))
    {
      TxEnd(lay, disk, cache, adm, h, p);
      outstanding := outstanding - 1;
      adm := End(adm, p);
      committed := false;
      if outstanding == 0 {
        committed := true;
        committing := true;
      }
      if committed {
        Commit(h);
        SplitImages(lay, images, |old(images)|, |old(images)| + old(n), h, OverlayOf(old(cache), h));
        TxFinish(lay, disk, cache, adm, OverlayOf(old(cache), h));
        committing := false;
        adm := adm.(committing := false);
      }
    }
  }
}
