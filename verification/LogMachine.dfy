/** The log, the buffer cache and the disk together, as one machine whose runs
    interleave any number of processes, one committer, and crashes.

    A crash wipes memory at any point, also in the middle of recovery.  The
    fields `logical` and `committed` are specification only: the contents as of
    the last log_write of every block, and the contents as of the last
    transaction whose header reached the disk. */
module LogMachine {
  import opened Wrappers
  import opened LogAdmission
  import opened LogDisk

  /** One cache slot.  `waiting` are the processes that hold a reference but
      not yet the sleeplock; `holder` is the owner of the sleeplock. */
  datatype Buf = Buf(blk: Option<nat>, valid: bool, data: Block, refcnt: nat,
                     holder: Option<Pid>, waiting: set<Pid>)

  datatype Phase =
    | Normal
    | WriteLog(t: nat)      // write_log has written t blocks
    | Installing(t: nat)    // the header is on disk; t blocks are installed
    | Cleared               // the header is empty again; committing is still set
    | RecStart              // booting: read_head has not happened yet
    | RecInstall(t: nat)    // recovery has installed t blocks

  datatype State = State(disk: Disk, bufs: seq<Buf>, adm: LogAdmission.State,
                         phase: Phase, committer: Pid, logical: Disk, committed: Disk)

  datatype Step =
    | Begin(p: Pid)
    | Ref(p: Pid, i: nat)                // bget: hit
    | Recycle(p: Pid, i: nat, b: nat)    // bget: miss, takes an unused buffer
    | Lock(p: Pid, i: nat)               // bget: acquiresleep
    | Fill(p: Pid, i: nat)               // bread: read the disk
    | Modify(p: Pid, i: nat, data: Block)
    | LogIt(p: Pid, i: nat)              // log_write
    | Release(p: Pid, i: nat)            // brelse
    | End(p: Pid)
    | WriteLogBlock(i: nat, j: nat)
    | WriteHead(i: nat)
    | InstallBlock(i: nat, j: nat)
    | EraseHead(i: nat)
    | CommitEnd
    | Crash
    | RecRead(i: nat)
    | RecInstallBlock(i: nat, j: nat)
    | RecErase(i: nat)

  predicate Recovering(s: State) { s.phase.RecStart? || s.phase.RecInstall? }

  predicate Holds(s: State, p: Pid, i: nat) {
    i < |s.bufs| && s.bufs[i].holder == Some(p) && s.bufs[i].valid
  }

  predicate HoldsBlock(s: State, p: Pid, i: nat, b: nat) {
    Holds(s, p, i) && s.bufs[i].blk == Some(b)
  }

  predicate Cached(s: State, b: nat) {
    exists i :: 0 <= i < |s.bufs| && s.bufs[i].blk == Some(b)
  }

  /** The contents a reader of block b must see. */
  function Current(lay: Layout, s: State, b: nat): Block
    requires b < |s.disk| && |s.logical| == |s.disk|
  {
    if lay.Home(b) && !Recovering(s) then s.logical[b] else s.disk[b]
  }

  /** Blocks whose buffer log_write has pinned and install_trans not yet unpinned. */
  function Pinned(s: State): seq<nat> {
    match s.phase
    case Normal => s.adm.lh
    case WriteLog(_) => s.adm.lh
    case Installing(t) => if t <= |s.adm.lh| then s.adm.lh[t..] else []
    case _ => []
  }

  /** A buffer that its holder may have changed and not yet logged. */
  predicate MayBeDirty(lay: Layout, s: State, buf: Buf) {
    buf.holder.Some? && buf.holder.value in s.adm.credit &&
    buf.blk.Some? && lay.Home(buf.blk.value)
  }

  predicate UpToDate(lay: Layout, s: State, buf: Buf)
    requires |s.logical| == |s.disk|
  {
    buf.valid ==> buf.blk.Some? && buf.blk.value < |s.disk| && buf.data == Current(lay, s, buf.blk.value)
  }

  ghost predicate AllUpToDate(lay: Layout, s: State, p: Pid)
    requires |s.logical| == |s.disk|
  {
    forall i :: 0 <= i < |s.bufs| && s.bufs[i].holder == Some(p) ==> UpToDate(lay, s, s.bufs[i])
  }

  function SetBuf(s: State, i: nat, buf: Buf): State
    requires i < |s.bufs|
  {
    s.(bufs := s.bufs[i := buf])
  }

  function Drop(buf: Buf): Buf { buf.(refcnt := if buf.refcnt > 0 then buf.refcnt - 1 else 0) }

  /** A slot as binit leaves it. */
  predicate Unused(buf: Buf) {
    buf.blk.None? && !buf.valid && buf.refcnt == 0 && buf.holder.None? && buf.waiting == {}
  }

  // ----- the steps -----

  ghost predicate BufStep(lay: Layout, s: State, step: Step, s': State)
    requires |s.logical| == |s.disk|
  {
    match step
    case Ref(p, i) =>
      && i < |s.bufs| && s.bufs[i].blk.Some? && p !in s.bufs[i].waiting
      && s' == SetBuf(s, i, s.bufs[i].(refcnt := s.bufs[i].refcnt + 1, waiting := s.bufs[i].waiting + {p}))
    case Recycle(p, i, b) =>
      && i < |s.bufs| && s.bufs[i].refcnt == 0 && b < |s.disk| && !Cached(s, b)
      && s' == SetBuf(s, i, s.bufs[i].(blk := Some(b), valid := false, refcnt := 1, waiting := {p}))
    case Lock(p, i) =>
      && i < |s.bufs| && p in s.bufs[i].waiting && s.bufs[i].holder.None?
      && s' == SetBuf(s, i, s.bufs[i].(holder := Some(p), waiting := s.bufs[i].waiting - {p}))
    case Fill(p, i) =>
      && i < |s.bufs| && s.bufs[i].holder == Some(p) && !s.bufs[i].valid
      && s.bufs[i].blk.Some? && s.bufs[i].blk.value < |s.disk|
      && s' == SetBuf(s, i, s.bufs[i].(valid := true, data := s.disk[s.bufs[i].blk.value]))
    case Modify(p, i, data) =>
      && Holds(s, p, i) && p in s.adm.credit && s.phase.Normal?
      && s.bufs[i].blk.Some? && lay.Home(s.bufs[i].blk.value)
      && s' == SetBuf(s, i, s.bufs[i].(data := data))
    case Release(p, i) =>
      // whoever changed the buffer has passed it to log_write first
      && Holds(s, p, i) && UpToDate(lay, s, s.bufs[i])
      && s' == SetBuf(s, i, Drop(s.bufs[i]).(holder := None))
    case _ => false
  }

  ghost predicate OpStep(lay: Layout, s: State, step: Step, s': State)
    requires |s.logical| == |s.disk|
  {
    match step
    case Begin(p) =>
      && !Recovering(s) && LogAdmission.Next(lay.size, s.adm, BeginOp(p), s'.adm)
      && s' == s.(adm := s'.adm)
    case LogIt(p, i) =>
      && Holds(s, p, i) && s.bufs[i].blk.Some? && s.bufs[i].blk.value < |s.disk| && s.phase.Normal?
      && var b := s.bufs[i].blk.value;
         && lay.Home(b) && LogAdmission.Next(lay.size, s.adm, LogWrite(p, b), s'.adm)
         && s' == s.(adm := s'.adm, logical := s.logical[b := s.bufs[i].data],
                     bufs := if b in s.adm.lh then s.bufs
                             else s.bufs[i := s.bufs[i].(refcnt := s.bufs[i].refcnt + 1)])
    case End(p) =>
      // the operation has released every buffer it changed
      && AllUpToDate(lay, s, p)
      && s.phase.Normal? && LogAdmission.Next(lay.size, s.adm, EndOp(p), s'.adm)
      && s' == s.(adm := s'.adm, committer := p,
                  phase := if !s'.adm.committing then Normal
                           else if |s.adm.lh| > 0 then WriteLog(0) else Cleared)
    case _ => false
  }

  ghost predicate CommitStep(lay: Layout, s: State, step: Step, s': State)
    requires lay.Fits(s.disk)
  {
    match step
    case WriteLogBlock(i, j) =>
      && s.phase.WriteLog? && s.phase.t < |s.adm.lh| && lay.start + 1 + s.phase.t < |s.disk|
      && HoldsBlock(s, s.committer, i, lay.start + 1 + s.phase.t)
      && HoldsBlock(s, s.committer, j, s.adm.lh[s.phase.t])
      && s' == s.(disk := s.disk[lay.start + 1 + s.phase.t := s.bufs[j].data],
                  bufs := s.bufs[i := s.bufs[i].(data := s.bufs[j].data)],
                  phase := WriteLog(s.phase.t + 1))
    case WriteHead(i) =>
      && s.phase.WriteLog? && s.phase.t == |s.adm.lh| <= LOGSIZE
      && (forall k :: 0 <= k < |s.adm.lh| ==> s.adm.lh[k] < 0x1_0000_0000)
      && HoldsBlock(s, s.committer, i, lay.start)
      && var h := SetHeader(s.bufs[i].data, s.adm.lh);
         s' == s.(disk := s.disk[lay.start := h], bufs := s.bufs[i := s.bufs[i].(data := h)],
                  phase := Installing(0), committed := s.logical)
    case InstallBlock(i, j) =>
      && s.phase.Installing? && s.phase.t < |s.adm.lh| && s.adm.lh[s.phase.t] < |s.disk|
      && HoldsBlock(s, s.committer, i, lay.start + 1 + s.phase.t)
      && HoldsBlock(s, s.committer, j, s.adm.lh[s.phase.t])
      && s' == s.(disk := s.disk[s.adm.lh[s.phase.t] := s.bufs[i].data],
                  bufs := s.bufs[j := Drop(s.bufs[j]).(data := s.bufs[i].data)],
                  phase := Installing(s.phase.t + 1))
    case EraseHead(i) =>
      && s.phase.Installing? && s.phase.t == |s.adm.lh|
      && HoldsBlock(s, s.committer, i, lay.start)
      && var h := SetHeader(s.bufs[i].data, []);
         s' == s.(disk := s.disk[lay.start := h], bufs := s.bufs[i := s.bufs[i].(data := h)],
                  adm := s.adm.(lh := []), phase := Cleared)
    case CommitEnd =>
      && s.phase.Cleared? && LogAdmission.Next(lay.size, s.adm, CommitDone, s'.adm)
      && s' == s.(adm := s'.adm, phase := Normal)
    case _ => false
  }

  ghost predicate Wiped(s: State) {
    forall i :: 0 <= i < |s.bufs| ==> Unused(s.bufs[i])
  }

  ghost predicate CrashStep(lay: Layout, s: State, step: Step, s': State)
    requires lay.Fits(s.disk) && GoodHeader(lay, s.disk)
  {
    match step
    case Crash =>
      && |s'.bufs| == |s.bufs| && Wiped(s')
      && s' == State.State(s.disk, s'.bufs, Idle, RecStart, s.committer, s.committed, s.committed)
    case RecRead(i) =>
      && s.phase.RecStart? && HoldsBlock(s, s.committer, i, lay.start)
      && s'.adm.lh == Header(lay, s.disk)
      && s' == s.(adm := s.adm.(lh := s'.adm.lh), phase := RecInstall(0))
    case RecInstallBlock(i, j) =>
      && s.phase.RecInstall? && s.phase.t < |s.adm.lh| && s.adm.lh[s.phase.t] < |s.disk|
      && HoldsBlock(s, s.committer, i, lay.start + 1 + s.phase.t)
      && HoldsBlock(s, s.committer, j, s.adm.lh[s.phase.t])
      && s' == s.(disk := s.disk[s.adm.lh[s.phase.t] := s.bufs[i].data],
                  bufs := s.bufs[j := s.bufs[j].(data := s.bufs[i].data)],
                  phase := RecInstall(s.phase.t + 1))
    case RecErase(i) =>
      && s.phase.RecInstall? && s.phase.t == |s.adm.lh|
      && HoldsBlock(s, s.committer, i, lay.start)
      && var h := SetHeader(s.bufs[i].data, []);
         s' == s.(disk := s.disk[lay.start := h], bufs := s.bufs[i := s.bufs[i].(data := h)],
                  adm := s.adm.(lh := []), phase := Normal)
    case _ => false
  }

  ghost predicate Next(lay: Layout, s: State, step: Step, s': State)
    requires lay.Fits(s.disk) && GoodHeader(lay, s.disk) && |s.logical| == |s.disk|
  {
    || BufStep(lay, s, step, s')
    || OpStep(lay, s, step, s')
    || CommitStep(lay, s, step, s')
    || CrashStep(lay, s, step, s')
  }

  // ----- the invariant -----

  ghost predicate AdmOk(lay: Layout, s: State) {
    && LogAdmission.Inv(lay.size, s.adm)
    && (s.adm.committing <==> (s.phase.WriteLog? || s.phase.Installing? || s.phase.Cleared?))
    && (!s.phase.Normal? ==> s.adm.credit == map[])
    && (s.phase.Cleared? || s.phase.RecStart? ==> s.adm.lh == [])
    && (forall k :: 0 <= k < |s.adm.lh| ==> s.adm.lh[k] < |s.disk| && lay.Home(s.adm.lh[k]))
  }

  ghost predicate CacheOk(lay: Layout, s: State)
    requires |s.logical| == |s.disk|
  {
    && Unique(s.bufs)
    && (forall i :: 0 <= i < |s.bufs| ==> BufOk(lay, s, s.bufs[i]))
    && PinsCached(s.bufs, Pinned(s))
    && DiskCurrent(lay, s)
  }

  /** No block has two buffers. */
  ghost predicate Unique(bufs: seq<Buf>) {
    forall i, j :: 0 <= i < j < |bufs| && bufs[i].blk.Some? ==> bufs[i].blk != bufs[j].blk
  }

  ghost predicate BufOk(lay: Layout, s: State, buf: Buf)
    requires |s.logical| == |s.disk|
  {
    && (buf.blk.None? ==> Unused(buf))
    && (buf.blk.Some? ==> buf.blk.value < |s.disk|)
    && RefsOk(Pinned(s), buf)
    && (MayBeDirty(lay, s, buf) || UpToDate(lay, s, buf))
  }

  /** The reference count is exactly the waiters, the holder and the log's pin. */
  ghost predicate RefsOk(pins: seq<nat>, buf: Buf) {
    buf.refcnt == |buf.waiting| + (if buf.holder.Some? then 1 else 0)
                  + (if buf.blk.Some? && buf.blk.value in pins then 1 else 0)
  }

  ghost predicate ValidlyCached(bufs: seq<Buf>, b: nat) {
    exists i :: 0 <= i < |bufs| && bufs[i].blk == Some(b) && bufs[i].valid
  }

  ghost predicate PinsCached(bufs: seq<Buf>, pins: seq<nat>) {
    forall k :: 0 <= k < |pins| ==> ValidlyCached(bufs, pins[k])
  }

  /** Away from the pinned blocks the disk itself is current. */
  ghost predicate DiskCurrent(lay: Layout, s: State)
    requires |s.logical| == |s.disk|
  {
    forall b :: 0 <= b < |s.disk| && lay.Home(b) && b !in Pinned(s) ==> s.disk[b] == Current(lay, s, b)
  }

  ghost predicate DiskOk(lay: Layout, s: State)
    requires |s.logical| == |s.disk|
  {
    && Represents(lay, s.disk, s.committed)
    && (s.phase.Normal? || s.phase.Cleared? || s.phase.WriteLog? ==> Header(lay, s.disk) == [])
    && (s.phase.WriteLog? ==> LoggedUpTo(lay, s, s.phase.t))
    && (s.phase.Installing? || s.phase.RecInstall? ==>
          Header(lay, s.disk) == s.adm.lh && s.phase.t <= |s.adm.lh|)
    && (s.phase.Installing? || Recovering(s) ==> s.committed == s.logical)
    && (s.phase.RecInstall? ==> InstalledUpTo(s, s.phase.t))
  }

  ghost predicate LoggedUpTo(lay: Layout, s: State, t: nat) {
    && t <= |s.adm.lh| <= lay.size - 1 && lay.start + lay.size <= |s.disk|
    && forall k :: 0 <= k < t ==> s.adm.lh[k] < |s.logical| && s.disk[lay.start + 1 + k] == s.logical[s.adm.lh[k]]
  }

  ghost predicate InstalledUpTo(s: State, t: nat) {
    && t <= |s.adm.lh|
    && forall k :: 0 <= k < t ==>
         s.adm.lh[k] < |s.disk| && s.adm.lh[k] < |s.logical| && s.disk[s.adm.lh[k]] == s.logical[s.adm.lh[k]]
  }

  ghost predicate Inv(lay: Layout, s: State) {
    && lay.Fits(s.disk) && |s.logical| == |s.disk|
    && (forall k :: 0 <= k < |s.adm.lh| ==> s.adm.lh[k] < |s.disk|)
    && AdmOk(lay, s) && DiskOk(lay, s) && CacheOk(lay, s)
  }

  ghost predicate Init(lay: Layout, s: State) {
    && Represents(lay, s.disk, s.committed) && s.logical == s.committed
    && s.adm == Idle && s.phase.RecStart?
    && Wiped(s)
  }

  lemma InitInv(lay: Layout, s: State)
    requires Init(lay, s)
    ensures Inv(lay, s)
  {
    assert s.adm.credit == map[];
  }

  // ----- preservation, one step at a time -----

  /** Buffers that keep their block and stay valid keep the pins. */
  lemma PinsStay(bufs: seq<Buf>, bufs': seq<Buf>, pins: seq<nat>)
    requires PinsCached(bufs, pins) && |bufs'| == |bufs|
    requires forall j :: 0 <= j < |bufs| && bufs[j].valid ==> bufs'[j].blk == bufs[j].blk && bufs'[j].valid
    ensures PinsCached(bufs', pins)
  {
    forall k | 0 <= k < |pins| ensures ValidlyCached(bufs', pins[k]) {
      assert ValidlyCached(bufs, pins[k]);
      var j :| 0 <= j < |bufs| && bufs[j].blk == Some(pins[k]) && bufs[j].valid;
      assert bufs'[j].blk == Some(pins[k]) && bufs'[j].valid;
    }
  }

  lemma UniqueStays(bufs: seq<Buf>, bufs': seq<Buf>)
    requires Unique(bufs) && |bufs'| == |bufs|
    requires forall j :: 0 <= j < |bufs| ==> bufs'[j].blk == bufs[j].blk
    ensures Unique(bufs')
  {
  }

  /** What is said of a buffer depends on the rest of the state only, not on its neighbours. */
  lemma BufsStay(lay: Layout, s: State, s': State)
    requires |s.logical| == |s.disk| && s' == s.(bufs := s'.bufs)
    requires forall j :: 0 <= j < |s'.bufs| ==> BufOk(lay, s, s'.bufs[j])
    ensures forall j :: 0 <= j < |s'.bufs| ==> BufOk(lay, s', s'.bufs[j])
  {
    assert Pinned(s') == Pinned(s);
  }

  lemma CurrentStays(lay: Layout, s: State, s': State)
    requires |s.logical| == |s.disk| && s' == s.(bufs := s'.bufs) && DiskCurrent(lay, s)
    ensures DiskCurrent(lay, s')
  {
    assert Pinned(s') == Pinned(s);
  }

  lemma PinnedIsValid(lay: Layout, s: State, i: nat)
    requires |s.logical| == |s.disk| && CacheOk(lay, s)
    requires i < |s.bufs| && s.bufs[i].blk.Some? && s.bufs[i].blk.value in Pinned(s)
    ensures s.bufs[i].valid
  {
    var pins := Pinned(s);
    var k :| 0 <= k < |pins| && pins[k] == s.bufs[i].blk.value;
    assert ValidlyCached(s.bufs, pins[k]);
    var j :| 0 <= j < |s.bufs| && s.bufs[j].blk == Some(pins[k]) && s.bufs[j].valid;
  }

  /** A step that touches one buffer, keeps its block and leaves the disk and
      the log alone needs only that buffer checked. */
  lemma OneBuf(lay: Layout, s: State, i: nat, buf: Buf)
    requires Inv(lay, s) && i < |s.bufs| && BufOk(lay, s, buf)
    requires buf.blk == s.bufs[i].blk && (s.bufs[i].valid ==> buf.valid)
    ensures Inv(lay, SetBuf(s, i, buf))
  {
    var s' := SetBuf(s, i, buf);
    OneBufCache(lay, s, i, buf);
    OnlyBufs(lay, s, s');
  }

  lemma OneBufCache(lay: Layout, s: State, i: nat, buf: Buf)
    requires |s.logical| == |s.disk| && CacheOk(lay, s) && i < |s.bufs| && BufOk(lay, s, buf)
    requires buf.blk == s.bufs[i].blk && (s.bufs[i].valid ==> buf.valid)
    ensures CacheOk(lay, SetBuf(s, i, buf))
  {
    var s' := SetBuf(s, i, buf);
    PinsStay(s.bufs, s'.bufs, Pinned(s));
    BufsStay(lay, s, s');
    UniqueStays(s.bufs, s'.bufs);
    CurrentStays(lay, s, s');
  }

  /** Log and disk do not look at the buffers. */
  lemma OnlyBufs(lay: Layout, s: State, s': State)
    requires |s.logical| == |s.disk| && AdmOk(lay, s) && DiskOk(lay, s) && s' == s.(bufs := s'.bufs)
    ensures AdmOk(lay, s') && DiskOk(lay, s')
  {
  }

  lemma RefInv(lay: Layout, s: State, p: Pid, i: nat, s': State)
    requires Inv(lay, s) && BufStep(lay, s, Ref(p, i), s')
    ensures Inv(lay, s')
  {
    assert BufOk(lay, s, s.bufs[i]);
    OneBuf(lay, s, i, s'.bufs[i]);
  }

  lemma LockInv(lay: Layout, s: State, p: Pid, i: nat, s': State)
    requires Inv(lay, s) && BufStep(lay, s, Lock(p, i), s')
    ensures Inv(lay, s') && UpToDate(lay, s', s'.bufs[i])
  {
    assert BufOk(lay, s, s.bufs[i]);
    OneBuf(lay, s, i, s'.bufs[i]);
  }

  lemma ReleaseInv(lay: Layout, s: State, p: Pid, i: nat, s': State)
    requires Inv(lay, s) && BufStep(lay, s, Release(p, i), s')
    ensures Inv(lay, s')
  {
    assert BufOk(lay, s, s.bufs[i]);
    OneBuf(lay, s, i, s'.bufs[i]);
  }

  /** A pinned block's buffer has a positive count, so it is never recycled. */
  lemma RecyclePins(lay: Layout, s: State, p: Pid, i: nat, b: nat, s': State)
    requires Inv(lay, s) && BufStep(lay, s, Recycle(p, i, b), s')
    ensures PinsCached(s'.bufs, Pinned(s)) && b !in Pinned(s)
  {
    assert BufOk(lay, s, s.bufs[i]);
    var pins := Pinned(s);
    forall k | 0 <= k < |pins| ensures pins[k] != b && ValidlyCached(s'.bufs, pins[k]) {
      assert ValidlyCached(s.bufs, pins[k]);
      var j :| 0 <= j < |s.bufs| && s.bufs[j].blk == Some(pins[k]) && s.bufs[j].valid;
      assert BufOk(lay, s, s.bufs[j]);
      assert s'.bufs[j] == s.bufs[j];
    }
  }

  lemma RecycleInv(lay: Layout, s: State, p: Pid, i: nat, b: nat, s': State)
    requires Inv(lay, s) && BufStep(lay, s, Recycle(p, i, b), s')
    ensures Inv(lay, s')
  {
    RecyclePins(lay, s, p, i, b, s');
    assert Pinned(s') == Pinned(s);
    assert BufOk(lay, s, s.bufs[i]);
    assert BufOk(lay, s, s'.bufs[i]);
    BufsStay(lay, s, s');
    CurrentStays(lay, s, s');
    RecycleUnique(s, i, b, s');
  }

  lemma RecycleUnique(s: State, i: nat, b: nat, s': State)
    requires Unique(s.bufs) && !Cached(s, b) && i < |s.bufs| == |s'.bufs|
    requires s'.bufs[i].blk == Some(b) && forall j :: 0 <= j < |s.bufs| && j != i ==> s'.bufs[j] == s.bufs[j]
    ensures Unique(s'.bufs)
  {
  }

  lemma FillInv(lay: Layout, s: State, p: Pid, i: nat, s': State)
    requires Inv(lay, s) && BufStep(lay, s, Fill(p, i), s')
    ensures Inv(lay, s') && UpToDate(lay, s', s'.bufs[i])
  {
    assert BufOk(lay, s, s.bufs[i]);
    if s.bufs[i].blk.value in Pinned(s) {
      PinnedIsValid(lay, s, i);
    }
    OneBuf(lay, s, i, s'.bufs[i]);
  }

  lemma ModifyInv(lay: Layout, s: State, p: Pid, i: nat, data: Block, s': State)
    requires Inv(lay, s) && BufStep(lay, s, Modify(p, i, data), s')
    ensures Inv(lay, s')
  {
    assert BufOk(lay, s, s.bufs[i]);
    OneBuf(lay, s, i, s'.bufs[i]);
  }

  lemma BeginInv(lay: Layout, s: State, p: Pid, s': State)
    requires Inv(lay, s) && OpStep(lay, s, Begin(p), s')
    ensures Inv(lay, s')
  {
    LogAdmission.InvStep(lay.size, s.adm, BeginOp(p), s'.adm);
    assert Pinned(s') == Pinned(s);
    forall i | 0 <= i < |s.bufs| ensures BufOk(lay, s', s'.bufs[i]) {
      assert BufOk(lay, s, s.bufs[i]);
    }
  }

  lemma LogItInv(lay: Layout, s: State, p: Pid, i: nat, s': State)
    requires Inv(lay, s) && OpStep(lay, s, LogIt(p, i), s')
    ensures Inv(lay, s')
  {
    LogAdmission.InvStep(lay.size, s.adm, LogWrite(p, s.bufs[i].blk.value), s'.adm);
    LogItPins(lay, s, p, i, s');
    LogItBufs(lay, s, p, i, s');
  }

  lemma LogItPins(lay: Layout, s: State, p: Pid, i: nat, s': State)
    requires |s.logical| == |s.disk| && PinsCached(s.bufs, Pinned(s)) && OpStep(lay, s, LogIt(p, i), s')
    ensures PinsCached(s'.bufs, Pinned(s'))
  {
    PinsStay(s.bufs, s'.bufs, Pinned(s));
    forall k | 0 <= k < |Pinned(s')| ensures ValidlyCached(s'.bufs, Pinned(s')[k]) {
      if k == |s.adm.lh| {
        assert s'.bufs[i].blk == Some(Pinned(s')[k]) && s'.bufs[i].valid;
      } else {
        assert ValidlyCached(s'.bufs, Pinned(s)[k]);
      }
    }
  }

  lemma LogItBufs(lay: Layout, s: State, p: Pid, i: nat, s': State)
    requires Inv(lay, s) && OpStep(lay, s, LogIt(p, i), s')
    ensures |s'.logical| == |s'.disk|
    ensures forall j :: 0 <= j < |s'.bufs| ==> BufOk(lay, s', s'.bufs[j])
  {
    var b := s.bufs[i].blk.value;
    forall j | 0 <= j < |s'.bufs| ensures BufOk(lay, s', s'.bufs[j]) {
      assert BufOk(lay, s, s.bufs[j]);
      assert j != i && s.bufs[j].blk.Some? ==> s.bufs[j].blk.value != b;
    }
  }

  lemma EndInv(lay: Layout, s: State, p: Pid, s': State)
    requires Inv(lay, s) && OpStep(lay, s, End(p), s')
    ensures Inv(lay, s')
  {
    LogAdmission.InvStep(lay.size, s.adm, EndOp(p), s'.adm);
    assert Pinned(s') == Pinned(s);
    if s'.adm.committing {
      assert |s'.adm.credit.Keys| == 0;
      assert s'.adm.credit == map[];
    }
    forall j | 0 <= j < |s.bufs| ensures BufOk(lay, s', s'.bufs[j]) {
      assert BufOk(lay, s, s.bufs[j]);
    }
  }

  /** Outside Normal no buffer can be dirty. */
  lemma AllClean(lay: Layout, s: State)
    requires Inv(lay, s) && !s.phase.Normal?
    ensures forall j :: 0 <= j < |s.bufs| ==> UpToDate(lay, s, s.bufs[j])
  {
    forall j | 0 <= j < |s.bufs| ensures UpToDate(lay, s, s.bufs[j]) {
      assert BufOk(lay, s, s.bufs[j]);
    }
  }

  /** A disk write of block b from buffer i: every other buffer is for another block. */
  lemma WriteThrough(lay: Layout, s: State, i: nat, b: nat, s': State)
    requires |s.logical| == |s.disk| && CacheOk(lay, s)
    requires forall j :: 0 <= j < |s.bufs| ==> UpToDate(lay, s, s.bufs[j])
    requires i < |s.bufs| == |s'.bufs| && s.bufs[i].blk == Some(b) && s.bufs[i].valid && b < |s.disk|
    requires |s'.logical| == |s'.disk| && s'.disk == s.disk[b := s'.bufs[i].data]
    requires s'.logical == s.logical && Recovering(s') == Recovering(s)
    requires s'.bufs == s.bufs[i := s'.bufs[i]] && s'.bufs[i] == s.bufs[i].(data := s'.bufs[i].data)
    requires Pinned(s') == Pinned(s)
    requires lay.Home(b) && !Recovering(s) ==> s'.bufs[i].data == s.logical[b]
    ensures CacheOk(lay, s')
  {
    PinsStay(s.bufs, s'.bufs, Pinned(s));
    forall j | 0 <= j < |s'.bufs| ensures BufOk(lay, s', s'.bufs[j]) {
      assert BufOk(lay, s, s.bufs[j]) && UpToDate(lay, s, s.bufs[j]);
      assert j != i && s.bufs[j].blk.Some? ==> s.bufs[j].blk.value != b;
    }
  }

  lemma WriteLogBlockInv(lay: Layout, s: State, i: nat, j: nat, s': State)
    requires Inv(lay, s) && CommitStep(lay, s, WriteLogBlock(i, j), s')
    ensures Inv(lay, s')
  {
    WriteLogDisk(lay, s, i, j, s');
    AllClean(lay, s);
    WriteThrough(lay, s, i, lay.start + 1 + s.phase.t, s');
  }

  lemma WriteLogDisk(lay: Layout, s: State, i: nat, j: nat, s': State)
    requires Inv(lay, s) && CommitStep(lay, s, WriteLogBlock(i, j), s')
    ensures |s'.logical| == |s'.disk| && lay.Fits(s'.disk) && DiskOk(lay, s')
  {
    CleanData(lay, s, j);
    LogBlockWriteKeeps(lay, s.disk, s.committed, s.phase.t, s.bufs[j].data);
    LoggedMore(lay, s, s.phase.t, s'.disk);
  }

  lemma CleanData(lay: Layout, s: State, j: nat)
    requires Inv(lay, s) && s.phase.WriteLog? && s.phase.t < |s.adm.lh|
    requires HoldsBlock(s, s.committer, j, s.adm.lh[s.phase.t])
    ensures s.bufs[j].data == s.logical[s.adm.lh[s.phase.t]]
  {
    assert BufOk(lay, s, s.bufs[j]);
  }

  lemma LoggedMore(lay: Layout, s: State, t: nat, disk: Disk)
    requires LoggedUpTo(lay, s, t) && t < |s.adm.lh| && s.adm.lh[t] < |s.logical|
    requires disk == s.disk[lay.start + 1 + t := s.logical[s.adm.lh[t]]]
    ensures LoggedUpTo(lay, s.(disk := disk), t + 1)
  {
  }

  lemma WriteHeadInv(lay: Layout, s: State, i: nat, s': State)
    requires Inv(lay, s) && CommitStep(lay, s, WriteHead(i), s')
    ensures Inv(lay, s')
  {
    WriteHeadDisk(lay, s, i, s');
    AllClean(lay, s);
    assert Pinned(s') == Pinned(s);
    WriteThrough(lay, s, i, lay.start, s');
  }

  lemma WriteHeadDisk(lay: Layout, s: State, i: nat, s': State)
    requires Inv(lay, s) && CommitStep(lay, s, WriteHead(i), s')
    ensures Represents(lay, s'.disk, s.logical) && Header(lay, s'.disk) == s.adm.lh
  {
    forall b | 0 <= b < |s.disk| && lay.Home(b) && b !in s.adm.lh ensures s.logical[b] == s.committed[b] {
      assert b !in Pinned(s);
    }
    CommitPoint(lay, s.disk, s.committed, s.logical, s.adm.lh, s.bufs[i].data);
  }

  /** install_trans reads from the log exactly what was logged for that block. */
  lemma LogCopy(lay: Layout, s: State, i: nat)
    requires Inv(lay, s) && (s.phase.Installing? || s.phase.RecInstall?) && s.phase.t < |s.adm.lh|
    requires HoldsBlock(s, s.committer, i, lay.start + 1 + s.phase.t)
    ensures s.bufs[i].data == s.disk[lay.start + 1 + s.phase.t] == s.committed[s.adm.lh[s.phase.t]]
    ensures var e := s.disk[s.adm.lh[s.phase.t] := s.bufs[i].data];
            Represents(lay, e, s.committed) && Header(lay, e) == s.adm.lh
  {
    LogBlockRead(lay, s, i);
    InstallWith(lay, s.disk, s.committed, s.adm.lh, s.phase.t, s.bufs[i].data);
  }

  lemma LogBlockRead(lay: Layout, s: State, i: nat)
    requires Inv(lay, s) && (s.phase.Installing? || s.phase.RecInstall?) && s.phase.t < |s.adm.lh|
    requires HoldsBlock(s, s.committer, i, lay.start + 1 + s.phase.t)
    ensures lay.start + 1 + s.phase.t < |s.disk| && s.bufs[i].data == s.disk[lay.start + 1 + s.phase.t]
  {
    assert !lay.Home(lay.start + 1 + s.phase.t);
    assert BufOk(lay, s, s.bufs[i]);
  }

  lemma InstallWith(lay: Layout, d: Disk, h: Disk, lh: seq<nat>, t: nat, data: Block)
    requires Represents(lay, d, h) && Header(lay, d) == lh && t < |lh| && data == d[lay.start + 1 + t]
    ensures data == h[lh[t]]
    ensures var e := d[lh[t] := data]; Represents(lay, e, h) && Header(lay, e) == lh
  {
    InstallOneKeeps(lay, d, h, t);
  }

  lemma InstallBlockInv(lay: Layout, s: State, i: nat, j: nat, s': State)
    requires Inv(lay, s) && CommitStep(lay, s, InstallBlock(i, j), s')
    ensures Inv(lay, s')
  {
    LogCopy(lay, s, i);
    InstallCache(lay, s, i, j, s');
  }

  lemma InstallCache(lay: Layout, s: State, i: nat, j: nat, s': State)
    requires Inv(lay, s) && CommitStep(lay, s, InstallBlock(i, j), s')
    requires s.bufs[i].data == s.committed[s.adm.lh[s.phase.t]]
    ensures |s'.logical| == |s'.disk| && CacheOk(lay, s')
  {
    // first the disk write alone, then the unpinning
    AllClean(lay, s);
    var m := s.(disk := s'.disk, bufs := s.bufs[j := s.bufs[j].(data := s.bufs[i].data)]);
    WriteThrough(lay, s, j, s.adm.lh[s.phase.t], m);
    Unpin(lay, m, j, s');
  }

  lemma Unpin(lay: Layout, m: State, j: nat, s': State)
    requires |m.logical| == |m.disk| && CacheOk(lay, m) && Distinct(m.adm.lh)
    requires m.phase.Installing? && m.phase.t < |m.adm.lh| && m.adm.lh[m.phase.t] < |m.disk|
    requires j < |m.bufs| && m.bufs[j].blk == Some(m.adm.lh[m.phase.t])
    requires m.disk[m.adm.lh[m.phase.t]] == m.logical[m.adm.lh[m.phase.t]]
    requires s' == m.(bufs := m.bufs[j := Drop(m.bufs[j])], phase := Installing(m.phase.t + 1))
    ensures CacheOk(lay, s')
  {
    FewerPins(m, s');
    PinsStay(m.bufs, s'.bufs, Pinned(s'));
    UniqueStays(m.bufs, s'.bufs);
    UnpinCurrent(lay, m, s');
    forall k | 0 <= k < |s'.bufs| ensures BufOk(lay, s', s'.bufs[k]) {
      UnpinBuf(lay, m, j, k, s');
    }
  }

  /** One pin less: the rest are still cached. */
  lemma FewerPins(m: State, s': State)
    requires Distinct(m.adm.lh) && PinsCached(m.bufs, Pinned(m))
    requires m.phase.Installing? && m.phase.t < |m.adm.lh|
    requires s'.adm == m.adm && s'.phase == Installing(m.phase.t + 1)
    ensures Pinned(m) == [m.adm.lh[m.phase.t]] + Pinned(s') && m.adm.lh[m.phase.t] !in Pinned(s')
    ensures PinsCached(m.bufs, Pinned(s'))
  {
    forall k | 0 <= k < |Pinned(s')| ensures ValidlyCached(m.bufs, Pinned(s')[k]) {
      assert ValidlyCached(m.bufs, Pinned(m)[k + 1]);
    }
  }

  lemma UnpinCurrent(lay: Layout, m: State, s': State)
    requires |m.logical| == |m.disk| && DiskCurrent(lay, m)
    requires m.phase.Installing? && m.phase.t < |m.adm.lh| && m.adm.lh[m.phase.t] < |m.disk|
    requires m.disk[m.adm.lh[m.phase.t]] == m.logical[m.adm.lh[m.phase.t]]
    requires s' == m.(bufs := s'.bufs, phase := Installing(m.phase.t + 1))
    requires Pinned(m) == [m.adm.lh[m.phase.t]] + Pinned(s')
    ensures DiskCurrent(lay, s')
  {
  }

  lemma UnpinBuf(lay: Layout, m: State, j: nat, k: nat, s': State)
    requires |m.logical| == |m.disk| && Unique(m.bufs)
    requires m.phase.Installing? && m.phase.t < |m.adm.lh|
    requires j < |m.bufs| && m.bufs[j].blk == Some(m.adm.lh[m.phase.t]) && k < |m.bufs|
    requires BufOk(lay, m, m.bufs[k])
    requires s' == m.(bufs := m.bufs[j := Drop(m.bufs[j])], phase := Installing(m.phase.t + 1))
    requires Pinned(m) == [m.adm.lh[m.phase.t]] + Pinned(s') && m.adm.lh[m.phase.t] !in Pinned(s')
    ensures BufOk(lay, s', s'.bufs[k])
  {
    assert UpToDate(lay, m, m.bufs[k]) ==> UpToDate(lay, s', s'.bufs[k]);
    assert RefsOk(Pinned(s'), s'.bufs[k]);
  }

  lemma EraseHeadInv(lay: Layout, s: State, i: nat, s': State)
    requires Inv(lay, s) && CommitStep(lay, s, EraseHead(i), s')
    ensures Inv(lay, s')
  {
    assert Pinned(s') == Pinned(s) == [];
    AllClean(lay, s);
    ClearHeader(lay, s.disk, s.committed, s.bufs[i].data);
    WriteThrough(lay, s, i, lay.start, s');
  }

  lemma CommitEndInv(lay: Layout, s: State, s': State)
    requires Inv(lay, s) && CommitStep(lay, s, CommitEnd, s')
    ensures Inv(lay, s')
  {
    LogAdmission.InvStep(lay.size, s.adm, CommitDone, s'.adm);
    assert Pinned(s') == Pinned(s) == [];
    forall j | 0 <= j < |s.bufs| ensures BufOk(lay, s', s'.bufs[j]) {
      assert BufOk(lay, s, s.bufs[j]);
    }
  }

  lemma CrashInv(lay: Layout, s: State, s': State)
    requires Inv(lay, s) && CrashStep(lay, s, Crash, s')
    ensures Inv(lay, s')
  {
    InitInv(lay, s');
  }

  lemma RecReadInv(lay: Layout, s: State, i: nat, s': State)
    requires Inv(lay, s) && CrashStep(lay, s, RecRead(i), s')
    ensures Inv(lay, s')
  {
    assert Credits(s.adm.credit) == 0;
    forall j | 0 <= j < |s.bufs| ensures BufOk(lay, s', s'.bufs[j]) {
      assert BufOk(lay, s, s.bufs[j]);
    }
  }

  lemma RecInstallBlockInv(lay: Layout, s: State, i: nat, j: nat, s': State)
    requires Inv(lay, s) && CrashStep(lay, s, RecInstallBlock(i, j), s')
    ensures Inv(lay, s')
  {
    RecInstallDisk(lay, s, i, j, s');
    RecInstallCache(lay, s, i, j, s');
  }

  lemma RecInstallDisk(lay: Layout, s: State, i: nat, j: nat, s': State)
    requires Inv(lay, s) && CrashStep(lay, s, RecInstallBlock(i, j), s')
    ensures |s'.logical| == |s'.disk| && lay.Fits(s'.disk) && AdmOk(lay, s') && DiskOk(lay, s')
  {
    LogCopy(lay, s, i);
    InstalledMore(s, s.phase.t, s'.disk);
  }

  lemma InstalledMore(s: State, t: nat, disk: Disk)
    requires InstalledUpTo(s, t) && t < |s.adm.lh| && s.adm.lh[t] < |s.disk| && s.adm.lh[t] < |s.logical|
    requires disk == s.disk[s.adm.lh[t] := s.logical[s.adm.lh[t]]]
    ensures InstalledUpTo(s.(disk := disk), t + 1)
  {
  }

  lemma RecInstallCache(lay: Layout, s: State, i: nat, j: nat, s': State)
    requires Inv(lay, s) && CrashStep(lay, s, RecInstallBlock(i, j), s')
    ensures |s'.logical| == |s'.disk| && CacheOk(lay, s')
  {
    AllClean(lay, s);
    WriteThrough(lay, s, j, s.adm.lh[s.phase.t], s');
  }

  lemma RecEraseInv(lay: Layout, s: State, i: nat, s': State)
    requires Inv(lay, s) && CrashStep(lay, s, RecErase(i), s')
    ensures Inv(lay, s')
    ensures SameHome(lay, s'.disk, s'.committed)
  {
    assert forall b :: 0 <= b < |s.disk| && lay.Home(b) ==> s.disk[b] == s.committed[b];
    ClearHeader(lay, s.disk, s.committed, s.bufs[i].data);
    RecEraseCache(lay, s, i, s');
  }

  lemma RecEraseCache(lay: Layout, s: State, i: nat, s': State)
    requires Inv(lay, s) && CrashStep(lay, s, RecErase(i), s')
    requires SameHome(lay, s'.disk, s'.logical)
    ensures |s'.logical| == |s'.disk| && CacheOk(lay, s')
  {
    AllClean(lay, s);
    var m := s'.(phase := s.phase);
    assert Pinned(s') == Pinned(s) == Pinned(m) == [];
    WriteThrough(lay, s, i, lay.start, m);
    forall j | 0 <= j < |s'.bufs| ensures BufOk(lay, s', s'.bufs[j]) {
      assert BufOk(lay, m, m.bufs[j]);
    }
  }

  lemma BufStepInv(lay: Layout, s: State, step: Step, s': State)
    requires Inv(lay, s) && BufStep(lay, s, step, s')
    ensures Inv(lay, s')
  {
    match step
    case Ref(p, i) => RefInv(lay, s, p, i, s');
    case Recycle(p, i, b) => RecycleInv(lay, s, p, i, b, s');
    case Lock(p, i) => LockInv(lay, s, p, i, s');
    case Fill(p, i) => FillInv(lay, s, p, i, s');
    case Modify(p, i, data) => ModifyInv(lay, s, p, i, data, s');
    case Release(p, i) => ReleaseInv(lay, s, p, i, s');
    case _ =>
  }

  lemma OpStepInv(lay: Layout, s: State, step: Step, s': State)
    requires Inv(lay, s) && OpStep(lay, s, step, s')
    ensures Inv(lay, s')
  {
    match step
    case Begin(p) => BeginInv(lay, s, p, s');
    case LogIt(p, i) => LogItInv(lay, s, p, i, s');
    case End(p) => EndInv(lay, s, p, s');
    case _ =>
  }

  lemma CommitStepInv(lay: Layout, s: State, step: Step, s': State)
    requires Inv(lay, s) && CommitStep(lay, s, step, s')
    ensures Inv(lay, s')
  {
    match step
    case WriteLogBlock(i, j) => WriteLogBlockInv(lay, s, i, j, s');
    case WriteHead(i) => WriteHeadInv(lay, s, i, s');
    case InstallBlock(i, j) => InstallBlockInv(lay, s, i, j, s');
    case EraseHead(i) => EraseHeadInv(lay, s, i, s');
    case CommitEnd => CommitEndInv(lay, s, s');
    case _ =>
  }

  lemma CrashStepInv(lay: Layout, s: State, step: Step, s': State)
    requires Inv(lay, s) && CrashStep(lay, s, step, s')
    ensures Inv(lay, s')
  {
    match step
    case Crash => CrashInv(lay, s, s');
    case RecRead(i) => RecReadInv(lay, s, i, s');
    case RecInstallBlock(i, j) => RecInstallBlockInv(lay, s, i, j, s');
    case RecErase(i) => RecEraseInv(lay, s, i, s');
    case _ =>
  }

  lemma StepInv(lay: Layout, s: State, step: Step, s': State)
    requires Inv(lay, s) && Next(lay, s, step, s')
    ensures Inv(lay, s')
  {
    if BufStep(lay, s, step, s') {
      BufStepInv(lay, s, step, s');
    } else if OpStep(lay, s, step, s') {
      OpStepInv(lay, s, step, s');
    } else if CommitStep(lay, s, step, s') {
      CommitStepInv(lay, s, step, s');
    } else {
      CrashStepInv(lay, s, step, s');
    }
  }

  // ----- theorems over whole runs -----

  ghost predicate WellSized(lay: Layout, s: State) {
    lay.Fits(s.disk) && GoodHeader(lay, s.disk) && |s.logical| == |s.disk|
  }

  ghost predicate Run(lay: Layout, states: seq<State>, steps: seq<Step>) {
    && |states| == |steps| + 1
    && Init(lay, states[0])
    && (forall k :: 0 <= k < |steps| ==> StepAt(lay, states, steps, k))
  }

  ghost predicate StepAt(lay: Layout, states: seq<State>, steps: seq<Step>, k: nat)
    requires |states| == |steps| + 1 && k < |steps|
  {
    WellSized(lay, states[k]) && Next(lay, states[k], steps[k], states[k + 1])
  }

  lemma {:induction false} RunInv(lay: Layout, states: seq<State>, steps: seq<Step>, k: nat)
    requires Run(lay, states, steps) && k < |states|
    ensures Inv(lay, states[k])
  {
    if k == 0 {
      InitInv(lay, states[0]);
    } else {
      RunInv(lay, states, steps, k - 1);
      assert StepAt(lay, states, steps, k - 1);
      StepInv(lay, states[k - 1], steps[k - 1], states[k]);
    }
  }

  /** Crash atomicity.  Stop any run anywhere, in a commit or in a recovery,
      after any number of earlier crashes: running recovery to its end restores
      every home block to the last committed contents, all of them together. */
  lemma CrashAtomicity(lay: Layout, states: seq<State>, steps: seq<Step>, k: nat)
    requires Run(lay, states, steps) && k < |states|
    ensures WellSized(lay, states[k])
    ensures SameHome(lay, Recover(lay, states[k].disk), states[k].committed)
  {
    RunInv(lay, states, steps, k);
    RecoverSpec(lay, states[k].disk, states[k].committed);
  }

  /** The contents of the file system as the steps alone tell them: `logged` is
      what the log_write calls have written since the last crash on top of what
      was committed, and `durable` is `logged` as of the last header write. */
  datatype Contents = Contents(logged: Disk, durable: Disk)

  ghost function Replay(states: seq<State>, steps: seq<Step>, k: nat): Contents
    requires |states| == |steps| + 1 && k <= |steps|
  {
    if k == 0 then
      Contents(states[0].committed, states[0].committed)
    else
      var c := Replay(states, steps, k - 1);
      match steps[k - 1]
      case LogIt(_, i) => c.(logged := Stored(c.logged, states[k - 1].bufs, i))
      case WriteHead(_) => c.(durable := c.logged)
      case Crash => c.(logged := c.durable)
      case _ => c
  }

  /** `d` with the contents of buffer i in the place of its block. */
  ghost function Stored(d: Disk, bufs: seq<Buf>, i: nat): Disk {
    if i < |bufs| && bufs[i].blk.Some? && bufs[i].blk.value < |d| then
      d[bufs[i].blk.value := bufs[i].data]
    else
      d
  }

  /** The logged contents are exactly the effect of the log_write calls, and
      the committed contents exactly what had been logged at the last header
      write: no write is lost, and none counts before its transaction does. */
  lemma {:induction false} ContentsAreReplay(lay: Layout, states: seq<State>, steps: seq<Step>, k: nat)
    requires Run(lay, states, steps) && k <= |steps|
    ensures Contents(states[k].logical, states[k].committed) == Replay(states, steps, k)
  {
    if k == 0 {
      assert Init(lay, states[0]);
    } else {
      ContentsAreReplay(lay, states, steps, k - 1);
      assert StepAt(lay, states, steps, k - 1);
    }
  }

  /** At the header write no operation is in progress, so no operation is ever
      committed in part. */
  lemma CommitIsTheHeaderWrite(lay: Layout, states: seq<State>, steps: seq<Step>, k: nat)
    requires Run(lay, states, steps) && k < |steps|
    ensures steps[k].WriteHead? ==>
              && states[k + 1].committed == states[k].logical
              && states[k].adm.outstanding == 0 && states[k].adm.credit == map[]
    ensures !steps[k].WriteHead? ==> states[k + 1].committed == states[k].committed
  {
    RunInv(lay, states, steps, k);
    assert StepAt(lay, states, steps, k);
  }

  /** log_write by an operation in progress makes the contents of the buffer
      the logged contents of its block, leaves the buffer's data alone and puts
      the block in the header; no other step changes the logged contents,
      except that a crash takes them back to the committed ones. */
  lemma LogicalChangesOnlyByLogWrite(lay: Layout, states: seq<State>, steps: seq<Step>, k: nat)
    requires Run(lay, states, steps) && k < |steps|
    ensures steps[k].LogIt? ==> LogWritten(lay, states[k], steps[k].p, steps[k].i, states[k + 1])
    ensures steps[k].Crash? ==> states[k + 1].logical == states[k].committed
    ensures !steps[k].LogIt? && !steps[k].Crash? ==> states[k + 1].logical == states[k].logical
  {
    assert StepAt(lay, states, steps, k);
  }

  ghost predicate LogWritten(lay: Layout, s: State, p: Pid, i: nat, s': State) {
    && Holds(s, p, i) && p in s.adm.credit && s.bufs[i].blk.Some?
    && var b := s.bufs[i].blk.value;
       && b < |s.logical| && lay.Home(b) && s'.logical == s.logical[b := s.bufs[i].data]
       && |s'.bufs| == |s.bufs| && s'.bufs[i].data == s.bufs[i].data && s'.bufs[i].blk == Some(b)
       && b in s'.adm.lh
  }

  /** The last end_op, and no other step, starts a commit: of everything
      logged, if there is anything. */
  lemma LastEndCommits(lay: Layout, states: seq<State>, steps: seq<Step>, k: nat)
    requires Run(lay, states, steps) && k < |steps|
    ensures steps[k].End? ==>
              var s, s' := states[k], states[k + 1];
              && s'.adm.lh == s.adm.lh && s.adm.outstanding == s'.adm.outstanding + 1
              && s'.phase == (if s'.adm.outstanding > 0 then Normal else if s.adm.lh == [] then Cleared else WriteLog(0))
    ensures !steps[k].End? && states[k].phase.Normal? ==> states[k + 1].phase.Normal? || steps[k].Crash?
  {
    RunInv(lay, states, steps, k);
    assert StepAt(lay, states, steps, k);
    if steps[k].End? {
      InProgress(lay.size, states[k].adm, steps[k].p);
    }
  }

  /** Who the steps alone say holds buffer i: the last one to lock it, until it lets go. */
  ghost function HolderOf(steps: seq<Step>, k: nat, i: nat): Option<Pid>
    requires k <= |steps|
  {
    if k == 0 then
      None
    else
      match steps[k - 1]
      case Lock(p, j) => if j == i then Some(p) else HolderOf(steps, k - 1, i)
      case Release(p, j) => if j == i then None else HolderOf(steps, k - 1, i)
      case Crash => None
      case _ => HolderOf(steps, k - 1, i)
  }

  lemma {:induction false} HolderIsLastLocker(lay: Layout, states: seq<State>, steps: seq<Step>, k: nat, i: nat)
    requires Run(lay, states, steps) && k <= |steps| && i < |states[k].bufs|
    ensures states[k].bufs[i].holder == HolderOf(steps, k, i)
  {
    if k == 0 {
      assert Unused(states[0].bufs[i]);
    } else {
      assert StepAt(lay, states, steps, k - 1);
      HolderStep(lay, states[k - 1], steps[k - 1], states[k], i);
      HolderIsLastLocker(lay, states, steps, k - 1, i);
    }
  }

  lemma HolderStep(lay: Layout, s: State, step: Step, s': State, i: nat)
    requires WellSized(lay, s) && Next(lay, s, step, s') && i < |s'.bufs|
    ensures |s.bufs| == |s'.bufs|
    ensures s'.bufs[i].holder == match step
                                 case Lock(p, j) => if j == i then Some(p) else s.bufs[i].holder
                                 case Release(p, j) => if j == i then None else s.bufs[i].holder
                                 case Crash => None
                                 case _ => s.bufs[i].holder
  {
    if BufStep(lay, s, step, s') {
    } else if OpStep(lay, s, step, s') {
    } else if CommitStep(lay, s, step, s') {
    } else {
      assert step.Crash? ==> Unused(s'.bufs[i]);
    }
  }

  // ----- from a change to a buffer to the disk, for good -----

  /** From step j on, up to k, p keeps buffer i in one operation and nobody is
      asked to change it again. */
  ghost predicate LeftAlone(steps: seq<Step>, p: Pid, i: nat, j: nat, k: nat) {
    forall n :: j < n < k && n < |steps| ==>
      && steps[n] != Release(p, i) && steps[n] != End(p) && !steps[n].Crash?
      && !(steps[n].Modify? && steps[n].i == i)
  }

  /** Until then the buffer holds what its holder has put there. */
  lemma {:induction false} HeldDataStays(lay: Layout, states: seq<State>, steps: seq<Step>, j: nat, k: nat)
    requires Run(lay, states, steps) && j < k <= |steps| && steps[j].Modify?
    requires LeftAlone(steps, steps[j].p, steps[j].i, j, k)
    ensures var p, i, s := steps[j].p, steps[j].i, states[k];
            && Holds(s, p, i) && p in s.adm.credit
            && i < |states[j].bufs| && s.bufs[i].blk == states[j].bufs[i].blk && s.bufs[i].data == steps[j].data
  {
    var m := k - 1;
    assert StepAt(lay, states, steps, m);
    if m > j {
      HeldDataStays(lay, states, steps, j, m);
      RunInv(lay, states, steps, m);
      assert BufOk(lay, states[m], states[m].bufs[steps[j].i]);
      HeldDataStep(lay, states[m], steps[m], states[k], steps[j].p, steps[j].i);
    }
  }

  /** A step that is not p's release, end or change of its buffer leaves it alone. */
  lemma HeldDataStep(lay: Layout, s: State, step: Step, s': State, p: Pid, i: nat)
    requires WellSized(lay, s) && Next(lay, s, step, s') && Holds(s, p, i) && p in s.adm.credit
    requires s.phase.Normal? && s.bufs[i].refcnt > 0
    requires step != Release(p, i) && step != End(p) && !step.Crash? && !(step.Modify? && step.i == i)
    ensures Holds(s', p, i) && p in s'.adm.credit
    ensures s'.bufs[i].blk == s.bufs[i].blk && s'.bufs[i].data == s.bufs[i].data
  {
    if BufStep(lay, s, step, s') {
    } else {
      assert OpStep(lay, s, step, s');
    }
  }

  /** From step k on, up to m, block b is not logged. */
  ghost predicate NotLogged(states: seq<State>, steps: seq<Step>, b: nat, k: nat, m: nat) {
    forall n :: k < n < m && n < |steps| && n < |states| && steps[n].LogIt? && steps[n].i < |states[n].bufs| ==>
      states[n].bufs[steps[n].i].blk != Some(b)
  }

  ghost predicate NoCrash(steps: seq<Step>, k: nat, m: nat) {
    forall n :: k < n < m && n < |steps| ==> !steps[n].Crash?
  }

  /** What log_write has logged stays logged. */
  lemma {:induction false} LoggedStays(lay: Layout, states: seq<State>, steps: seq<Step>, b: nat, k: nat, m: nat)
    requires Run(lay, states, steps) && k < m <= |steps| && b < |states[k + 1].logical|
    requires NotLogged(states, steps, b, k, m) && NoCrash(steps, k, m)
    ensures b < |states[m].logical| && states[m].logical[b] == states[k + 1].logical[b]
  {
    if k + 1 < m {
      LoggedStays(lay, states, steps, b, k, m - 1);
      assert StepAt(lay, states, steps, m - 1);
      assert NotLoggedAt(states, steps, b, m - 1);
    }
  }

  ghost predicate NotLoggedAt(states: seq<State>, steps: seq<Step>, b: nat, n: nat) {
    n < |steps| && n < |states| && steps[n].LogIt? && steps[n].i < |states[n].bufs| ==>
      states[n].bufs[steps[n].i].blk != Some(b)
  }

  /** What a header write has made durable stays so through any number of crashes. */
  lemma {:induction false} DurableStays(lay: Layout, states: seq<State>, steps: seq<Step>, b: nat, m: nat, n: nat)
    requires Run(lay, states, steps) && m < n <= |steps| && steps[m].WriteHead? && b < |states[m].logical|
    requires NotLogged(states, steps, b, m, n)
    ensures b < |states[n].logical| == |states[n].committed|
    ensures states[n].committed[b] == states[n].logical[b] == states[m].logical[b]
  {
    assert StepAt(lay, states, steps, n - 1);
    if m + 1 < n {
      DurableStays(lay, states, steps, b, m, n - 1);
      assert NotLoggedAt(states, steps, b, n - 1);
    }
  }

  /** Durability.  An operation puts `data` into its buffer of block b and
      passes it to log_write; the next header write comes before a crash and
      before b is logged again.  Then, however often the machine crashes
      afterwards, recovery finds `data` in block b until b is logged again. */
  lemma WriteIsDurable(lay: Layout, states: seq<State>, steps: seq<Step>, b: nat, j: nat, k: nat, m: nat, n: nat)
    requires Run(lay, states, steps) && j < k < m < n <= |steps|
    requires steps[j].Modify? && LeftAlone(steps, steps[j].p, steps[j].i, j, k)
    requires steps[k] == LogIt(steps[j].p, steps[j].i)
    requires steps[j].i < |states[j].bufs| && states[j].bufs[steps[j].i].blk == Some(b)
    requires steps[m].WriteHead? && NoCrash(steps, k, m)
    requires NotLogged(states, steps, b, k, m) && NotLogged(states, steps, b, m, n)
    ensures WellSized(lay, states[n]) && b < |states[n].disk|
    ensures Recover(lay, states[n].disk)[b] == steps[j].data
  {
    HeldDataStays(lay, states, steps, j, k);
    LogicalChangesOnlyByLogWrite(lay, states, steps, k);
    LoggedStays(lay, states, steps, b, k, m);
    DurableStays(lay, states, steps, b, m, n);
    CrashAtomicity(lay, states, steps, n);
    RunInv(lay, states, steps, n);
  }

  /** Cache transparency: the buffer bread hands out, be it found in the cache
      or read from the disk, holds the last logged contents of its block. */
  lemma BreadIsTransparent(lay: Layout, states: seq<State>, steps: seq<Step>, k: nat)
    requires Run(lay, states, steps) && k < |steps| && !Recovering(states[k])
    requires steps[k].Fill? || (steps[k].Lock? && steps[k].i < |states[k].bufs| && states[k].bufs[steps[k].i].valid)
    ensures var i, s' := steps[k].i, states[k + 1];
            && i < |s'.bufs| && s'.bufs[i].valid && s'.bufs[i].holder == Some(steps[k].p)
            && s'.bufs[i].blk.Some? && s'.bufs[i].blk.value < |s'.logical|
            && (lay.Home(s'.bufs[i].blk.value) ==> s'.bufs[i].data == s'.logical[s'.bufs[i].blk.value])
  {
    RunInv(lay, states, steps, k);
    RunInv(lay, states, steps, k + 1);
    assert StepAt(lay, states, steps, k);
    var s, s' := states[k], states[k + 1];
    if steps[k].Fill? {
      FillInv(lay, s, steps[k].p, steps[k].i, s');
    } else {
      LockInv(lay, s, steps[k].p, steps[k].i, s');
    }
  }

  /** No block ever has two buffers, and a logged block stays cached and
      referenced until install_trans has put it in place. */
  lemma PinnedBlocksStayCached(lay: Layout, states: seq<State>, steps: seq<Step>, k: nat, b: nat)
    requires Run(lay, states, steps) && k < |states| && b in Pinned(states[k])
    ensures Unique(states[k].bufs)
    ensures exists i :: 0 <= i < |states[k].bufs| && states[k].bufs[i].blk == Some(b)
                        && states[k].bufs[i].valid && states[k].bufs[i].refcnt > 0
  {
    RunInv(lay, states, steps, k);
    var s := states[k];
    var n :| 0 <= n < |Pinned(s)| && Pinned(s)[n] == b;
    assert ValidlyCached(s.bufs, Pinned(s)[n]);
    var i :| 0 <= i < |s.bufs| && s.bufs[i].blk == Some(b) && s.bufs[i].valid;
    assert BufOk(lay, s, s.bufs[i]);
  }

  /** When a commit has erased the header, everything it committed is home. */
  lemma CommitInstalls(lay: Layout, states: seq<State>, steps: seq<Step>, k: nat)
    requires Run(lay, states, steps) && k < |steps| && steps[k].EraseHead?
    ensures WellSized(lay, states[k + 1]) && Header(lay, states[k + 1].disk) == []
    ensures SameHome(lay, states[k + 1].disk, states[k + 1].committed)
    ensures states[k + 1].logical == states[k + 1].committed == states[k].committed
  {
    RunInv(lay, states, steps, k);
    RunInv(lay, states, steps, k + 1);
    assert StepAt(lay, states, steps, k);
    EraseHeadInv(lay, states[k], steps[k].i, states[k + 1]);
  }

  /** When recovery ends, every home block on disk is as committed and the log is empty. */
  lemma RecoveryRestores(lay: Layout, states: seq<State>, steps: seq<Step>, k: nat)
    requires Run(lay, states, steps) && k < |steps| && steps[k].RecErase?
    ensures WellSized(lay, states[k + 1]) && Header(lay, states[k + 1].disk) == []
    ensures SameHome(lay, states[k + 1].disk, states[k + 1].committed)
    ensures states[k + 1].logical == states[k + 1].committed == states[k].committed
  {
    RunInv(lay, states, steps, k);
    RunInv(lay, states, steps, k + 1);
    assert StepAt(lay, states, steps, k);
    RecEraseInv(lay, states[k], steps[k].i, states[k + 1]);
  }
}
