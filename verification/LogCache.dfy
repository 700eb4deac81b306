/** The log machine with its cache in LRU order: every step that takes, drops,
    pins or unpins a reference is an operation on the list of buffers, and a
    miss recycles the buffer the list says. */
module LogCache {
  import opened Wrappers
  import opened LogDisk
  import M = LogMachine
  import L = LruPolicy

  const ROOTDEV: nat := 1

  ghost predicate Shows(buf: M.Buf, slot: L.Slot) {
    && slot.refcnt == buf.refcnt && slot.valid == buf.valid
    && match buf.blk
       case None => slot.dev == 0
       case Some(b) => L.For(slot, ROOTDEV, b)
  }

  ghost predicate ShowsAt(s: M.State, c: L.Cache, m: nat)
    requires m < |c.slots|
  {
    c.slots[m].id < |s.bufs| && Shows(s.bufs[c.slots[m].id], c.slots[m])
  }

  /** The list holds every buffer of the machine, by its number, with its
      block, its valid flag and its reference count. */
  ghost predicate Tracks(s: M.State, c: L.Cache) {
    && |c.slots| == |s.bufs|
    && (forall m :: 0 <= m < |c.slots| ==> ShowsAt(s, c, m))
    && (forall i :: 0 <= i < |s.bufs| ==> i in L.Ids(c.slots))
  }

  /** Where buffer i stands in the list. */
  ghost function Pos(c: L.Cache, i: nat): (m: nat)
    requires i in L.Ids(c.slots)
    ensures m < |c.slots| && c.slots[m].id == i
  {
    var ids := L.IdSeq(c.slots);
    assert i in ids;
    var m :| 0 <= m < |ids| && ids[m] == i;
    m
  }

  /** The list operation that a step of the machine performs. */
  ghost function OpOf(s: M.State, c: L.Cache, step: M.Step): Option<L.Op>
    requires Tracks(s, c)
  {
    match step
    case Ref(_, i) => if i < |s.bufs| && s.bufs[i].blk.Some? then Some(L.DoGet(ROOTDEV, s.bufs[i].blk.value)) else None
    case Recycle(_, _, b) => Some(L.DoGet(ROOTDEV, b))
    case Fill(_, i) => if i < |s.bufs| then Some(L.DoFill(Pos(c, i))) else None
    case Release(_, i) => if i < |s.bufs| then Some(L.DoRelease(Pos(c, i))) else None
    case LogIt(_, i) =>
      if i < |s.bufs| && s.bufs[i].blk.Some? && s.bufs[i].blk.value !in s.adm.lh then Some(L.DoPin(Pos(c, i))) else None
    case InstallBlock(_, j) => if j < |s.bufs| then Some(L.DoUnpin(Pos(c, j))) else None
    case _ => None
  }

  /** A miss takes the buffer the backward scan finds. */
  ghost predicate ByPolicy(c: L.Cache, step: M.Step) {
    step.Recycle? && !L.OutOfBuffers(c, ROOTDEV, step.b) ==>
      c.slots[L.Choice(c, ROOTDEV, step.b)].id == step.i
  }

  ghost predicate Next(lay: Layout, s: M.State, c: L.Cache, step: M.Step, s': M.State, c': L.Cache)
    requires M.WellSized(lay, s) && Tracks(s, c)
  {
    && M.Next(lay, s, step, s') && ByPolicy(c, step)
    && if step.Crash? then c' == L.Binit(|s.bufs|)
       else match OpOf(s, c, step)
            case None => c' == c
            case Some(op) => L.Allowed(c, op) ==> c' == L.Apply(c, op)
  }

  ghost predicate Inv(lay: Layout, s: M.State, c: L.Cache) {
    M.Inv(lay, s) && Tracks(s, c) && L.Inv(c)
  }

  // ----- the list operation is always possible, and never a harmful bunpin -----

  lemma HitIsTheBuffer(s: M.State, c: L.Cache, i: nat)
    requires Tracks(s, c) && M.Unique(s.bufs) && i < |s.bufs| && s.bufs[i].blk.Some?
    ensures var h := L.Hit(c.slots, ROOTDEV, s.bufs[i].blk.value); h < |c.slots| && c.slots[h].id == i
  {
    var m := Pos(c, i);
    assert ShowsAt(s, c, m);
    var h := L.Hit(c.slots, ROOTDEV, s.bufs[i].blk.value);
    assert h <= m;
    assert ShowsAt(s, c, h);
  }

  lemma MissIsNotThere(s: M.State, c: L.Cache, b: nat)
    requires Tracks(s, c) && !M.Cached(s, b)
    ensures L.Hit(c.slots, ROOTDEV, b) == |c.slots|
  {
    forall m | 0 <= m < |c.slots| ensures !L.For(c.slots[m], ROOTDEV, b) {
      assert ShowsAt(s, c, m);
    }
    L.HitIs(c.slots, ROOTDEV, b, |c.slots|);
  }

  /** install_trans unpins a buffer it holds: the holder's reference is left. */
  lemma UnpinLeavesOne(lay: Layout, s: M.State, i: nat, j: nat, s': M.State)
    requires M.Inv(lay, s) && M.CommitStep(lay, s, M.InstallBlock(i, j), s')
    ensures s.bufs[j].refcnt >= 2 && s'.bufs[j].refcnt == s.bufs[j].refcnt - 1
  {
    assert M.BufOk(lay, s, s.bufs[j]);
    assert M.Pinned(s)[0] == s.adm.lh[s.phase.t];
    assert i != j;
  }

  /** A buffer somebody holds or waits for can be released, pinned and found. */
  lemma HeldInList(lay: Layout, s: M.State, c: L.Cache, p: nat, i: nat)
    requires M.Inv(lay, s) && Tracks(s, c) && i < |s.bufs| && s.bufs[i].holder == Some(p)
    ensures L.Allowed(c, L.DoRelease(Pos(c, i))) && L.Allowed(c, L.DoPin(Pos(c, i)))
    ensures L.Allowed(c, L.DoFill(Pos(c, i)))
  {
    assert ShowsAt(s, c, Pos(c, i)) && M.BufOk(lay, s, s.bufs[i]);
  }

  lemma FreeInList(s: M.State, c: L.Cache, i: nat, b: nat)
    requires Tracks(s, c) && i < |s.bufs| && s.bufs[i].refcnt == 0
    ensures L.Allowed(c, L.DoGet(ROOTDEV, b))
  {
    assert ShowsAt(s, c, Pos(c, i));
  }

  lemma PinnedInList(s: M.State, c: L.Cache, j: nat)
    requires Tracks(s, c) && j < |s.bufs| && s.bufs[j].refcnt >= 2
    ensures L.Allowed(c, L.DoUnpin(Pos(c, j))) && !L.Disturbs(c, L.DoUnpin(Pos(c, j)))
  {
    assert ShowsAt(s, c, Pos(c, j));
  }

  /** Every step of the machine finds its list operation possible, and bunpin
      never brings a count to zero. */
  lemma OpAllowed(lay: Layout, s: M.State, c: L.Cache, step: M.Step, s': M.State)
    requires M.Inv(lay, s) && Tracks(s, c) && M.Next(lay, s, step, s')
    ensures OpOf(s, c, step).Some? ==>
              L.Allowed(c, OpOf(s, c, step).value) && !L.Disturbs(c, OpOf(s, c, step).value)
  {
    if step.InstallBlock? {
      UnpinLeavesOne(lay, s, step.i, step.j, s');
      PinnedInList(s, c, step.j);
    } else if M.BufStep(lay, s, step, s') || M.OpStep(lay, s, step, s') {
      UseAllowed(lay, s, c, step, s');
    }
  }

  lemma UseAllowed(lay: Layout, s: M.State, c: L.Cache, step: M.Step, s': M.State)
    requires M.Inv(lay, s) && Tracks(s, c) && (M.BufStep(lay, s, step, s') || M.OpStep(lay, s, step, s'))
    ensures OpOf(s, c, step).Some? ==>
              L.Allowed(c, OpOf(s, c, step).value) && !L.Disturbs(c, OpOf(s, c, step).value)
  {
    match step
    case Ref(_, i) => HitIsTheBuffer(s, c, i);
    case Recycle(_, i, b) => FreeInList(s, c, i, b);
    case Fill(p, i) => HeldInList(lay, s, c, p, i);
    case Release(p, i) => HeldInList(lay, s, c, p, i);
    case LogIt(p, i) => HeldInList(lay, s, c, p, i);
    case _ =>
  }

  // ----- the list keeps track -----

  /** Only buffer i has another block, flag or count than before. */
  ghost predicate SameBut(s: M.State, s': M.State, i: nat) {
    && |s'.bufs| == |s.bufs|
    && forall j :: 0 <= j < |s.bufs| && j != i ==> SameRefs(s.bufs[j], s'.bufs[j])
  }

  predicate SameRefs(a: M.Buf, b: M.Buf) { a.refcnt == b.refcnt && a.blk == b.blk && a.valid == b.valid }

  /** Slot k of the new list is the one for buffer i, or an old slot of another buffer. */
  ghost predicate FromOld(s': M.State, c: L.Cache, c': L.Cache, i: nat, k: nat)
    requires i < |s'.bufs| && k < |c'.slots|
  {
    || (c'.slots[k].id == i && Shows(s'.bufs[i], c'.slots[k]))
    || (c'.slots[k].id != i && exists l :: 0 <= l < |c.slots| && c'.slots[k] == c.slots[l])
  }

  /** One slot changes with its buffer, in place or on its way to the front. */
  lemma TracksOne(s: M.State, c: L.Cache, s': M.State, c': L.Cache, i: nat)
    requires Tracks(s, c) && i < |s.bufs| && SameBut(s, s', i)
    requires L.Ids(c'.slots) == L.Ids(c.slots) && |c'.slots| == |c.slots|
    requires forall k :: 0 <= k < |c'.slots| ==> FromOld(s', c, c', i, k)
    ensures Tracks(s', c')
  {
    forall k | 0 <= k < |c'.slots| ensures ShowsAt(s', c', k) {
      assert FromOld(s', c, c', i, k);
      if c'.slots[k].id != i {
        var l :| 0 <= l < |c.slots| && c'.slots[k] == c.slots[l];
        assert ShowsAt(s, c, l);
      }
    }
  }

  lemma TracksUpdate(s: M.State, c: L.Cache, s': M.State, c': L.Cache, m: nat, i: nat, slot: L.Slot)
    requires Tracks(s, c) && L.DistinctIds(c.slots) && m < |c.slots| && c.slots[m].id == i < |s.bufs|
    requires SameBut(s, s', i) && c'.slots == c.slots[m := slot] && slot.id == i && Shows(s'.bufs[i], slot)
    ensures Tracks(s', c')
  {
    L.UpdateIds(c.slots, m, slot);
    TracksOne(s, c, s', c', i);
  }

  lemma TracksMove(s: M.State, c: L.Cache, s': M.State, c': L.Cache, m: nat, i: nat, slot: L.Slot)
    requires Tracks(s, c) && L.DistinctIds(c.slots) && m < |c.slots| && c.slots[m].id == i < |s.bufs|
    requires SameBut(s, s', i) && slot.id == i && Shows(s'.bufs[i], slot)
    requires c'.slots == L.MoveToFront(c.slots, m, slot)
    ensures Tracks(s', c')
  {
    L.MoveToFrontIds(c.slots, m, slot);
    forall k | 0 <= k < |c'.slots| ensures FromOld(s', c, c', i, k) {
      L.MovedFrom(c.slots, m, slot, k);
      if k != 0 {
        assert c'.slots[k] == c.slots[if k <= m then k - 1 else k];
      }
    }
    TracksOne(s, c, s', c', i);
  }

  lemma TracksSame(s: M.State, c: L.Cache, s': M.State)
    requires Tracks(s, c) && SameBut(s, s', |s.bufs|)
    ensures Tracks(s', c)
  {
    forall m | 0 <= m < |c.slots| ensures ShowsAt(s', c, m) {
      assert ShowsAt(s, c, m);
    }
  }

  /** The buffer a step fills or takes a reference to or from. */
  function Touched(s: M.State, step: M.Step): nat {
    match step
    case Ref(_, i) => i
    case Recycle(_, i, _) => i
    case Fill(_, i) => i
    case Release(_, i) => i
    case LogIt(_, i) => i
    case InstallBlock(_, j) => j
    case _ => |s.bufs|
  }

  lemma OnlyTouched(lay: Layout, s: M.State, step: M.Step, s': M.State)
    requires M.WellSized(lay, s) && M.Next(lay, s, step, s') && !step.Crash?
    ensures SameBut(s, s', Touched(s, step))
  {
    if M.BufStep(lay, s, step, s') || M.OpStep(lay, s, step, s') {
      UseTouched(lay, s, step, s');
    } else {
      CommitTouched(lay, s, step, s');
    }
  }

  lemma UseTouched(lay: Layout, s: M.State, step: M.Step, s': M.State)
    requires M.WellSized(lay, s) && (M.BufStep(lay, s, step, s') || M.OpStep(lay, s, step, s'))
    ensures SameBut(s, s', Touched(s, step))
  {
  }

  lemma CommitTouched(lay: Layout, s: M.State, step: M.Step, s': M.State)
    requires M.WellSized(lay, s) && (M.CommitStep(lay, s, step, s') || M.CrashStep(lay, s, step, s')) && !step.Crash?
    ensures SameBut(s, s', Touched(s, step))
  {
  }

  lemma QuietStep(lay: Layout, s: M.State, c: L.Cache, step: M.Step, s': M.State)
    requires M.WellSized(lay, s) && Tracks(s, c) && M.Next(lay, s, step, s') && !step.Crash? && OpOf(s, c, step).None?
    ensures Tracks(s', c)
  {
    OnlyTouched(lay, s, step, s');
    if step.LogIt? {
      assert SameRefs(s.bufs[step.i], s'.bufs[step.i]);
    }
    TracksSame(s, c, s');
  }

  lemma GetStep(lay: Layout, s: M.State, c: L.Cache, step: M.Step, s': M.State)
    requires M.WellSized(lay, s) && M.Unique(s.bufs) && Tracks(s, c) && L.DistinctIds(c.slots) && ByPolicy(c, step)
    requires (step.Ref? || step.Recycle?) && M.BufStep(lay, s, step, s') && L.Allowed(c, OpOf(s, c, step).value)
    ensures Tracks(s', L.Apply(c, OpOf(s, c, step).value))
  {
    OnlyTouched(lay, s, step, s');
    var op := OpOf(s, c, step).value;
    var k := L.Choice(c, ROOTDEV, op.blockno);
    if step.Ref? {
      HitIsTheBuffer(s, c, step.i);
    } else {
      MissIsNotThere(s, c, step.b);
    }
    assert ShowsAt(s, c, k);
    var c' := L.Apply(c, op);
    TracksUpdate(s, c, s', c', k, step.i, c'.slots[k]);
  }

  lemma ReleaseStep(lay: Layout, s: M.State, c: L.Cache, p: nat, i: nat, s': M.State)
    requires M.WellSized(lay, s) && Tracks(s, c) && L.DistinctIds(c.slots) && i < |s.bufs|
    requires M.BufStep(lay, s, M.Release(p, i), s') && L.Allowed(c, L.DoRelease(Pos(c, i)))
    ensures Tracks(s', L.Release(c, Pos(c, i)))
  {
    OnlyTouched(lay, s, M.Release(p, i), s');
    var m := Pos(c, i);
    assert ShowsAt(s, c, m);
    var c' := L.Release(c, m);
    if c.slots[m].refcnt == 1 {
      TracksMove(s, c, s', c', m, i, c.slots[m].(refcnt := 0, freed := c.clock));
    } else {
      TracksUpdate(s, c, s', c', m, i, c'.slots[m]);
    }
  }

  lemma InPlaceStep(lay: Layout, s: M.State, c: L.Cache, step: M.Step, s': M.State)
    requires M.WellSized(lay, s) && Tracks(s, c) && L.DistinctIds(c.slots) && M.Next(lay, s, step, s')
    requires step.Fill? || step.LogIt? || step.InstallBlock?
    requires OpOf(s, c, step).Some? && L.Allowed(c, OpOf(s, c, step).value)
    ensures Tracks(s', L.Apply(c, OpOf(s, c, step).value))
  {
    OnlyTouched(lay, s, step, s');
    var i := Touched(s, step);
    var m := Pos(c, i);
    assert ShowsAt(s, c, m);
    var c' := L.Apply(c, OpOf(s, c, step).value);
    TracksUpdate(s, c, s', c', m, i, c'.slots[m]);
  }

  lemma CrashStep(lay: Layout, s: M.State, s': M.State)
    requires M.WellSized(lay, s) && M.CrashStep(lay, s, M.Crash, s')
    ensures Tracks(s', L.Binit(|s.bufs|)) && L.Inv(L.Binit(|s.bufs|))
  {
    FreshList(s', L.Binit(|s.bufs|));
    L.BinitInv(|s.bufs|);
  }

  lemma FreshList(s: M.State, c: L.Cache)
    requires M.Wiped(s) && c == L.Binit(|s.bufs|)
    ensures Tracks(s, c)
  {
    forall m | 0 <= m < |c.slots| ensures ShowsAt(s, c, m) {
      assert M.Unused(s.bufs[c.slots[m].id]);
    }
    forall i | 0 <= i < |s.bufs| ensures i in L.Ids(c.slots) {
      assert L.IdSeq(c.slots)[|s.bufs| - 1 - i] == i;
    }
  }

  /** One step of the machine with its list: the list keeps track, and its LRU
      order is kept without any side condition. */
  lemma StepInv(lay: Layout, s: M.State, c: L.Cache, step: M.Step, s': M.State, c': L.Cache)
    requires Inv(lay, s, c) && Next(lay, s, c, step, s', c')
    ensures Inv(lay, s', c')
  {
    M.StepInv(lay, s, step, s');
    if step.Crash? {
      CrashStep(lay, s, s');
    } else {
      OpAllowed(lay, s, c, step, s');
      match OpOf(s, c, step)
      case None => QuietStep(lay, s, c, step, s');
      case Some(op) =>
        L.StepInv(c, op);
        OpStep(lay, s, c, step, s');
    }
  }

  lemma OpStep(lay: Layout, s: M.State, c: L.Cache, step: M.Step, s': M.State)
    requires M.WellSized(lay, s) && M.Unique(s.bufs) && Tracks(s, c) && L.DistinctIds(c.slots) && ByPolicy(c, step)
    requires M.Next(lay, s, step, s') && OpOf(s, c, step).Some? && L.Allowed(c, OpOf(s, c, step).value)
    ensures Tracks(s', L.Apply(c, OpOf(s, c, step).value))
  {
    match step
    case Ref(_, _) => GetStep(lay, s, c, step, s');
    case Recycle(_, _, _) => GetStep(lay, s, c, step, s');
    case Fill(_, _) => InPlaceStep(lay, s, c, step, s');
    case Release(p, i) => ReleaseStep(lay, s, c, p, i, s');
    case LogIt(_, _) => InPlaceStep(lay, s, c, step, s');
    case InstallBlock(_, _) => InPlaceStep(lay, s, c, step, s');
    case _ =>
  }

  // ----- whole runs -----

  ghost predicate Run(lay: Layout, states: seq<M.State>, lists: seq<L.Cache>, steps: seq<M.Step>) {
    && |states| == |lists| == |steps| + 1
    && M.Init(lay, states[0]) && lists[0] == L.Binit(|states[0].bufs|)
    && forall k :: 0 <= k < |steps| ==> StepAt(lay, states, lists, steps, k)
  }

  ghost predicate StepAt(lay: Layout, states: seq<M.State>, lists: seq<L.Cache>, steps: seq<M.Step>, k: nat)
    requires |states| == |lists| == |steps| + 1 && k < |steps|
  {
    && M.WellSized(lay, states[k]) && Tracks(states[k], lists[k])
    && Next(lay, states[k], lists[k], steps[k], states[k + 1], lists[k + 1])
  }

  lemma {:induction false} RunInv(lay: Layout, states: seq<M.State>, lists: seq<L.Cache>, steps: seq<M.Step>, k: nat)
    requires Run(lay, states, lists, steps) && k < |states|
    ensures Inv(lay, states[k], lists[k])
  {
    if k == 0 {
      M.InitInv(lay, states[0]);
      FreshList(states[0], lists[0]);
      L.BinitInv(|states[0].bufs|);
    } else {
      RunInv(lay, states, lists, steps, k - 1);
      assert StepAt(lay, states, lists, steps, k - 1);
      StepInv(lay, states[k - 1], lists[k - 1], steps[k - 1], states[k], lists[k]);
    }
  }

  // ----- the buffer that a miss recycles -----

  /** The last moment up to k at which buffer i was referred to, or the machine booted. */
  ghost function LastUsed(states: seq<M.State>, steps: seq<M.Step>, k: nat, i: nat): (r: nat)
    requires |states| == |steps| + 1 && k <= |steps|
    ensures r <= k
  {
    if k == 0 || steps[k - 1].Crash? || (i < |states[k].bufs| && states[k].bufs[i].refcnt > 0) then k
    else LastUsed(states, steps, k - 1, i)
  }

  /** Free buffers became free in the order of their last use. */
  ghost predicate Timed(states: seq<M.State>, lists: seq<L.Cache>, steps: seq<M.Step>, k: nat)
    requires |states| == |lists| == |steps| + 1 && k <= |steps|
  {
    forall a, b :: 0 <= a < |lists[k].slots| && 0 <= b < |lists[k].slots| ==> InTime(states, lists, steps, k, a, b)
  }

  ghost predicate InTime(states: seq<M.State>, lists: seq<L.Cache>, steps: seq<M.Step>, k: nat, a: nat, b: nat)
    requires |states| == |lists| == |steps| + 1 && k <= |steps| && a < |lists[k].slots| && b < |lists[k].slots|
  {
    var x, y := lists[k].slots[a], lists[k].slots[b];
    x.refcnt == 0 && y.refcnt == 0 && x.freed <= y.freed ==>
      LastUsed(states, steps, k, x.id) <= LastUsed(states, steps, k, y.id)
  }

  lemma {:induction false} RunTimed(lay: Layout, states: seq<M.State>, lists: seq<L.Cache>, steps: seq<M.Step>, k: nat)
    requires Run(lay, states, lists, steps) && k <= |steps|
    ensures Timed(states, lists, steps, k)
  {
    if k > 0 {
      RunTimed(lay, states, lists, steps, k - 1);
      RunInv(lay, states, lists, steps, k - 1);
      RunInv(lay, states, lists, steps, k);
      forall a, b | 0 <= a < |lists[k].slots| && 0 <= b < |lists[k].slots|
        ensures InTime(states, lists, steps, k, a, b)
      {
        InTimeStep(lay, states, lists, steps, k, a, b);
      }
    }
  }

  lemma InTimeStep(lay: Layout, states: seq<M.State>, lists: seq<L.Cache>, steps: seq<M.Step>, k: nat, a: nat, b: nat)
    requires Run(lay, states, lists, steps) && 0 < k <= |steps| && Timed(states, lists, steps, k - 1)
    requires Inv(lay, states[k - 1], lists[k - 1]) && Tracks(states[k], lists[k])
    requires a < |lists[k].slots| && b < |lists[k].slots|
    ensures InTime(states, lists, steps, k, a, b)
  {
    var x, y := lists[k].slots[a], lists[k].slots[b];
    if x.refcnt == 0 && y.refcnt == 0 && x.freed <= y.freed && !steps[k - 1].Crash? {
      var i := FreeBefore(lay, states, lists, steps, k, a);
      var j := FreeBefore(lay, states, lists, steps, k, b);
      assert InTime(states, lists, steps, k - 1, i, j);
    }
  }

  /** Where a free buffer stood before the step: free as well, or last used just then. */
  lemma FreeBefore(lay: Layout, states: seq<M.State>, lists: seq<L.Cache>, steps: seq<M.Step>, k: nat, a: nat)
    returns (i: nat)
    requires Run(lay, states, lists, steps) && 0 < k <= |steps| && !steps[k - 1].Crash?
    requires Inv(lay, states[k - 1], lists[k - 1]) && Tracks(states[k], lists[k])
    requires a < |lists[k].slots| && lists[k].slots[a].refcnt == 0
    ensures i < |lists[k - 1].slots|
    ensures var x, w := lists[k].slots[a], lists[k - 1].slots[i];
            && x.id == w.id && LastUsed(states, steps, k, x.id) == LastUsed(states, steps, k - 1, x.id)
            && w.freed < lists[k - 1].clock
            && if w.refcnt == 0 then x == w
               else x.freed == lists[k - 1].clock && LastUsed(states, steps, k, x.id) == k - 1
  {
    assert StepAt(lay, states, lists, steps, k - 1);
    i := WasFree(lay, states[k - 1], lists[k - 1], steps[k - 1], states[k], lists[k], a);
    assert ShowsAt(states[k], lists[k], a) && ShowsAt(states[k - 1], lists[k - 1], i);
  }

  lemma WasFree(lay: Layout, s: M.State, c: L.Cache, step: M.Step, s': M.State, c': L.Cache, a: nat) returns (i: nat)
    requires Inv(lay, s, c) && Next(lay, s, c, step, s', c') && !step.Crash?
    requires a < |c'.slots| && c'.slots[a].refcnt == 0
    ensures i < |c.slots| && c.slots[i].id == c'.slots[a].id && c.slots[i].freed < c.clock
    ensures if c.slots[i].refcnt == 0 then c'.slots[a] == c.slots[i] else c'.slots[a].freed == c.clock
  {
    OpAllowed(lay, s, c, step, s');
    match OpOf(s, c, step)
    case None => i := a;
    case Some(op) =>
      L.FreeSlot(c, op, a);
      i :| 0 <= i < |c.slots| && c.slots[i].id == c'.slots[a].id
           && if c.slots[i].refcnt == 0 then c'.slots[a] == c.slots[i] else c'.slots[a].freed == c.clock;
  }

  /** In every run of the kernel's log and cache, crashes included, the buffer
      that a miss recycles is free, and of the free ones it is one whose last
      use lies furthest back. */
  lemma RecyclesLeastRecent(lay: Layout, states: seq<M.State>, lists: seq<L.Cache>, steps: seq<M.Step>, k: nat, j: nat)
    requires Run(lay, states, lists, steps) && k < |steps| && steps[k].Recycle?
    requires j < |states[k].bufs| && states[k].bufs[j].refcnt == 0
    ensures steps[k].i < |states[k].bufs| && states[k].bufs[steps[k].i].refcnt == 0
    ensures LastUsed(states, steps, k, steps[k].i) <= LastUsed(states, steps, k, j)
  {
    RunInv(lay, states, lists, steps, k);
    RunTimed(lay, states, lists, steps, k);
    assert StepAt(lay, states, lists, steps, k);
    var c := lists[k];
    var m := Pos(c, j);
    assert ShowsAt(states[k], c, m);
    RecyclesVictim(lay, states[k], c, steps[k], states[k + 1], m);
    assert InTime(states, lists, steps, k, L.Victim(c.slots) - 1, m);
  }

  lemma RecyclesVictim(lay: Layout, s: M.State, c: L.Cache, step: M.Step, s': M.State, m: nat)
    requires M.WellSized(lay, s) && Tracks(s, c) && L.LruOrdered(c.slots) && ByPolicy(c, step)
    requires step.Recycle? && M.Next(lay, s, step, s') && m < |c.slots| && c.slots[m].refcnt == 0
    ensures var v := L.Victim(c.slots);
            && v > 0 && c.slots[v - 1].id == step.i
            && c.slots[v - 1].refcnt == 0 && c.slots[v - 1].freed <= c.slots[m].freed
  {
    MissIsNotThere(s, c, step.b);
    L.VictimIsLeastRecent(c, m);
  }

  /** In every run bunpin leaves the buffer referenced. */
  lemma UnpinNeverFrees(lay: Layout, states: seq<M.State>, steps: seq<M.Step>, k: nat)
    requires M.Run(lay, states, steps) && k < |steps| && steps[k].InstallBlock?
    ensures steps[k].j < |states[k + 1].bufs| && states[k + 1].bufs[steps[k].j].refcnt > 0
  {
    M.RunInv(lay, states, steps, k);
    assert M.StepAt(lay, states, steps, k);
    UnpinLeavesOne(lay, states[k], steps[k].i, steps[k].j, states[k + 1]);
  }
}
