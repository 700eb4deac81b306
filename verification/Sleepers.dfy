/** The kernel code that sleeps on a condition under a lock, as instances of
    `Monitor`: begin_op on &log, and virtio_disk_rw on &disk.free[0] and on its
    buffer.  What the processes do to the shared state are the steps of
    `LogAdmission` and `VirtioQueue`; which of them are followed by a wakeup is
    read off the code, and that this is enough is proved. */
module Sleepers {
  import opened Wrappers
  import L = LogAdmission
  import V = VirtioQueue
  import opened Monitor

  // ----- begin_op -----

  /** begin_op has to wait. */
  predicate NoRoom(s: L.State) { !L.CanBegin(s) }

  /** end_op wakes the sleepers on &log unless it has to commit, and then after the commit. */
  predicate LogWakes(e: L.Event, t: L.State) { (e.EndOp? && !t.committing) || e.CommitDone? }

  ghost predicate LogChange(size: nat, a: L.State, step: Step<L.State>, t: L.State) {
    match step
    case Change(p, _) => exists e :: LogEvent(size, p, a, e, t) && !LogWakes(e, t)
    case Settle(p, _) => exists e :: LogEvent(size, p, a, e, t) && LogWakes(e, t)
    case Outside(_, _) => false
    case _ => true
  }

  ghost predicate LogEvent(size: nat, p: Pid, a: L.State, e: L.Event, t: L.State) {
    L.Next(size, a, e, t) && (e.CommitDone? || e.p == p)
  }

  ghost predicate LogRun(size: nat, states: seq<State<L.State>>, steps: seq<Step<L.State>>) {
    && |states| == |steps| + 1 && Init(states[0]) && states[0].sh == L.Idle
    && forall i :: 0 <= i < |steps| ==> LogStepAt(size, states, steps, i)
  }

  ghost predicate LogStepAt(size: nat, states: seq<State<L.State>>, steps: seq<Step<L.State>>, i: nat)
    requires |states| == |steps| + 1 && i < |steps|
  {
    && Next(NoRoom, states[i], steps[i], states[i + 1])
    && LogChange(size, states[i].sh, steps[i], states[i + 1].sh)
  }

  /** Only the events that come with a wakeup can make room. */
  lemma LogQuiet(size: nat, a: L.State, e: L.Event, t: L.State)
    requires L.Inv(size, a) && L.Next(size, a, e, t) && !LogWakes(e, t) && NoRoom(a)
    ensures NoRoom(t)
  {
    if e.LogWrite? {
      L.InProgress(size, a, e.p);
    }
  }

  /** Between transactions the header is empty. */
  ghost predicate Settled(s: L.State) {
    s.outstanding == 0 && !s.committing ==> s.lh == []
  }

  lemma LogChangeKeeps(size: nat, a: L.State, step: Step<L.State>, t: L.State)
    requires L.Inv(size, a) && Settled(a) && LogChange(size, a, step, t) && (step.Change? || step.Settle?)
    ensures L.Inv(size, t) && Settled(t) && (step.Change? && NoRoom(a) ==> NoRoom(t))
  {
    var e :| LogEvent(size, step.p, a, e, t) && (step.Change? ==> !LogWakes(e, t));
    L.InvStep(size, a, e, t);
    if e.LogWrite? {
      L.InProgress(size, a, e.p);
    }
    if step.Change? && NoRoom(a) {
      LogQuiet(size, a, e, t);
    }
  }

  /** The code keeps the discipline of `Monitor`, step by step. */
  lemma LogStepInv(size: nat, s: State<L.State>, step: Step<L.State>, s': State<L.State>)
    requires L.Inv(size, s.sh) && Settled(s.sh) && Inv(NoRoom, s)
    requires Next(NoRoom, s, step, s') && LogChange(size, s.sh, step, s'.sh)
    ensures L.Inv(size, s'.sh) && Settled(s'.sh) && Inv(NoRoom, s')
  {
    if step.Change? || step.Settle? {
      LogChangeKeeps(size, s.sh, step, s'.sh);
    } else {
      assert s'.sh == s.sh;
    }
    StepInv(NoRoom, s, step, s');
  }

  lemma {:induction false} LogRunInv(size: nat, states: seq<State<L.State>>, steps: seq<Step<L.State>>, i: nat)
    requires LogRun(size, states, steps) && i < |states|
    ensures L.Inv(size, states[i].sh) && Settled(states[i].sh) && Inv(NoRoom, states[i])
  {
    if i == 0 {
      L.IdleInv(size);
      InitInv(NoRoom, states[0]);
    } else {
      LogRunInv(size, states, steps, i - 1);
      assert LogStepAt(size, states, steps, i - 1);
      LogStepInv(size, states[i - 1], steps[i - 1], states[i]);
    }
  }

  /** No begin_op sleeps for nothing: in every run, a process asleep on &log (or
      on its way to sleep) could not be admitted, or is about to be woken. */
  lemma BeginOpSleepsForRoom(size: nat, states: seq<State<L.State>>, steps: seq<Step<L.State>>, i: nat, p: Pid)
    requires LogRun(size, states, steps) && i < |states| && p < |states[i].procs|
    requires states[i].procs[p].sleeping || Committed(states[i].procs[p])
    ensures !L.CanBegin(states[i].sh) || WakeupPending(states[i], p)
  {
    LogRunInv(size, states, steps, i);
    ReasonToSleep(NoRoom, states[i], p);
  }

  /** When nothing is outstanding and no commit or scan is going on, nobody sleeps on &log. */
  lemma IdleLogHasNoSleepers(size: nat, states: seq<State<L.State>>, steps: seq<Step<L.State>>, i: nat, p: Pid)
    requires LogRun(size, states, steps) && i < |states| && p < |states[i].procs|
    requires states[i].sh.outstanding == 0 && !states[i].sh.committing && !WakeupPending(states[i], p)
    ensures !states[i].procs[p].sleeping && !Committed(states[i].procs[p])
  {
    LogRunInv(size, states, steps, i);
    if states[i].procs[p].sleeping || Committed(states[i].procs[p]) {
      BeginOpSleepsForRoom(size, states, steps, i, p);
    }
  }

  // ----- virtio_disk_rw -----

  /** alloc3_desc fails. */
  ghost predicate NoThree(s: V.State) { V.WellSized(s) && V.ThreeFree(s.m.free).None? }

  /** The request of buffer b is still with the device. */
  predicate Busy(b: V.Buf, s: V.State) { b < |s.m.disk| && s.m.disk[b] }

  /** free_desc wakes the sleepers on &disk.free[0]: when a request is over. */
  predicate FreeWakes(a: V.State, v: V.Step, t: V.State) { v.Finish? }

  /** virtio_disk_intr wakes the sleepers on the buffer whose flag it clears. */
  predicate BufWakes(b: V.Buf, a: V.State, v: V.Step, t: V.State) {
    v.Reap? && b < |a.m.disk| == |t.m.disk| && a.m.disk[b] != t.m.disk[b]
  }

  /** The device and the holders of other buffers do not take vdisk_lock. */
  predicate NeedsLock(v: V.Step) { !(v.Take? || v.Complete? || v.Modify?) }

  ghost predicate DiskChange(wakes: (V.State, V.Step, V.State) -> bool, a: V.State, step: Step<V.State>, t: V.State)
    requires V.WellSized(a)
  {
    match step
    case Change(_, _) => exists v :: V.Next(a, v, t) && NeedsLock(v) && !wakes(a, v, t)
    case Settle(_, _) => t == a || exists v :: V.Next(a, v, t) && NeedsLock(v) && wakes(a, v, t)
    case Outside(_, _) => exists v :: V.Next(a, v, t) && !NeedsLock(v)
    case _ => true
  }

  ghost predicate DiskRun(blocked: V.State -> bool, wakes: (V.State, V.Step, V.State) -> bool,
                          states: seq<State<V.State>>, steps: seq<Step<V.State>>)
  {
    && |states| == |steps| + 1 && Init(states[0]) && V.Init(states[0].sh)
    && forall i :: 0 <= i < |steps| ==> DiskStepAt(blocked, wakes, states, steps, i)
  }

  ghost predicate DiskStepAt(blocked: V.State -> bool, wakes: (V.State, V.Step, V.State) -> bool,
                             states: seq<State<V.State>>, steps: seq<Step<V.State>>, i: nat)
    requires |states| == |steps| + 1 && i < |steps|
  {
    && Next(blocked, states[i], steps[i], states[i + 1])
    && V.WellSized(states[i].sh) && DiskChange(wakes, states[i].sh, steps[i], states[i + 1].sh)
  }

  /** Only the end of a request frees descriptors. */
  lemma FreeQuiet(a: V.State, v: V.Step, t: V.State)
    requires V.WellSized(a) && V.Next(a, v, t) && !v.Finish? && NoThree(a)
    ensures NoThree(t)
  {
    assert V.WellSized(t) && forall i :: 0 <= i < V.NUM && t.m.free[i] ==> a.m.free[i];
    if V.ThreeFree(t.m.free).Some? {
      V.NoThreeFree(a.m.free, V.ThreeFree(t.m.free).value);
    }
  }

  /** Only the interrupt handler clears a buffer's flag. */
  lemma BufQuiet(b: V.Buf, a: V.State, v: V.Step, t: V.State)
    requires V.WellSized(a) && V.Next(a, v, t) && !BufWakes(b, a, v, t) && Busy(b, a)
    ensures Busy(b, t)
  {
  }

  // For the descriptors.

  lemma FreeStepInv(s: State<V.State>, step: Step<V.State>, s': State<V.State>)
    requires V.WellSized(s.sh) && Inv(NoThree, s)
    requires Next(NoThree, s, step, s') && DiskChange(FreeWakes, s.sh, step, s'.sh)
    ensures Inv(NoThree, s')
  {
    if (step.Change? || step.Outside?) && NoThree(s.sh) {
      var v :| V.Next(s.sh, v, s'.sh) && (step.Change? ==> !FreeWakes(s.sh, v, s'.sh)) && (step.Outside? ==> !NeedsLock(v));
      FreeQuiet(s.sh, v, s'.sh);
    }
    StepInv(NoThree, s, step, s');
  }

  lemma {:induction false} FreeRunInv(states: seq<State<V.State>>, steps: seq<Step<V.State>>, i: nat)
    requires DiskRun(NoThree, FreeWakes, states, steps) && i < |states|
    ensures Inv(NoThree, states[i])
  {
    if i == 0 {
      InitInv(NoThree, states[0]);
    } else {
      FreeRunInv(states, steps, i - 1);
      assert DiskStepAt(NoThree, FreeWakes, states, steps, i - 1);
      FreeStepInv(states[i - 1], steps[i - 1], states[i]);
    }
  }

  /** In every run, whoever sleeps on &disk.free[0] finds no three descriptors
      free, or is about to be woken. */
  lemma DescriptorSleeperHasReason(states: seq<State<V.State>>, steps: seq<Step<V.State>>, i: nat, p: Pid)
    requires DiskRun(NoThree, FreeWakes, states, steps) && i < |states| && p < |states[i].procs|
    requires states[i].procs[p].sleeping || Committed(states[i].procs[p])
    ensures NoThree(states[i].sh) || WakeupPending(states[i], p)
  {
    FreeRunInv(states, steps, i);
    ReasonToSleep(NoThree, states[i], p);
  }

  // For the buffer of a request.

  function BusyWith(b: V.Buf): V.State -> bool { s => Busy(b, s) }

  function Clears(b: V.Buf): (V.State, V.Step, V.State) -> bool { (a, v, t) => BufWakes(b, a, v, t) }

  lemma BufStepInv(b: V.Buf, s: State<V.State>, step: Step<V.State>, s': State<V.State>)
    requires V.WellSized(s.sh) && Inv(BusyWith(b), s)
    requires Next(BusyWith(b), s, step, s') && DiskChange(Clears(b), s.sh, step, s'.sh)
    ensures Inv(BusyWith(b), s')
  {
    if (step.Change? || step.Outside?) && Busy(b, s.sh) {
      var v :| V.Next(s.sh, v, s'.sh) && (step.Change? ==> !Clears(b)(s.sh, v, s'.sh)) && (step.Outside? ==> !NeedsLock(v));
      BufQuiet(b, s.sh, v, s'.sh);
    }
    StepInv(BusyWith(b), s, step, s');
  }

  lemma {:induction false} BufRunInv(b: V.Buf, states: seq<State<V.State>>, steps: seq<Step<V.State>>, i: nat)
    requires DiskRun(BusyWith(b), Clears(b), states, steps) && i < |states|
    ensures Inv(BusyWith(b), states[i])
  {
    if i == 0 {
      InitInv(BusyWith(b), states[0]);
    } else {
      BufRunInv(b, states, steps, i - 1);
      assert DiskStepAt(BusyWith(b), Clears(b), states, steps, i - 1);
      BufStepInv(b, states[i - 1], steps[i - 1], states[i]);
    }
  }

  /** In every run, whoever sleeps on buffer b still has its request with the
      device (b->disk is set), or is about to be woken. */
  lemma BufferSleeperHasReason(b: V.Buf, states: seq<State<V.State>>, steps: seq<Step<V.State>>, i: nat, p: Pid)
    requires DiskRun(BusyWith(b), Clears(b), states, steps) && i < |states| && p < |states[i].procs|
    requires states[i].procs[p].sleeping || Committed(states[i].procs[p])
    ensures Busy(b, states[i].sh) || WakeupPending(states[i], p)
  {
    BufRunInv(b, states, steps, i);
    ReasonToSleep(BusyWith(b), states[i], p);
  }
}
