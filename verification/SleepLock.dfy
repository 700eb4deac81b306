/** Sleeplocks over sleep and wakeup, as interleaved steps of any number of
    processes on one lock.  Spinlocks are atomic; what happens while a process
    holds another one's p->lock for a test and an update is one step. */
module SleepLock {
  import opened Wrappers

  type Pid = nat

  /** Where a process is.  A: acquiresleep, S: sleep, R: releasesleep. */
  datatype Pc =
    | Out            // not using the lock
    | Spin           // acquiresleep: waiting for lk->lk
    | Test           // holds lk->lk, about to look at lk->locked
    | Taken          // has set lk->locked, still holds lk->lk
    | Crit           // owns the sleeplock
    | SleepIn        // sleep: holds lk->lk, wants p->lock
    | SleepBoth      // holds lk->lk and p->lock
    | SleepOwn       // has released lk->lk, holds p->lock
    | SleepSet       // has set SLEEPING, holds p->lock
    | Asleep         // off the processor
    | Woken          // back from sched, holds p->lock
    | RelSpin        // releasesleep: waiting for lk->lk
    | RelHeld        // holds lk->lk, lock still marked
    | Scan(k: nat)   // wakeup's loop, holding lk->lk
    | RelDone        // loop over, about to release lk->lk

  /** `sleeping` is state SLEEPING, `plock` says that p->lock is held; `own`
      that the process itself took it before it came here. */
  datatype Proc = Proc(pc: Pc, sleeping: bool, plock: bool, own: bool)

  /** lk->locked, lk->pid, and the holder of lk->lk. */
  datatype Lock = Lock(locked: bool, pid: Option<Pid>, spin: Option<Pid>)

  datatype State = State(lk: Lock, procs: seq<Proc>)

  datatype Step =
    | Want(p: Pid) | AcquireSpin(p: Pid) | TestFree(p: Pid) | TestHeld(p: Pid) | EnterCrit(p: Pid)
    | LockSelf(p: Pid) | DropSpin(p: Pid) | SetSleeping(p: Pid) | Sched(p: Pid) | Resume(p: Pid) | Tidy(p: Pid)
    | WantRelease(p: Pid) | ReleaseSpin(p: Pid) | Unlock(p: Pid) | WakeOne(p: Pid) | ScanEnd(p: Pid) | Leave(p: Pid)
    | Kill(p: Pid, q: Pid) | GrabSelf(p: Pid) | LetSelf(p: Pid) | ReturnEarly(p: Pid)

  /** What the step does to the process that takes it and to the lock; n is
      the number of processes. */
  ghost predicate Act(p: Pid, n: nat, lk: Lock, me: Proc, step: Step, lk': Lock, me': Proc) {
    match step
    // acquiresleep
    case Want(_) => me.pc.Out? && me' == me.(pc := Spin) && lk' == lk
    case AcquireSpin(_) => me.pc.Spin? && lk.spin.None? && me' == me.(pc := Test) && lk' == lk.(spin := Some(p))
    case TestFree(_) => me.pc.Test? && !lk.locked && me' == me.(pc := Taken) && lk' == lk.(locked := true, pid := Some(p))
    case TestHeld(_) => me.pc.Test? && lk.locked && me' == me.(pc := SleepIn) && lk' == lk
    case EnterCrit(_) => me.pc.Taken? && me' == me.(pc := Crit) && lk' == lk.(spin := None)
    // sleep
    case ReturnEarly(_) => me.pc.SleepIn? && me.plock && me' == me.(pc := Test) && lk' == lk
    case LockSelf(_) => me.pc.SleepIn? && !me.plock && me' == me.(pc := SleepBoth, plock := true) && lk' == lk
    case DropSpin(_) => me.pc.SleepBoth? && me' == me.(pc := SleepOwn) && lk' == lk.(spin := None)
    case SetSleeping(_) => me.pc.SleepOwn? && me' == me.(pc := SleepSet, sleeping := true) && lk' == lk
    case Sched(_) => me.pc.SleepSet? && me' == me.(pc := Asleep, plock := false) && lk' == lk
    case Resume(_) =>
      me.pc.Asleep? && !me.sleeping && !me.plock && me' == me.(pc := Woken, plock := true) && lk' == lk
    case Tidy(_) => me.pc.Woken? && me' == me.(pc := Spin, plock := false) && lk' == lk
    // releasesleep and wakeup
    case WantRelease(_) => me.pc.Crit? && me' == me.(pc := RelSpin) && lk' == lk
    case ReleaseSpin(_) => me.pc.RelSpin? && lk.spin.None? && me' == me.(pc := RelHeld) && lk' == lk.(spin := Some(p))
    case Unlock(_) => me.pc.RelHeld? && me' == me.(pc := Scan(0)) && lk' == lk.(locked := false, pid := None)
    case WakeOne(_) => me.pc.Scan? && me.pc.k < n && me' == me.(pc := Scan(me.pc.k + 1)) && lk' == lk
    case ScanEnd(_) => me.pc.Scan? && me.pc.k == n && me' == me.(pc := RelDone) && lk' == lk
    case Leave(_) => me.pc.RelDone? && me' == me.(pc := Out) && lk' == lk.(spin := None)
    // outside: kill another process, or take and drop one's own p->lock
    case Kill(_, _) => me.pc.Out? && me' == me && lk' == lk
    case GrabSelf(_) => me.pc.Out? && !me.plock && me' == me.(plock := true, own := true) && lk' == lk
    case LetSelf(_) => me.pc.Out? && me.own && me' == me.(plock := false, own := false) && lk' == lk
  }

  /** The process whose p->lock the step takes to look whether it sleeps. */
  function Target(p: Pid, me: Proc, step: Step): Option<Pid> {
    if step.WakeOne? && me.pc.Scan? && me.pc.k != p then Some(me.pc.k)
    else if step.Kill? && step.q != p then Some(step.q)
    else None
  }

  function Wake(procs: seq<Proc>, target: Option<Pid>): (r: seq<Proc>)
    ensures |r| == |procs|
  {
    if target.Some? && target.value < |procs| then
      procs[target.value := procs[target.value].(sleeping := false)]
    else procs
  }

  ghost predicate Next(s: State, step: Step, s': State) {
    var p := step.p;
    && p < |s.procs| == |s'.procs|
    && Act(p, |s.procs|, s.lk, s.procs[p], step, s'.lk, s'.procs[p])
    && var target := Target(p, s.procs[p], step);
       && (target.Some? ==> target.value < |s.procs| && !s.procs[target.value].plock)
       && s'.procs == Wake(s.procs, target)[p := s'.procs[p]]
  }

  ghost predicate Init(s: State) {
    && s.lk == Lock(false, None, None)
    && forall p :: 0 <= p < |s.procs| ==> s.procs[p] == Proc(Out, false, false, false)
  }

  // ----- the invariant -----

  predicate HoldsSpin(pc: Pc) {
    pc.Test? || pc.Taken? || pc.SleepIn? || pc.SleepBoth? || pc.RelHeld? || pc.Scan? || pc.RelDone?
  }

  predicate HoldsSelf(pc: Pc) { pc.SleepBoth? || pc.SleepOwn? || pc.SleepSet? || pc.Woken? }

  /** Owns the sleeplock. */
  predicate Owns(pc: Pc) { pc.Taken? || pc.Crit? || pc.RelSpin? || pc.RelHeld? }

  /** Has decided to sleep, or sleeps: it will not look at the lock again by itself. */
  predicate Committed(proc: Proc) {
    proc.pc.SleepIn? || proc.pc.SleepBoth? || proc.pc.SleepOwn? || proc.pc.SleepSet? || (proc.pc.Asleep? && proc.sleeping)
  }

  /** A releaser's wakeup scan has yet to come to p. */
  predicate WakeupPending(s: State, p: Pid) {
    && s.lk.spin.Some? && s.lk.spin.value < |s.procs| && s.lk.spin.value != p
    && s.procs[s.lk.spin.value].pc.Scan? && s.procs[s.lk.spin.value].pc.k <= p
  }

  /** Program counter and locks of one process agree, given whether it holds
      lk->lk and whether it is the recorded owner. */
  ghost predicate LocalOk(proc: Proc, spin: bool, owner: bool) {
    && (HoldsSpin(proc.pc) <==> spin)
    && (Owns(proc.pc) <==> owner)
    && (proc.plock <==> HoldsSelf(proc.pc) || proc.own)
    && (proc.own ==> !HoldsSelf(proc.pc) && !proc.pc.Asleep?)
    && (proc.sleeping ==> proc.pc.SleepSet? || proc.pc.Asleep?)
  }

  ghost predicate ProcOk(s: State, p: Pid)
    requires p < |s.procs|
  {
    && LocalOk(s.procs[p], s.lk.spin == Some(p), s.lk.pid == Some(p))
    && (s.procs[p].pc.Scan? ==> s.procs[p].pc.k <= |s.procs|)
  }

  ghost predicate LocksOk(s: State) {
    && (s.lk.spin.Some? ==> s.lk.spin.value < |s.procs|)
    && (s.lk.locked <==> s.lk.pid.Some?) && (s.lk.pid.Some? ==> s.lk.pid.value < |s.procs|)
    && (forall p :: 0 <= p < |s.procs| ==> ProcOk(s, p))
  }

  /** A process that has decided to sleep will be woken: the lock is taken, or
      the scan has yet to come by. */
  ghost predicate Expected(s: State, p: Pid)
    requires p < |s.procs|
  {
    Committed(s.procs[p]) ==> s.lk.locked || WakeupPending(s, p)
  }

  ghost predicate NoLostWakeup(s: State) {
    forall p :: 0 <= p < |s.procs| ==> Expected(s, p)
  }

  ghost predicate Inv(s: State) { LocksOk(s) && NoLostWakeup(s) }

  /** The process that takes the step. */
  lemma ActorOk(p: Pid, n: nat, lk: Lock, me: Proc, step: Step, lk': Lock, me': Proc)
    requires Act(p, n, lk, me, step, lk', me') && LocalOk(me, lk.spin == Some(p), lk.pid == Some(p))
    requires lk.locked <==> lk.pid.Some?
    ensures LocalOk(me', lk'.spin == Some(p), lk'.pid == Some(p)) && (lk'.locked <==> lk'.pid.Some?)
  {
  }

  /** What the others need to know of a step: the lock changes hands between
      nobody and p, p decides to sleep only on finding the lock taken, the lock
      is released only on the way into a scan, and a scan goes on to its end. */
  ghost predicate Effect(p: Pid, n: nat, lk: Lock, me: Proc, woken: Option<Pid>, lk': Lock, me': Proc) {
    && (lk'.spin == lk.spin || (lk.spin == None && lk'.spin == Some(p)) || (lk.spin == Some(p) && lk'.spin == None))
    && (lk'.pid == lk.pid || (lk.pid == None && lk'.pid == Some(p)) || (lk.pid == Some(p) && lk'.pid == None))
    && (Committed(me') ==> Committed(me) || lk'.locked)
    && (lk.locked ==> lk'.locked || (lk'.spin == Some(p) && me'.pc == Scan(0) && !Committed(me')))
    && (lk.spin == Some(p) && me.pc.Scan? ==>
          && lk'.spin == Some(p)
          && ((me'.pc == Scan(me.pc.k + 1) && (me.pc.k == p || woken == Some(me.pc.k)))
              || (me.pc.k == n && me'.pc == RelDone)))
  }

  lemma ActEffect(p: Pid, n: nat, lk: Lock, me: Proc, step: Step, lk': Lock, me': Proc)
    requires Act(p, n, lk, me, step, lk', me') && LocalOk(me, lk.spin == Some(p), lk.pid == Some(p))
    requires lk.locked <==> lk.pid.Some?
    ensures Effect(p, n, lk, me, Target(p, me, step), lk', me')
  {
  }

  /** Process q after p's step. */
  lemma BystanderOk(s: State, p: Pid, woken: Option<Pid>, s': State, q: Pid)
    requires p < |s.procs| == |s'.procs| && q < |s.procs| && q != p
    requires Effect(p, |s.procs|, s.lk, s.procs[p], woken, s'.lk, s'.procs[p])
    requires woken.Some? ==> woken.value < |s.procs| && !s.procs[woken.value].plock
    requires s'.procs == Wake(s.procs, woken)[p := s'.procs[p]]
    requires ProcOk(s, p) && ProcOk(s, q) && Expected(s, q)
    ensures ProcOk(s', q) && Expected(s', q)
  {
  }

  lemma StepInv(s: State, step: Step, s': State)
    requires Inv(s) && Next(s, step, s')
    ensures Inv(s')
  {
    var p, woken := step.p, Target(step.p, s.procs[step.p], step);
    assert ProcOk(s, p) && Expected(s, p);
    ActorOk(p, |s.procs|, s.lk, s.procs[p], step, s'.lk, s'.procs[p]);
    ActEffect(p, |s.procs|, s.lk, s.procs[p], step, s'.lk, s'.procs[p]);
    forall q | 0 <= q < |s'.procs| ensures ProcOk(s', q) && Expected(s', q) {
      if q != p {
        assert ProcOk(s, q) && Expected(s, q);
        BystanderOk(s, p, woken, s', q);
      }
    }
  }

  ghost predicate Run(states: seq<State>, steps: seq<Step>) {
    && |states| == |steps| + 1 && Init(states[0])
    && forall i :: 0 <= i < |steps| ==> StepAt(states, steps, i)
  }

  ghost predicate StepAt(states: seq<State>, steps: seq<Step>, i: nat)
    requires |states| == |steps| + 1 && i < |steps|
  {
    Next(states[i], steps[i], states[i + 1])
  }

  lemma {:induction false} RunInv(states: seq<State>, steps: seq<Step>, i: nat)
    requires Run(states, steps) && i < |states|
    ensures Inv(states[i])
  {
    if i > 0 {
      RunInv(states, steps, i - 1);
      assert StepAt(states, steps, i - 1);
      StepInv(states[i - 1], steps[i - 1], states[i]);
    }
  }

  /** At most one process owns the sleeplock, and it is the recorded one. */
  lemma MutualExclusion(states: seq<State>, steps: seq<Step>, i: nat, p: Pid, q: Pid)
    requires Run(states, steps) && i < |states| && p < |states[i].procs| && q < |states[i].procs|
    requires Owns(states[i].procs[p].pc)
    ensures states[i].lk.locked && states[i].lk.pid == Some(p)
    ensures Owns(states[i].procs[q].pc) ==> q == p
  {
    RunInv(states, steps, i);
    assert ProcOk(states[i], p) && ProcOk(states[i], q);
  }

  /** No lost wakeup: while the lock is free and nobody is inside a wakeup
      scan, nobody sleeps on it or is on the way to sleep. */
  lemma NobodyLeftAsleep(states: seq<State>, steps: seq<Step>, i: nat)
    requires Run(states, steps) && i < |states| && !states[i].lk.locked
    requires forall r :: 0 <= r < |states[i].procs| ==> !states[i].procs[r].pc.Scan?
    ensures forall p :: 0 <= p < |states[i].procs| ==> !states[i].procs[p].sleeping && !Committed(states[i].procs[p])
  {
    RunInv(states, steps, i);
    var s := states[i];
    forall p | 0 <= p < |s.procs| ensures !s.procs[p].sleeping && !Committed(s.procs[p]) {
      assert ProcOk(s, p) && Expected(s, p) && !WakeupPending(s, p);
    }
  }

  /** Who the steps alone say owns the lock: the last process to take it, until it is released. */
  function OwnerOf(steps: seq<Step>, i: nat): Option<Pid>
    requires i <= |steps|
  {
    if i == 0 then None
    else match steps[i - 1]
         case TestFree(p) => Some(p)
         case Unlock(_) => None
         case _ => OwnerOf(steps, i - 1)
  }

  lemma {:induction false} OwnerIsLastTaker(states: seq<State>, steps: seq<Step>, i: nat)
    requires Run(states, steps) && i < |states|
    ensures states[i].lk.pid == OwnerOf(steps, i) && (states[i].lk.locked <==> OwnerOf(steps, i).Some?)
    ensures i < |steps| && steps[i].Unlock? ==> OwnerOf(steps, i) == Some(steps[i].p)
  {
    RunInv(states, steps, i);
    if i < |steps| {
      assert StepAt(states, steps, i);
      assert ProcOk(states[i], steps[i].p);
    }
    if i > 0 {
      OwnerIsLastTaker(states, steps, i - 1);
      assert StepAt(states, steps, i - 1);
    }
  }

  // ----- no deadlock -----

  /** A step on the way through acquiresleep, sleep or releasesleep. */
  predicate Inside(step: Step) {
    !step.Want? && !step.WantRelease? && !step.Kill? && !step.GrabSelf? && !step.LetSelf?
  }

  /** Process p can go on. */
  ghost predicate CanMove(s: State, p: Pid) {
    exists step: Step, s': State :: step.p == p && Inside(step) && Next(s, step, s')
  }

  /** What p does next, if nothing is in its way. */
  function Ahead(s: State, p: Pid): Step
    requires p < |s.procs|
  {
    match s.procs[p].pc
    case Spin => AcquireSpin(p)
    case Test => if s.lk.locked then TestHeld(p) else TestFree(p)
    case Taken => EnterCrit(p)
    case SleepIn => LockSelf(p)
    case SleepBoth => DropSpin(p)
    case SleepOwn => SetSleeping(p)
    case SleepSet => Sched(p)
    case Asleep => Resume(p)
    case Woken => Tidy(p)
    case RelSpin => ReleaseSpin(p)
    case RelHeld => Unlock(p)
    case Scan(k) => if k < |s.procs| then WakeOne(p) else ScanEnd(p)
    case _ => Leave(p)
  }

  /** What p has to wait for. */
  predicate Blocked(s: State, p: Pid)
    requires p < |s.procs|
  {
    var proc := s.procs[p];
    || proc.pc.Out? || proc.pc.Crit?
    || ((proc.pc.Spin? || proc.pc.RelSpin?) && s.lk.spin.Some?)
    || (proc.pc.Asleep? && proc.sleeping)
    || (proc.pc.Scan? && proc.pc.k < |s.procs| && proc.pc.k != p && s.procs[proc.pc.k].plock)
  }

  lemma AheadMoves(s: State, p: Pid)
    requires Inv(s) && p < |s.procs| && !s.procs[p].own && !Blocked(s, p)
    ensures CanMove(s, p)
  {
    assert ProcOk(s, p);
    var step, me := Ahead(s, p), s.procs[p];
    var lk', me' := After(s, p, step);
    var s' := State(lk', Wake(s.procs, Target(p, me, step))[p := me']);
    assert Act(p, |s.procs|, s.lk, me, step, lk', me');
    assert Next(s, step, s');
  }

  lemma After(s: State, p: Pid, step: Step) returns (lk': Lock, me': Proc)
    requires Inv(s) && p < |s.procs| && !s.procs[p].own && !Blocked(s, p) && step == Ahead(s, p)
    ensures Act(p, |s.procs|, s.lk, s.procs[p], step, lk', me')
  {
    var lk, me := s.lk, s.procs[p];
    assert ProcOk(s, p);
    lk', me' := lk, me;
    match me.pc
    case Spin => lk', me' := lk.(spin := Some(p)), me.(pc := Test);
    case Test =>
      if lk.locked {
        me' := me.(pc := SleepIn);
      } else {
        lk', me' := lk.(locked := true, pid := Some(p)), me.(pc := Taken);
      }
    case Taken => lk', me' := lk.(spin := None), me.(pc := Crit);
    case SleepIn => me' := me.(pc := SleepBoth, plock := true);
    case SleepBoth => lk', me' := lk.(spin := None), me.(pc := SleepOwn);
    case SleepOwn => me' := me.(pc := SleepSet, sleeping := true);
    case SleepSet => me' := me.(pc := Asleep, plock := false);
    case Asleep => me' := me.(pc := Woken, plock := true);
    case Woken => me' := me.(pc := Spin, plock := false);
    case RelSpin => lk', me' := lk.(spin := Some(p)), me.(pc := RelHeld);
    case RelHeld => lk', me' := lk.(locked := false, pid := None), me.(pc := Scan(0));
    case Scan(k) => me' := me.(pc := if k < |s.procs| then Scan(k + 1) else RelDone);
    case _ => lk', me' := lk.(spin := None), me.(pc := Out);
  }

  /** The process that holds lk->lk can go on, or the one whose p->lock it wants can. */
  lemma SpinHolderMoves(s: State) returns (q: Pid)
    requires Inv(s) && s.lk.spin.Some? && forall r :: 0 <= r < |s.procs| ==> !s.procs[r].own
    ensures q < |s.procs| && CanMove(s, q)
  {
    q := s.lk.spin.value;
    assert ProcOk(s, q);
    if Blocked(s, q) {
      q := s.procs[q].pc.k;
      assert ProcOk(s, q);
    }
    AheadMoves(s, q);
  }

  /** No deadlock: when nobody has come here with its own p->lock held, and a
      process is on its way through these functions, some process can go on,
      unless everybody there waits for the owner, who is still using the lock. */
  lemma NoDeadlock(states: seq<State>, steps: seq<Step>, i: nat, p: Pid) returns (q: Pid)
    requires Run(states, steps) && i < |states| && p < |states[i].procs|
    requires forall r :: 0 <= r < |states[i].procs| ==> !states[i].procs[r].own
    requires !states[i].procs[p].pc.Out?
    ensures q < |states[i].procs|
    ensures CanMove(states[i], q) || (states[i].procs[q].pc.Crit? && Holdingsleep(states[i], q))
  {
    RunInv(states, steps, i);
    var s := states[i];
    assert ProcOk(s, p) && Expected(s, p);
    if s.lk.spin.Some? {
      q := SpinHolderMoves(s);
    } else {
      q := if s.procs[p].pc.Asleep? && s.procs[p].sleeping then s.lk.pid.value else p;
      assert ProcOk(s, q);
      if !s.procs[q].pc.Crit? {
        AheadMoves(s, q);
      }
    }
  }

  // ----- sleep's early return -----

  /** Between entering acquiresleep and coming back out, own[p] does not change. */
  lemma {:induction false} OwnIsFixed(states: seq<State>, steps: seq<Step>, i: nat, k: nat, p: Pid)
    requires Run(states, steps) && i <= k < |states| && p < |states[i].procs|
    requires forall j :: i <= j < k ==> p < |states[j].procs| && !states[j].procs[p].pc.Out?
    ensures p < |states[i].procs| && p < |states[k].procs| && states[k].procs[p].own == states[i].procs[p].own
    decreases k
  {
    RunInv(states, steps, i);
    if k > i {
      OwnIsFixed(states, steps, i, k - 1, p);
      assert StepAt(states, steps, k - 1);
      RunInv(states, steps, k - 1);
    }
  }

  /** sleep returns at once exactly for a caller that came to acquiresleep with
      its own p->lock held; every other caller goes on to sleep. */
  lemma EarlyReturnIff(states: seq<State>, steps: seq<Step>, i: nat, k: nat, p: Pid)
    requires Run(states, steps) && i < k < |states| && steps[i] == Want(p) && p < |states[k].procs| && states[k].procs[p].pc.SleepIn?
    requires forall j :: i < j < k ==> p < |states[j].procs| && !states[j].procs[p].pc.Out?
    ensures p < |states[i].procs|
    ensures (exists s' :: Next(states[k], ReturnEarly(p), s')) <==> states[i].procs[p].own
    ensures (exists s' :: Next(states[k], LockSelf(p), s')) <==> !states[i].procs[p].own
  {
    assert StepAt(states, steps, i);
    RunInv(states, steps, i);
    RunInv(states, steps, k);
    OwnIsFixed(states, steps, i + 1, k, p);
    var s := states[k];
    assert ProcOk(s, p);
    if s.procs[p].own {
      assert Next(s, ReturnEarly(p), s.(procs := s.procs[p := s.procs[p].(pc := Test)]));
    } else {
      assert Next(s, LockSelf(p), s.(procs := s.procs[p := s.procs[p].(pc := SleepBoth, plock := true)]));
    }
  }

  /** p goes round acquiresleep's loop with lk->lk and its own p->lock held. */
  ghost predicate Stuck(s: State, p: Pid) {
    && p < |s.procs| && s.procs[p].own && s.lk.locked && s.lk.spin == Some(p)
    && (s.procs[p].pc.Test? || s.procs[p].pc.SleepIn?)
  }

  lemma StuckStep(s: State, step: Step, s': State, p: Pid)
    requires Inv(s) && Next(s, step, s') && Stuck(s, p)
    ensures Stuck(s', p) && s'.lk.pid == s.lk.pid
  {
    assert ProcOk(s, p) && ProcOk(s, step.p);
  }

  /** Such a caller that finds the lock taken spins for ever: in every
      continuation the same process stays the owner, lk->lk stays taken, and so
      no releasesleep can run. */
  lemma {:induction false} EarlyReturnSpinsForEver(states: seq<State>, steps: seq<Step>, i: nat, k: nat, p: Pid)
    requires Run(states, steps) && i <= k < |states| && p < |states[i].procs| == |states[i].procs|
    requires states[i].procs[p].pc.Test? && states[i].procs[p].own && states[i].lk.locked
    ensures Stuck(states[k], p) && states[k].lk.pid == states[i].lk.pid
    ensures forall q :: 0 <= q < |states[k].procs| ==> !states[k].procs[q].pc.RelHeld? && !states[k].procs[q].pc.Scan?
    decreases k
  {
    RunInv(states, steps, i);
    assert ProcOk(states[i], p);
    if k > i {
      EarlyReturnSpinsForEver(states, steps, i, k - 1, p);
      assert StepAt(states, steps, k - 1);
      RunInv(states, steps, k - 1);
      StuckStep(states[k - 1], steps[k - 1], states[k], p);
    }
    RunInv(states, steps, k);
    forall q | 0 <= q < |states[k].procs| ensures !states[k].procs[q].pc.RelHeld? && !states[k].procs[q].pc.Scan? {
      assert ProcOk(states[k], q) && ProcOk(states[k], p);
    }
  }

  /** It can happen: one process owns the lock, another asks for it while
      holding its own p->lock. */
  lemma SelfLockedCaller() returns (states: seq<State>, steps: seq<Step>)
    ensures Run(states, steps) && Stuck(states[|steps|], 1)
  {
    var out, crit := Proc(Out, false, false, false), Proc(Crit, false, false, false);
    var free, taken := Lock(false, None, None), Lock(true, Some(0), None);
    states := [State(free, [out, out])];
    steps := [];
    states, steps := Then(states, steps, Want(0), State(free, [out.(pc := Spin), out]));
    states, steps := Then(states, steps, AcquireSpin(0), State(free.(spin := Some(0)), [out.(pc := Test), out]));
    states, steps := Then(states, steps, TestFree(0), State(taken.(spin := Some(0)), [out.(pc := Taken), out]));
    states, steps := Then(states, steps, EnterCrit(0), State(taken, [crit, out]));
    states, steps := Then(states, steps, GrabSelf(1), State(taken, [crit, Proc(Out, false, true, true)]));
    states, steps := Then(states, steps, Want(1), State(taken, [crit, Proc(Spin, false, true, true)]));
    states, steps := Then(states, steps, AcquireSpin(1), State(taken.(spin := Some(1)), [crit, Proc(Test, false, true, true)]));
  }

  lemma Then(states: seq<State>, steps: seq<Step>, step: Step, s': State) returns (states': seq<State>, steps': seq<Step>)
    requires Run(states, steps) && Next(states[|steps|], step, s')
    ensures Run(states', steps') && |steps'| == |steps| + 1 && states'[|steps'|] == s'
  {
    states', steps' := states + [s'], steps + [step];
    forall i | 0 <= i < |steps'| ensures StepAt(states', steps', i) {
      assert i < |steps| ==> StepAt(states, steps, i);
    }
  }

  /** holdingsleep as process p calls it. */
  predicate Holdingsleep(s: State, p: Pid) {
    s.lk.locked && s.lk.pid == Some(p)
  }

  /** holdingsleep answers whether the caller is between acquiring and releasing. */
  lemma HoldingIsOwning(states: seq<State>, steps: seq<Step>, i: nat, p: Pid)
    requires Run(states, steps) && i < |states| && p < |states[i].procs|
    ensures Holdingsleep(states[i], p) <==> Owns(states[i].procs[p].pc)
  {
    RunInv(states, steps, i);
    assert ProcOk(states[i], p);
  }
}
