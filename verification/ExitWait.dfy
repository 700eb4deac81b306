/** fork, exit, wait and kill on the process table, as interleaved steps.
    wait_lock and every process's own p->lock are held across steps where the
    code holds them; consecutive accesses to one process's state under its
    p->lock are one step.  A step changes the process that takes it, at most
    one other process, and what all share. */
module ExitWait {
  import opened Wrappers

  type Id = nat   // index into proc[]

  datatype Status = Unused | Used | Live | Zombie

  datatype Pc =
    | Dead                        // no thread of control
    | Out                         // outside these functions
    | ForkNew(c: Id) | ForkParented(c: Id)
    | ExitWant
    | ExitRep(k: nat)             // reparent's loop
    | ExitRepWake(k: nat, m: nat) // wakeup(initproc) inside it
    | ExitWake(m: nat)            // wakeup(p->parent)
    | ExitLock                    // wants its own p->lock
    | ExitZombie                  // is a ZOMBIE, holds both locks
    | ExitOwn                     // has released wait_lock
    | WaitWant
    | WaitScan(k: nat, kids: bool)
    | WaitSleepIn | WaitBoth | WaitOwn | WaitAsleep   // sleep(p, &wait_lock)

  /** `sleeping`: SLEEPING on the channel wait uses, which is the process
      itself.  `plock`: the process holds its own p->lock.  `pid` counts all
      pids ever given out; the code keeps it in an int. */
  datatype Proc = Proc(pc: Pc, st: Status, parent: Option<Id>, sleeping: bool, plock: bool, pid: nat)

  /** `reaped`: the pids returned by wait so far. */
  datatype Shared = Shared(init: Id, wlock: Option<Id>, nextpid: nat, reaped: seq<nat>)

  datatype State = State(sh: Shared, procs: seq<Proc>)

  datatype Step =
    | ForkAlloc(p: Id, c: Id) | ForkFail(p: Id) | ForkParent(p: Id) | ForkRun(p: Id)
    | ExitStart(p: Id) | ExitAcquire(p: Id) | Reparent(p: Id) | RepWake(p: Id) | RepWakeEnd(p: Id)
    | RepEnd(p: Id) | WakeParent(p: Id) | WakeEnd(p: Id) | SetZombie(p: Id)
    | ExitDropWait(p: Id) | ExitSched(p: Id)
    | WaitStart(p: Id) | WaitAcquire(p: Id) | WaitSkip(p: Id) | WaitChild(p: Id) | Reap(p: Id)
    | WaitGiveUp(p: Id) | WaitSleep(p: Id) | WaitLockSelf(p: Id) | WaitDropWait(p: Id)
    | WaitSched(p: Id) | WaitResume(p: Id) | Kill(p: Id, q: Id)

  predicate Forking(pc: Pc) { pc.ForkNew? || pc.ForkParented? }

  /** The other process the step looks at, or p itself. */
  function Target(p: Id, n: nat, me: Proc, step: Step): (t: Id)
    requires p < n
    ensures t < n
  {
    var t :=
      match step
      case ForkAlloc(_, c) => c
      case ForkFail(_) => if Forking(me.pc) then me.pc.c else p
      case ForkParent(_) => if Forking(me.pc) then me.pc.c else p
      case ForkRun(_) => if Forking(me.pc) then me.pc.c else p
      case Reparent(_) => if me.pc.ExitRep? then me.pc.k else p
      case RepWake(_) => if me.pc.ExitRepWake? then me.pc.m else p
      case WakeParent(_) => if me.pc.ExitWake? then me.pc.m else p
      case WaitSkip(_) => if me.pc.WaitScan? then me.pc.k else p
      case WaitChild(_) => if me.pc.WaitScan? then me.pc.k else p
      case Reap(_) => if me.pc.WaitScan? then me.pc.k else p
      case WaitGiveUp(_) => if me.pc.WaitScan? then me.pc.k else p
      case Kill(_, q) => q
      case _ => p;
    if t < n then t else p
  }

  /** When process p can take the step, t being the other process. */
  predicate Enabled(p: Id, t: Id, n: nat, sh: Shared, me: Proc, it: Proc, step: Step) {
    match step
    // fork
    case ForkAlloc(_, c) => me.pc.Out? && t == c && it.st.Unused? && !it.plock
    case ForkFail(_) => me.pc.ForkNew? && t == me.pc.c
    case ForkParent(_) => me.pc.ForkNew? && t == me.pc.c && sh.wlock.None?
    case ForkRun(_) => me.pc.ForkParented? && t == me.pc.c
    // exit
    case ExitStart(_) => me.pc.Out? && p != sh.init
    case ExitAcquire(_) => me.pc.ExitWant? && sh.wlock.None?
    case Reparent(_) => me.pc.ExitRep? && t == me.pc.k
    case RepWake(_) => me.pc.ExitRepWake? && t == me.pc.m && (t == p || !it.plock)
    case RepWakeEnd(_) => me.pc.ExitRepWake? && me.pc.m == n
    case RepEnd(_) => me.pc.ExitRep? && me.pc.k == n
    case WakeParent(_) => me.pc.ExitWake? && t == me.pc.m && (t == p || !it.plock)
    case WakeEnd(_) => me.pc.ExitWake? && me.pc.m == n
    case SetZombie(_) => me.pc.ExitLock? && !me.plock
    case ExitDropWait(_) => me.pc.ExitZombie?
    case ExitSched(_) => me.pc.ExitOwn?
    // wait
    case WaitStart(_) => me.pc.Out?
    case WaitAcquire(_) => me.pc.WaitWant? && sh.wlock.None?
    case WaitSkip(_) => me.pc.WaitScan? && t == me.pc.k && it.parent != Some(p)
    case WaitChild(_) => me.pc.WaitScan? && t == me.pc.k && it.parent == Some(p) && !it.plock && !it.st.Zombie?
    case Reap(_) => me.pc.WaitScan? && t == me.pc.k && it.parent == Some(p) && !it.plock && it.st.Zombie?
    case WaitGiveUp(_) =>
      // no children, killed, or the exit status could not be copied out
      me.pc.WaitScan? && (me.pc.k == n || (t == me.pc.k && it.parent == Some(p) && !it.plock && it.st.Zombie?))
    case WaitSleep(_) => me.pc == WaitScan(n, true)
    case WaitLockSelf(_) => me.pc.WaitSleepIn? && !me.plock
    case WaitDropWait(_) => me.pc.WaitBoth?
    case WaitSched(_) => me.pc.WaitOwn?
    case WaitResume(_) => me.pc.WaitAsleep? && !me.sleeping
    case Kill(_, q) => me.pc.Out? && t == q && !it.plock
  }

  /** The process that takes the step, afterwards. */
  function Me(n: nat, me: Proc, isChild: bool, step: Step): Proc {
    match step
    case ForkAlloc(_, c) => me.(pc := ForkNew(c))
    case ForkFail(_) => me.(pc := Out)
    case ForkParent(_) => if me.pc.ForkNew? then me.(pc := ForkParented(me.pc.c)) else me
    case ForkRun(_) => me.(pc := Out)
    case ExitStart(_) => me.(pc := ExitWant)
    case ExitAcquire(_) => me.(pc := ExitRep(0))
    case Reparent(_) =>
      if me.pc.ExitRep? then me.(pc := if isChild then ExitRepWake(me.pc.k, 0) else ExitRep(me.pc.k + 1)) else me
    case RepWake(_) => if me.pc.ExitRepWake? then me.(pc := ExitRepWake(me.pc.k, me.pc.m + 1)) else me
    case RepWakeEnd(_) => if me.pc.ExitRepWake? then me.(pc := ExitRep(me.pc.k + 1)) else me
    case RepEnd(_) => me.(pc := ExitWake(0))
    case WakeParent(_) => if me.pc.ExitWake? then me.(pc := ExitWake(me.pc.m + 1)) else me
    case WakeEnd(_) => me.(pc := ExitLock)
    case SetZombie(_) => me.(pc := ExitZombie, plock := true, st := Zombie)
    case ExitDropWait(_) => me.(pc := ExitOwn)
    case ExitSched(_) => me.(pc := Dead, plock := false)
    case WaitStart(_) => me.(pc := WaitWant)
    case WaitAcquire(_) => me.(pc := WaitScan(0, false))
    case WaitSkip(_) => if me.pc.WaitScan? then me.(pc := WaitScan(me.pc.k + 1, me.pc.kids)) else me
    case WaitChild(_) => if me.pc.WaitScan? then me.(pc := WaitScan(me.pc.k + 1, true)) else me
    case Reap(_) => me.(pc := Out)
    case WaitGiveUp(_) => me.(pc := Out)
    case WaitSleep(_) => me.(pc := WaitSleepIn)
    case WaitLockSelf(_) => me.(pc := WaitBoth, plock := true)
    case WaitDropWait(_) => me.(pc := WaitOwn)
    case WaitSched(_) => me.(pc := WaitAsleep, sleeping := true, plock := false)
    case WaitResume(_) => me.(pc := WaitWant)
    case Kill(_, _) => me
  }

  /** The other process afterwards. */
  function It(p: Id, t: Id, sh: Shared, me: Proc, it: Proc, step: Step): Proc {
    match step
    case ForkAlloc(_, _) => it.(st := Used, pid := sh.nextpid)
    case ForkFail(_) => it.(st := Unused, pid := 0)
    case ForkParent(_) => it.(parent := Some(p))
    case ForkRun(_) => it.(pc := Out, st := Live)
    case Reparent(_) => if it.parent == Some(p) then it.(parent := Some(sh.init)) else it
    case RepWake(_) => if t == sh.init then it.(sleeping := false) else it
    case WakeParent(_) => if me.parent == Some(t) then it.(sleeping := false) else it
    case Reap(_) => it.(st := Unused, parent := None, pid := 0)
    case Kill(_, _) => it.(sleeping := false)
    case _ => it
  }

  /** wait_lock, the pid counter and the pids handed out by wait. */
  function Sh(p: Id, sh: Shared, it: Proc, step: Step): Shared {
    match step
    case ForkAlloc(_, _) => sh.(nextpid := sh.nextpid + 1)
    case ExitAcquire(_) => sh.(wlock := Some(p))
    case ExitDropWait(_) => sh.(wlock := None)
    case WaitAcquire(_) => sh.(wlock := Some(p))
    case Reap(_) => sh.(wlock := None, reaped := sh.reaped + [it.pid])
    case WaitGiveUp(_) => sh.(wlock := None)
    case WaitDropWait(_) => sh.(wlock := None)
    case _ => sh
  }

  ghost predicate Next(s: State, step: Step, s': State) {
    var p, n := step.p, |s.procs|;
    && p < n && s.sh.init < n
    && var me, t := s.procs[p], Target(p, n, s.procs[p], step);
       var it := s.procs[t];
       && Enabled(p, t, n, s.sh, me, it, step)
       && s' == State(Sh(p, s.sh, it, step),
                      s.procs[t := It(p, t, s.sh, me, it, step)][p := Me(n, me, it.parent == Some(p), step)])
  }

  /** userinit: one process, init, with no parent. */
  ghost predicate Init(s: State) {
    && s.sh.init < |s.procs| && s.sh.wlock.None? && s.sh.reaped == [] && s.sh.nextpid == 2
    && forall q :: 0 <= q < |s.procs| ==>
         if q == s.sh.init then s.procs[q] == Proc(Out, Live, None, false, false, 1)
         else s.procs[q] == Proc(Dead, Unused, None, false, false, 0)
  }

  // ----- the invariant -----

  predicate HoldsWait(pc: Pc) {
    pc.ExitRep? || pc.ExitRepWake? || pc.ExitWake? || pc.ExitLock? || pc.ExitZombie? ||
    pc.WaitScan? || pc.WaitSleepIn? || pc.WaitBoth?
  }

  predicate HoldsSelf(pc: Pc) {
    pc.ExitZombie? || pc.ExitOwn? || pc.WaitBoth? || pc.WaitOwn?
  }

  predicate Exiting(pc: Pc) {
    pc.ExitWant? || pc.ExitRep? || pc.ExitRepWake? || pc.ExitWake? || pc.ExitLock? || pc.ExitZombie? ||
    pc.ExitOwn?
  }

  /** Found no exited child and is on the way to sleep, or asleep. */
  predicate Committed(proc: Proc) {
    proc.pc.WaitSleepIn? || proc.pc.WaitBoth? || proc.pc.WaitOwn? || (proc.pc.WaitAsleep? && proc.sleeping)
  }

  /** p has given its child k away already. */
  predicate GaveAway(pc: Pc, k: nat) {
    (pc.ExitRep? && k < pc.k) || (pc.ExitRepWake? && k <= pc.k) ||
    pc.ExitWake? || pc.ExitLock? || pc.ExitZombie? || pc.ExitOwn? || pc.Dead?
  }

  /** Program counter, locks and status of one process agree. */
  ghost predicate LocksOk(sh: Shared, q: Id, proc: Proc) {
    && (HoldsWait(proc.pc) <==> sh.wlock == Some(q))
    && (HoldsSelf(proc.pc) <==> proc.plock)
    && (proc.sleeping ==> proc.pc.WaitAsleep?)
  }

  ghost predicate StatusOk(sh: Shared, q: Id, proc: Proc) {
    && (proc.st.Live? <==> !(proc.pc.Dead? || proc.pc.ExitZombie? || proc.pc.ExitOwn?))
    && (proc.pc.ExitZombie? || proc.pc.ExitOwn? ==> proc.st.Zombie?)
    && (q == sh.init ==> proc.parent.None? && proc.st.Live? && !Exiting(proc.pc))
    && (proc.st.Unused? ==> proc.parent.None?)
  }

  ghost predicate LocalOk(sh: Shared, q: Id, proc: Proc) { LocksOk(sh, q, proc) && StatusOk(sh, q, proc) }

  /** The child a process is creating. */
  ghost predicate ForkLink(q: Id, c: Id, proc: Proc, child: Proc) {
    c != q && child.st.Used? && child.parent.Some? == proc.pc.ForkParented?
  }

  ghost predicate ForkOk(s: State, q: Id)
    requires q < |s.procs|
  {
    Forking(s.procs[q].pc) ==>
      s.procs[q].pc.c < |s.procs| && ForkLink(q, s.procs[q].pc.c, s.procs[q], s.procs[s.procs[q].pc.c])
  }

  ghost predicate ProcOk(s: State, q: Id)
    requires q < |s.procs|
  {
    LocalOk(s.sh, q, s.procs[q]) && ForkOk(s, q)
  }

  /** Two processes are not creating the same child. */
  ghost predicate Apart(s: State, p: Id, q: Id)
    requires p < |s.procs| && q < |s.procs|
  {
    p != q && Forking(s.procs[p].pc) && Forking(s.procs[q].pc) ==> s.procs[p].pc.c != s.procs[q].pc.c
  }

  /** Child k's parent q is another process, alive, and has not yet given it away. */
  ghost predicate ParentOf(k: Id, q: Id, parent: Proc) {
    q != k && parent.st.Live? && !GaveAway(parent.pc, k)
  }

  ghost predicate ParentOk(s: State, k: Id)
    requires k < |s.procs|
  {
    var proc := s.procs[k];
    && ((proc.st.Live? && k != s.sh.init) || proc.st.Zombie? ==> proc.parent.Some?)
    && (proc.parent.Some? ==>
          proc.parent.value < |s.procs| && ParentOf(k, proc.parent.value, s.procs[proc.parent.value]))
  }

  /** A scan by p that is past k has noticed child k, which had not exited. */
  ghost predicate Noticed(p: Id, proc: Proc, k: Id, child: Proc) {
    proc.pc.WaitScan? && k < proc.pc.k && child.parent == Some(p) ==> proc.pc.kids && !child.st.Zombie?
  }

  /** An exiting process k that has been past its parent has woken it. */
  ghost predicate Woke(p: Id, parent: Proc, k: Id, proc: Proc) {
    proc.parent == Some(p) && ((proc.pc.ExitWake? && p < proc.pc.m) || proc.pc.ExitLock?) ==> !Committed(parent)
  }

  /** An exiting process has handed a child to init and has yet to wake init. */
  predicate InitWakeupPending(s: State) {
    && s.sh.wlock.Some? && s.sh.wlock.value < |s.procs| && s.sh.wlock.value != s.sh.init
    && s.procs[s.sh.wlock.value].pc.ExitRepWake? && s.procs[s.sh.wlock.value].pc.m <= s.sh.init
  }

  /** A process that has committed to sleeping has no exited child. */
  ghost predicate NotLost(s: State, p: Id, k: Id)
    requires p < |s.procs| && k < |s.procs|
  {
    Committed(s.procs[p]) && s.procs[k].parent == Some(p) && s.procs[k].st.Zombie? ==>
      p == s.sh.init && InitWakeupPending(s)
  }

  /** What is said of a process and a child of it. */
  ghost predicate PairOk(s: State, p: Id, k: Id)
    requires p < |s.procs| && k < |s.procs|
  {
    && Apart(s, p, k) && NotLost(s, p, k)
    && Noticed(p, s.procs[p], k, s.procs[k]) && Woke(p, s.procs[p], k, s.procs[k])
  }

  ghost predicate PidOk(s: State, q: Id)
    requires q < |s.procs|
  {
    !s.procs[q].st.Unused? ==> 0 < s.procs[q].pid < s.sh.nextpid && s.procs[q].pid !in s.sh.reaped
  }

  ghost predicate PidsOk(s: State) {
    && (forall q :: 0 <= q < |s.procs| ==> PidOk(s, q))
    && (forall p, q :: 0 <= p < q < |s.procs| && !s.procs[p].st.Unused? && !s.procs[q].st.Unused? ==>
          s.procs[p].pid != s.procs[q].pid)
    && (forall i :: 0 <= i < |s.sh.reaped| ==> s.sh.reaped[i] < s.sh.nextpid)
    && (forall i, j :: 0 <= i < j < |s.sh.reaped| ==> s.sh.reaped[i] != s.sh.reaped[j])
  }

  ghost predicate Inv(s: State) {
    && s.sh.init < |s.procs| && (s.sh.wlock.Some? ==> s.sh.wlock.value < |s.procs|)
    && (forall q :: 0 <= q < |s.procs| ==> ProcOk(s, q) && ParentOk(s, q))
    && (forall p, k :: 0 <= p < |s.procs| && 0 <= k < |s.procs| ==> PairOk(s, p, k))
    && PidsOk(s)
  }

  // ----- one step -----

  /** What is known of the processes a step touches. */
  ghost predicate Acts(p: Id, t: Id, n: nat, sh: Shared, me: Proc, it: Proc, step: Step) {
    && p < n && t < n && (t == p ==> it == me) && Enabled(p, t, n, sh, me, it, step)
    && LocalOk(sh, p, me) && LocalOk(sh, t, it)
    && (Forking(me.pc) && t == me.pc.c ==> ForkLink(p, t, me, it))
  }

  lemma ActorLocks(p: Id, t: Id, n: nat, sh: Shared, me: Proc, it: Proc, step: Step)
    requires Acts(p, t, n, sh, me, it, step)
    ensures LocksOk(Sh(p, sh, it, step), p, Me(n, me, it.parent == Some(p), step))
  {
  }

  lemma ActorStatus(p: Id, t: Id, n: nat, sh: Shared, me: Proc, it: Proc, step: Step)
    requires Acts(p, t, n, sh, me, it, step)
    ensures StatusOk(Sh(p, sh, it, step), p, Me(n, me, it.parent == Some(p), step))
  {
  }

  lemma TargetLocal(p: Id, t: Id, n: nat, sh: Shared, me: Proc, it: Proc, step: Step)
    requires Acts(p, t, n, sh, me, it, step) && t != p
    ensures LocalOk(Sh(p, sh, it, step), t, It(p, t, sh, me, it, step))
  {
  }

  /** wait_lock changes hands between nobody and p only. */
  lemma WaitLockMoves(p: Id, t: Id, n: nat, sh: Shared, me: Proc, it: Proc, step: Step)
    requires Acts(p, t, n, sh, me, it, step)
    ensures var w := Sh(p, sh, it, step).wlock;
            w == sh.wlock || (sh.wlock.None? && w == Some(p)) || (sh.wlock == Some(p) && w.None?)
    ensures Sh(p, sh, it, step).init == sh.init
  {
  }

  /** The facts about a state that one step of p needs. */
  ghost predicate Ready(s: State, step: Step) {
    && step.p < |s.procs| && s.sh.init < |s.procs|
    && var t := Target(step.p, |s.procs|, s.procs[step.p], step);
       && Acts(step.p, t, |s.procs|, s.sh, s.procs[step.p], s.procs[t], step)
       && ProcOk(s, step.p) && ProcOk(s, t) && ParentOk(s, step.p) && ParentOk(s, t)
  }

  /** Only p and t change. */
  ghost predicate Moved(s: State, p: Id, t: Id, s': State) {
    && p < |s.procs| && t < |s.procs| == |s'.procs| && s'.sh.init == s.sh.init < |s.procs|
    && s'.procs == s.procs[t := s'.procs[t]][p := s'.procs[p]]
  }

  lemma NextMoved(s: State, step: Step, s': State)
    requires Next(s, step, s') && Ready(s, step)
    ensures Moved(s, step.p, Target(step.p, |s.procs|, s.procs[step.p], step), s')
  {
    var t := Target(step.p, |s.procs|, s.procs[step.p], step);
    WaitLockMoves(step.p, t, |s.procs|, s.sh, s.procs[step.p], s.procs[t], step);
  }

  lemma StepLocal(s: State, step: Step, s': State, q: Id)
    requires Next(s, step, s') && Ready(s, step) && q < |s.procs| && LocalOk(s.sh, q, s.procs[q])
    ensures q < |s'.procs| && LocalOk(s'.sh, q, s'.procs[q])
  {
    var p, n := step.p, |s.procs|;
    var t := Target(p, n, s.procs[p], step);
    ActorLocks(p, t, n, s.sh, s.procs[p], s.procs[t], step);
    ActorStatus(p, t, n, s.sh, s.procs[p], s.procs[t], step);
    WaitLockMoves(p, t, n, s.sh, s.procs[p], s.procs[t], step);
    if t != p {
      TargetLocal(p, t, n, s.sh, s.procs[p], s.procs[t], step);
    }
  }

  /** The process that takes the step is left with a child of its own making. */
  lemma ActorFork(p: Id, t: Id, n: nat, sh: Shared, me: Proc, it: Proc, step: Step)
    requires Acts(p, t, n, sh, me, it, step)
    ensures var me' := Me(n, me, it.parent == Some(p), step);
            Forking(me'.pc) ==> t == me'.pc.c && ForkLink(p, t, me', It(p, t, sh, me, it, step))
  {
  }

  /** A child that somebody else is creating stays as it is, apart from being handed to init. */
  lemma TargetFork(p: Id, t: Id, n: nat, sh: Shared, me: Proc, it: Proc, step: Step)
    requires Acts(p, t, n, sh, me, it, step) && it.st.Used? && !(Forking(me.pc) && t == me.pc.c)
    ensures t != p && It(p, t, sh, me, it, step).st.Used?
    ensures It(p, t, sh, me, it, step).parent.Some? == it.parent.Some?
  {
  }

  lemma StepFork(s: State, step: Step, s': State, q: Id)
    requires Next(s, step, s') && Ready(s, step) && q < |s.procs| && ProcOk(s, q) && Apart(s, step.p, q)
    ensures q < |s'.procs| && ForkOk(s', q)
  {
    var p, n := step.p, |s.procs|;
    var t := Target(p, n, s.procs[p], step);
    if q == p {
      ActorFork(p, t, n, s.sh, s.procs[p], s.procs[t], step);
    } else if Forking(s.procs[q].pc) && s.procs[q].pc.c == t {
      TargetFork(p, t, n, s.sh, s.procs[p], s.procs[t], step);
    }
  }

  /** The parent that takes the step keeps child k, unless it hands k to init. */
  lemma ActorKeepsChild(p: Id, t: Id, n: nat, sh: Shared, me: Proc, it: Proc, step: Step, k: Id)
    requires Acts(p, t, n, sh, me, it, step) && k < n && ParentOf(k, p, me) && (k == t ==> it.parent == Some(p))
    ensures ParentOf(k, p, Me(n, me, it.parent == Some(p), step)) || (step.Reparent? && k == t)
  {
  }

  lemma TargetKeepsChild(p: Id, t: Id, n: nat, sh: Shared, me: Proc, it: Proc, step: Step, k: Id)
    requires Acts(p, t, n, sh, me, it, step) && t != p && ParentOf(k, t, it)
    ensures ParentOf(k, t, It(p, t, sh, me, it, step))
  {
  }

  /** A process that lives or has exited has a parent. */
  ghost predicate HasParent(sh: Shared, q: Id, proc: Proc) {
    (proc.st.Live? && q != sh.init) || proc.st.Zombie? ==> proc.parent.Some?
  }

  lemma ActorHasParent(p: Id, t: Id, n: nat, sh: Shared, me: Proc, it: Proc, step: Step)
    requires Acts(p, t, n, sh, me, it, step) && HasParent(sh, p, me)
    ensures var me' := Me(n, me, it.parent == Some(p), step); me'.parent == me.parent && HasParent(sh, p, me')
  {
  }

  lemma TargetHasParent(p: Id, t: Id, n: nat, sh: Shared, me: Proc, it: Proc, step: Step)
    requires Acts(p, t, n, sh, me, it, step) && t != p && HasParent(sh, t, it)
    ensures var it' := It(p, t, sh, me, it, step);
            && HasParent(sh, t, it')
            && (it'.parent == it.parent || it'.parent.None? || step.Reparent?
                || (it'.parent == Some(p) && ParentOf(t, p, Me(n, me, it.parent == Some(p), step))))
  {
  }

  /** Parents that keep child k, whose parent is kp, and children that keep their parents. */
  ghost predicate FamilyEffect(p: Id, t: Id, sh: Shared, me: Proc, it: Proc, me': Proc, it': Proc, k: Id, kp: Option<Id>) {
    && HasParent(sh, p, me') && me'.parent == me.parent
    && (t != p ==> HasParent(sh, t, it'))
    && (t == k != p ==> it'.parent == it.parent || it'.parent.None? || (it'.parent == Some(p) && ParentOf(t, p, me')))
    && (kp == Some(p) ==> ParentOf(k, p, me'))
    && (t != p && kp == Some(t) ==> ParentOf(k, t, it'))
  }

  lemma FamilyMoves(p: Id, t: Id, n: nat, sh: Shared, me: Proc, it: Proc, step: Step, k: Id, kp: Option<Id>)
    requires Acts(p, t, n, sh, me, it, step) && HasParent(sh, p, me) && HasParent(sh, t, it) && k < n
    requires (kp == Some(p) ==> ParentOf(k, p, me)) && (kp == Some(t) ==> ParentOf(k, t, it)) && (k == t ==> kp == it.parent)
    requires step.Reparent? ==> k != t
    ensures FamilyEffect(p, t, sh, me, it, Me(n, me, it.parent == Some(p), step), It(p, t, sh, me, it, step), k, kp)
  {
    ActorHasParent(p, t, n, sh, me, it, step);
    if t != p {
      TargetHasParent(p, t, n, sh, me, it, step);
    }
    if kp == Some(p) {
      ActorKeepsChild(p, t, n, sh, me, it, step, k);
    } else if kp == Some(t) {
      TargetKeepsChild(p, t, n, sh, me, it, step, k);
    }
  }

  lemma ParentsFrom(s: State, p: Id, t: Id, s': State, k: Id)
    requires Moved(s, p, t, s') && k < |s.procs| && ParentOk(s, k)
    requires FamilyEffect(p, t, s.sh, s.procs[p], s.procs[t], s'.procs[p], s'.procs[t], k, s.procs[k].parent)
    ensures ParentOk(s', k)
  {
  }

  /** The child that reparent hands over gets init for a parent. */
  lemma HandedToInit(s: State, step: Step, s': State)
    requires Next(s, step, s') && Ready(s, step) && ProcOk(s, s.sh.init) && step.Reparent?
    ensures var t := Target(step.p, |s.procs|, s.procs[step.p], step); t < |s'.procs| && ParentOk(s', t)
  {
    InitStaysParent(s, step, s');
  }

  lemma StepParent(s: State, step: Step, s': State, k: Id)
    requires Next(s, step, s') && Ready(s, step) && k < |s.procs| && ProcOk(s, k) && ParentOk(s, k)
    requires ProcOk(s, s.sh.init)
    ensures k < |s'.procs| && ParentOk(s', k)
  {
    var p, n := step.p, |s.procs|;
    var t := Target(p, n, s.procs[p], step);
    if step.Reparent? && k == t {
      HandedToInit(s, step, s');
    } else {
      KeepsParent(s, step, s', k);
    }
  }

  lemma KeepsParent(s: State, step: Step, s': State, k: Id)
    requires Next(s, step, s') && Ready(s, step) && k < |s.procs| && ParentOk(s, k)
    requires step.Reparent? ==> k != Target(step.p, |s.procs|, s.procs[step.p], step)
    ensures k < |s'.procs| && ParentOk(s', k)
  {
    NextMoved(s, step, s');
    var p, t := step.p, Target(step.p, |s.procs|, s.procs[step.p], step);
    FamilyMoves(p, t, |s.procs|, s.sh, s.procs[p], s.procs[t], step, k, s.procs[k].parent);
    ParentsFrom(s, p, t, s', k);
  }

  /** init never exits. */
  lemma InitStaysParent(s: State, step: Step, s': State)
    requires Next(s, step, s') && Ready(s, step) && ProcOk(s, s.sh.init)
    ensures s'.sh.init == s.sh.init < |s'.procs| && s'.procs[s.sh.init].st.Live? && !Exiting(s'.procs[s.sh.init].pc)
  {
    StepLocal(s, step, s', s.sh.init);
    WaitLockMoves(step.p, Target(step.p, |s.procs|, s.procs[step.p], step), |s.procs|, s.sh, s.procs[step.p],
                  s.procs[Target(step.p, |s.procs|, s.procs[step.p], step)], step);
  }

  /** A process and a child of it, with what is known of both. */
  ghost predicate Pair(s: State, step: Step, s': State, p: Id, k: Id) {
    && Next(s, step, s') && Ready(s, step) && p < |s.procs| && k < |s.procs| == |s'.procs|
    && ProcOk(s, p) && ProcOk(s, k) && ParentOk(s, k)
  }

  /** A fork in progress keeps its child, and a scan goes on one process at a
      time, taking note of the one it passes. */
  ghost predicate ScanEffect(p: Id, t: Id, me: Proc, it: Proc, me': Proc, it': Proc) {
    ForkGoesOn(t, me, it, me') && ScanGoesOn(p, t, me, it, me', it') && (Committed(me') ==> Committed(me) || HoldsWait(me.pc))
  }

  ghost predicate ForkGoesOn(t: Id, me: Proc, it: Proc, me': Proc) {
    Forking(me'.pc) ==> (Forking(me.pc) && me'.pc.c == me.pc.c) || (me'.pc.c == t && it.st.Unused?)
  }

  ghost predicate ScanGoesOn(p: Id, t: Id, me: Proc, it: Proc, me': Proc, it': Proc) {
    me'.pc.WaitScan? ==>
      || me'.pc.k == 0
      || (&& me.pc.WaitScan? && me'.pc.k == me.pc.k + 1 && t == me.pc.k && (me.pc.kids ==> me'.pc.kids)
          && (it.parent == Some(p) ==> me'.pc.kids && !it.st.Zombie?) && it' == it)
  }

  /** The wakeup of an exiting process goes on likewise, and wakes its parent. */
  ghost predicate ExitEffect(t: Id, n: nat, me: Proc, me': Proc, it': Proc) {
    && (me'.pc.ExitWake? && me'.pc.m > 0 ==>
          me.pc.ExitWake? && me'.pc.m == me.pc.m + 1 && t == me.pc.m && (me.parent == Some(t) ==> !Committed(it')))
    && (me'.pc.ExitLock? ==> me.pc == ExitWake(n))
    && me'.parent == me.parent && (me'.st.Zombie? ==> me.st.Zombie? || HoldsWait(me.pc))
  }

  /** What a step does to the other process, as its parent and its children see it. */
  ghost predicate OtherEffect(p: Id, sh: Shared, me: Proc, it: Proc, it': Proc) {
    && (it'.pc == it.pc || (it.pc.Dead? && it'.pc.Out?)) && (Committed(it') ==> Committed(it))
    && (it'.st.Zombie? ==> it.st.Zombie?)
    && (it'.parent == it.parent || it'.parent.None? || HoldsWait(me.pc) || sh.wlock.None?)
  }

  lemma ScanMoves(p: Id, t: Id, n: nat, sh: Shared, me: Proc, it: Proc, step: Step)
    requires Acts(p, t, n, sh, me, it, step) && me.parent != Some(p)
    ensures ScanEffect(p, t, me, it, Me(n, me, it.parent == Some(p), step), if t == p then me else It(p, t, sh, me, it, step))
  {
    ScanSteps(p, t, n, sh, me, it, step);
    ForkSteps(p, t, n, sh, me, it, step);
  }

  lemma ScanSteps(p: Id, t: Id, n: nat, sh: Shared, me: Proc, it: Proc, step: Step)
    requires Acts(p, t, n, sh, me, it, step) && me.parent != Some(p)
    ensures ScanGoesOn(p, t, me, it, Me(n, me, it.parent == Some(p), step), if t == p then me else It(p, t, sh, me, it, step))
  {
  }

  lemma ForkSteps(p: Id, t: Id, n: nat, sh: Shared, me: Proc, it: Proc, step: Step)
    requires Acts(p, t, n, sh, me, it, step)
    ensures var me' := Me(n, me, it.parent == Some(p), step);
            ForkGoesOn(t, me, it, me') && (Committed(me') ==> Committed(me) || HoldsWait(me.pc))
  {
  }

  lemma ExitMoves(p: Id, t: Id, n: nat, sh: Shared, me: Proc, it: Proc, step: Step)
    requires Acts(p, t, n, sh, me, it, step) && me.parent != Some(p)
    ensures ExitEffect(t, n, me, Me(n, me, it.parent == Some(p), step), if t == p then me else It(p, t, sh, me, it, step))
  {
  }

  lemma OtherMoves(p: Id, t: Id, n: nat, sh: Shared, me: Proc, it: Proc, step: Step)
    requires Acts(p, t, n, sh, me, it, step) && t != p
    ensures OtherEffect(p, sh, me, it, It(p, t, sh, me, it, step))
  {
  }

  /** These effects in a state. */
  ghost predicate Effects(s: State, p: Id, t: Id, s': State) {
    && Moved(s, p, t, s')
    && ScanEffect(p, t, s.procs[p], s.procs[t], s'.procs[p], if t == p then s.procs[p] else s'.procs[t])
    && ExitEffect(t, |s.procs|, s.procs[p], s'.procs[p], if t == p then s.procs[p] else s'.procs[t])
    && (t != p ==> OtherEffect(p, s.sh, s.procs[p], s.procs[t], s'.procs[t]))
  }

  lemma NextEffects(s: State, step: Step, s': State)
    requires Next(s, step, s') && Ready(s, step)
    ensures Effects(s, step.p, Target(step.p, |s.procs|, s.procs[step.p], step), s')
  {
    var p, n := step.p, |s.procs|;
    var t := Target(p, n, s.procs[p], step);
    NextMoved(s, step, s');
    ScanMoves(p, t, n, s.sh, s.procs[p], s.procs[t], step);
    ExitMoves(p, t, n, s.sh, s.procs[p], s.procs[t], step);
    if t != p {
      OtherMoves(p, t, n, s.sh, s.procs[p], s.procs[t], step);
    }
  }

  lemma PairLoops(s: State, p: Id, t: Id, s': State, x: Id, k: Id)
    requires Effects(s, p, t, s') && x < |s.procs| && k < |s.procs| && PairOk(s, x, k)
    requires ProcOk(s, p) && ProcOk(s, x) && ProcOk(s, k) && ParentOk(s, k)
    ensures Apart(s', x, k) && Noticed(x, s'.procs[x], k, s'.procs[k]) && Woke(x, s'.procs[x], k, s'.procs[k])
  {
  }

  /** While reparent runs, a child handed to init is covered by the wakeup still to come. */
  lemma ReparentNotLost(s: State, step: Step, s': State, p: Id, k: Id)
    requires Pair(s, step, s', p, k) && PairOk(s, p, k) && (step.Reparent? || step.RepWake? || step.RepWakeEnd?)
    ensures NotLost(s', p, k)
  {
  }

  lemma StepNotLost(s: State, step: Step, s': State, p: Id, k: Id)
    requires Pair(s, step, s', p, k) && PairOk(s, p, k)
    ensures NotLost(s', p, k)
  {
    if step.Reparent? || step.RepWake? || step.RepWakeEnd? {
      ReparentNotLost(s, step, s', p, k);
    } else {
      OtherNotLost(s, step, s', p, k);
    }
  }

  /** Outside reparent's loop: a process commits to sleeping only after a whole
      scan, becomes a ZOMBIE only after waking its parent, and nobody's exited
      child changes its parent. */
  ghost predicate QuietEffect(p: Id, t: Id, n: nat, sh: Shared, me: Proc, it: Proc, sh': Shared, me': Proc, it': Proc) {
    && !me.pc.ExitRepWake?
    && (sh'.wlock == sh.wlock || sh.wlock.None? || sh.wlock == Some(p))
    && (Committed(me') ==> Committed(me) || me.pc == WaitScan(n, true))
    && me'.parent == me.parent && (me'.st.Zombie? ==> me.st.Zombie? || me.pc.ExitLock?)
    && (t != p ==>
          && (Committed(it') ==> Committed(it)) && (it'.pc == it.pc || it.pc.Dead?)
          && (it'.st.Zombie? ==> it.st.Zombie? && it'.parent == it.parent))
  }

  lemma QuietMoves(p: Id, t: Id, n: nat, sh: Shared, me: Proc, it: Proc, step: Step)
    requires Acts(p, t, n, sh, me, it, step) && !(step.Reparent? || step.RepWake? || step.RepWakeEnd?)
    ensures QuietEffect(p, t, n, sh, me, it,
                        Sh(p, sh, it, step), Me(n, me, it.parent == Some(p), step), It(p, t, sh, me, it, step))
  {
  }

  lemma QuietNotLost(s: State, p: Id, t: Id, s': State, x: Id, k: Id)
    requires Moved(s, p, t, s') && x < |s.procs| && k < |s.procs| && PairOk(s, x, k)
    requires ProcOk(s, p) && ProcOk(s, x) && ProcOk(s, k)
    requires QuietEffect(p, t, |s.procs|, s.sh, s.procs[p], s.procs[t], s'.sh, s'.procs[p],
                         if t == p then s.procs[p] else s'.procs[t])
    ensures NotLost(s', x, k)
  {
  }

  lemma OtherNotLost(s: State, step: Step, s': State, p: Id, k: Id)
    requires Pair(s, step, s', p, k) && PairOk(s, p, k) && !(step.Reparent? || step.RepWake? || step.RepWakeEnd?)
    ensures NotLost(s', p, k)
  {
    var t := Target(step.p, |s.procs|, s.procs[step.p], step);
    QuietMoves(step.p, t, |s.procs|, s.sh, s.procs[step.p], s.procs[t], step);
    NextMoved(s, step, s');
    QuietNotLost(s, step.p, t, s', p, k);
  }

  lemma StepPair(s: State, step: Step, s': State, p: Id, k: Id)
    requires Pair(s, step, s', p, k) && PairOk(s, p, k)
    ensures PairOk(s', p, k)
  {
    NextEffects(s, step, s');
    PairLoops(s, step.p, Target(step.p, |s.procs|, s.procs[step.p], step), s', p, k);
    StepNotLost(s, step, s', p, k);
  }

  /** A pid is given out new (`alloc`), comes back (`reap`), or stays. */
  ghost predicate PidEffect(alloc: bool, reap: bool, p: Id, t: Id, sh: Shared, me: Proc, it: Proc,
                            sh': Shared, me': Proc, it': Proc)
  {
    && me'.pid == me.pid && !me'.st.Unused? && !me.st.Unused?
    && sh'.nextpid == (if alloc then sh.nextpid + 1 else sh.nextpid)
    && sh'.reaped == (if reap then sh.reaped + [it.pid] else sh.reaped)
    && (alloc ==> t != p && it'.pid == sh.nextpid && !reap)
    && (reap ==> t != p && it'.st.Unused? && !it.st.Unused?)
    && (t != p && !alloc && !it'.st.Unused? ==> it'.pid == it.pid && !it.st.Unused?)
  }

  lemma PidMoves(p: Id, t: Id, n: nat, sh: Shared, me: Proc, it: Proc, step: Step)
    requires Acts(p, t, n, sh, me, it, step)
    ensures PidEffect(step.ForkAlloc?, step.Reap?, p, t, sh, me, it,
                      Sh(p, sh, it, step), Me(n, me, it.parent == Some(p), step), It(p, t, sh, me, it, step))
  {
  }

  /** Each process in the table keeps a pid of its own. */
  lemma PidAt(s: State, p: Id, t: Id, s': State, alloc: bool, reap: bool, q: Id, r: Id)
    requires Moved(s, p, t, s') && PidsOk(s) && q < |s.procs| && r < |s.procs|
    requires PidEffect(alloc, reap, p, t, s.sh, s.procs[p], s.procs[t], s'.sh, s'.procs[p],
                       if t == p then s.procs[p] else s'.procs[t])
    ensures PidOk(s', q)
    ensures q != r && !s'.procs[q].st.Unused? && !s'.procs[r].st.Unused? ==> s'.procs[q].pid != s'.procs[r].pid
  {
    assert PidOk(s, q) && PidOk(s, r) && PidOk(s, p) && PidOk(s, t);
  }

  lemma StepPids(s: State, step: Step, s': State)
    requires Next(s, step, s') && Ready(s, step) && PidsOk(s)
    ensures PidsOk(s')
  {
    var p, n := step.p, |s.procs|;
    var t := Target(p, n, s.procs[p], step);
    PidMoves(p, t, n, s.sh, s.procs[p], s.procs[t], step);
    NextMoved(s, step, s');
    assert PidOk(s, t);
    forall q | 0 <= q < |s'.procs| ensures PidOk(s', q) {
      PidAt(s, p, t, s', step.ForkAlloc?, step.Reap?, q, q);
    }
    forall q, r | 0 <= q < r < |s'.procs| && !s'.procs[q].st.Unused? && !s'.procs[r].st.Unused?
      ensures s'.procs[q].pid != s'.procs[r].pid
    {
      PidAt(s, p, t, s', step.ForkAlloc?, step.Reap?, q, r);
    }
  }

  lemma InvReady(s: State, step: Step, s': State)
    requires Inv(s) && Next(s, step, s')
    ensures Ready(s, step) && s'.sh.init == s.sh.init && |s'.procs| == |s.procs|
    ensures s'.sh.wlock.Some? ==> s'.sh.wlock.value < |s'.procs|
  {
    var p := step.p;
    var t := Target(p, |s.procs|, s.procs[p], step);
    assert ProcOk(s, p) && ProcOk(s, t) && ParentOk(s, p) && ParentOk(s, t);
    WaitLockMoves(p, t, |s.procs|, s.sh, s.procs[p], s.procs[t], step);
  }

  lemma StepInv(s: State, step: Step, s': State)
    requires Inv(s) && Next(s, step, s')
    ensures Inv(s')
  {
    InvReady(s, step, s');
    assert ProcOk(s, s.sh.init);
    forall q | 0 <= q < |s'.procs| ensures ProcOk(s', q) && ParentOk(s', q) {
      assert ProcOk(s, q) && ParentOk(s, q) && PairOk(s, step.p, q);
      StepLocal(s, step, s', q);
      StepFork(s, step, s', q);
      StepParent(s, step, s', q);
    }
    forall p, k | 0 <= p < |s'.procs| && 0 <= k < |s'.procs| ensures PairOk(s', p, k) {
      assert ProcOk(s, p) && ProcOk(s, k) && ParentOk(s, k) && PairOk(s, p, k);
      StepPair(s, step, s', p, k);
    }
    StepPids(s, step, s');
  }

  // ----- whole runs -----

  ghost predicate Run(states: seq<State>, steps: seq<Step>) {
    && |states| == |steps| + 1 && Init(states[0])
    && forall i :: 0 <= i < |steps| ==> StepAt(states, steps, i)
  }

  ghost predicate StepAt(states: seq<State>, steps: seq<Step>, i: nat)
    requires |states| == |steps| + 1 && i < |steps|
  {
    Next(states[i], steps[i], states[i + 1])
  }

  lemma InitInv(s: State)
    requires Init(s)
    ensures Inv(s)
  {
  }

  lemma {:induction false} RunInv(states: seq<State>, steps: seq<Step>, i: nat)
    requires Run(states, steps) && i < |states|
    ensures Inv(states[i])
  {
    if i == 0 {
      InitInv(states[0]);
    } else {
      RunInv(states, steps, i - 1);
      assert StepAt(states, steps, i - 1);
      StepInv(states[i - 1], steps[i - 1], states[i]);
    }
  }

  /** No lost wakeup: whenever wait_lock is free, a process asleep in wait, or
      on its way to sleep there, has no exited child. */
  lemma WaiterHasNoExitedChild(states: seq<State>, steps: seq<Step>, i: nat, p: Id, k: Id)
    requires Run(states, steps) && i < |states| && states[i].sh.wlock.None?
    requires p < |states[i].procs| && k < |states[i].procs|
    requires states[i].procs[p].sleeping || Committed(states[i].procs[p])
    ensures states[i].procs[k].parent == Some(p) ==> !states[i].procs[k].st.Zombie?
  {
    RunInv(states, steps, i);
    assert ProcOk(states[i], p) && PairOk(states[i], p, k);
  }

  /** Every exited process has a living parent that has not itself begun to
      exit past it, so somebody can still reap it. */
  lemma ZombieHasLivingParent(states: seq<State>, steps: seq<Step>, i: nat, k: Id)
    requires Run(states, steps) && i < |states| && k < |states[i].procs| && states[i].procs[k].st.Zombie?
    ensures var s := states[i];
            && s.procs[k].parent.Some? && s.procs[k].parent.value < |s.procs|
            && ParentOf(k, s.procs[k].parent.value, s.procs[s.procs[k].parent.value])
  {
    RunInv(states, steps, i);
    assert ParentOk(states[i], k);
  }

  /** A scan that ends without having seen a child means there is none. */
  lemma NoKidsMeansNoChildren(states: seq<State>, steps: seq<Step>, i: nat, p: Id, k: Id)
    requires Run(states, steps) && i < |states| && p < |states[i].procs| && k < |states[i].procs|
    requires states[i].procs[p].pc == WaitScan(|states[i].procs|, false)
    ensures states[i].procs[k].parent != Some(p)
  {
    RunInv(states, steps, i);
    assert PairOk(states[i], p, k);
  }

  /** wait never returns the same child twice, and never one still in the
      table.  As ints two pids it returns are the same exactly when they were
      given out a multiple of 2^32 apart. */
  lemma ReapedOnce(states: seq<State>, steps: seq<Step>, i: nat)
    requires Run(states, steps) && i < |states|
    ensures var s := states[i];
            && (forall a, b :: 0 <= a < b < |s.sh.reaped| ==> s.sh.reaped[a] != s.sh.reaped[b])
            && (forall q :: 0 <= q < |s.procs| && !s.procs[q].st.Unused? ==> s.procs[q].pid !in s.sh.reaped)
    ensures var r := states[i].sh.reaped;
            && (forall a, b :: 0 <= a < b < |r| ==> (AsInt(r[a]) == AsInt(r[b]) <==> r[a] % UINT == r[b] % UINT))
            && (states[i].sh.nextpid <= UINT ==> forall a, b :: 0 <= a < b < |r| ==> AsInt(r[a]) != AsInt(r[b]))
  {
    RunInv(states, steps, i);
    var s := states[i];
    forall q | 0 <= q < |s.procs| && !s.procs[q].st.Unused? ensures s.procs[q].pid !in s.sh.reaped {
      assert PidOk(s, q);
    }
    forall a, b | 0 <= a < b < |s.sh.reaped|
      ensures AsInt(s.sh.reaped[a]) == AsInt(s.sh.reaped[b]) <==> s.sh.reaped[a] % UINT == s.sh.reaped[b] % UINT
    {
      SameInt(s.sh.reaped[a], s.sh.reaped[b]);
    }
  }

  lemma SameInt(a: nat, b: nat)
    ensures AsInt(a) == AsInt(b) <==> a % UINT == b % UINT
  {
  }

  // ----- every process is accounted for -----

  /** The pid in slot q of the table. */
  function Slot(proc: Proc): Option<nat> { if proc.st.Unused? then None else Some(proc.pid) }

  ghost predicate InTable(s: State, pid: nat) {
    exists q :: 0 <= q < |s.procs| && Slot(s.procs[q]) == Some(pid)
  }

  /** The other process of a step, as Target gives it. */
  ghost function Other(s: State, step: Step): Id
    requires step.p < |s.procs|
  {
    Target(step.p, |s.procs|, s.procs[step.p], step)
  }

  lemma SlotAct(p: Id, t: Id, n: nat, sh: Shared, me: Proc, it: Proc, step: Step)
    requires Acts(p, t, n, sh, me, it, step) && t == Target(p, n, me, step)
    ensures t != p ==> Slot(Me(n, me, it.parent == Some(p), step)) == Slot(me)
    ensures var r := if t == p then Slot(Me(n, me, it.parent == Some(p), step)) else Slot(It(p, t, sh, me, it, step));
            r == if step.ForkAlloc? then Some(sh.nextpid) else if step.ForkFail? || step.Reap? then None else Slot(it)
    ensures step.ForkAlloc? ==> Slot(it).None?
    ensures step.ForkFail? || step.Reap? ==> Slot(it) == Some(it.pid)
    ensures Sh(p, sh, it, step).reaped == if step.Reap? then sh.reaped + [it.pid] else sh.reaped
    ensures Sh(p, sh, it, step).nextpid == if step.ForkAlloc? then sh.nextpid + 1 else sh.nextpid
  {
  }

  /** fork puts a new pid in a free slot, its failure and wait take one out,
      and no other step touches the pids in the table. */
  lemma SlotStep(s: State, step: Step, s': State, q: Id)
    requires Inv(s) && Next(s, step, s') && q < |s.procs|
    ensures |s'.procs| == |s.procs|
    ensures var t := Other(s, step);
            && Slot(s'.procs[q]) == (if q != t then Slot(s.procs[q])
                                     else if step.ForkAlloc? then Some(s.sh.nextpid)
                                     else if step.ForkFail? || step.Reap? then None
                                     else Slot(s.procs[q]))
            && (step.ForkAlloc? ==> Slot(s.procs[t]).None?)
            && (step.ForkFail? || step.Reap? ==> Slot(s.procs[t]) == Some(s.procs[t].pid))
            && s'.sh.reaped == (if step.Reap? then s.sh.reaped + [s.procs[t].pid] else s.sh.reaped)
            && s'.sh.nextpid == if step.ForkAlloc? then s.sh.nextpid + 1 else s.sh.nextpid
  {
    var p, t := step.p, Other(s, step);
    assert ProcOk(s, p) && ProcOk(s, t);
    SlotAct(p, t, |s.procs|, s.sh, s.procs[p], s.procs[t], step);
  }

  /** The pids of processes whose creation failed. */
  ghost function Failed(states: seq<State>, steps: seq<Step>, i: nat): set<nat>
    requires Run(states, steps) && i <= |steps|
  {
    if i == 0 then {}
    else
      assert StepAt(states, steps, i - 1);
      Failed(states, steps, i - 1)
      + if steps[i - 1].ForkFail? then {states[i - 1].procs[Other(states[i - 1], steps[i - 1])].pid} else {}
  }

  /** No process appears or disappears: the pids given out are those in the
      table, those returned by wait and those of failed forks. */
  lemma {:induction false} PidsConserved(states: seq<State>, steps: seq<Step>, i: nat, pid: nat)
    requires Run(states, steps) && i < |states|
    ensures 0 < pid < states[i].sh.nextpid
            <==> InTable(states[i], pid) || pid in states[i].sh.reaped || pid in Failed(states, steps, i)
  {
    if i == 0 {
      var s := states[0];
      if pid == 1 {
        assert Slot(s.procs[s.sh.init]) == Some(1);
      }
    } else {
      PidsConserved(states, steps, i - 1, pid);
      RunInv(states, steps, i - 1);
      assert StepAt(states, steps, i - 1);
      var s := states[i - 1];
      assert ProcOk(s, s.sh.init) && PidOk(s, s.sh.init);
      PidStep(s, steps[i - 1], states[i], pid);
    }
  }

  lemma PidStep(s: State, step: Step, s': State, pid: nat)
    requires Inv(s) && Next(s, step, s')
    ensures var t := Other(s, step);
            && (InTable(s', pid) ==> InTable(s, pid) || (step.ForkAlloc? && pid == s.sh.nextpid))
            && (InTable(s, pid) ==> InTable(s', pid) || ((step.ForkFail? || step.Reap?) && pid == s.procs[t].pid))
            && (step.ForkAlloc? ==> InTable(s', s.sh.nextpid))
            && (step.ForkFail? || step.Reap? ==> InTable(s, s.procs[t].pid))
            && s'.sh.reaped == (if step.Reap? then s.sh.reaped + [s.procs[t].pid] else s.sh.reaped)
            && s'.sh.nextpid == if step.ForkAlloc? then s.sh.nextpid + 1 else s.sh.nextpid
  {
    var t := Other(s, step);
    SlotStep(s, step, s', t);
    if q :| 0 <= q < |s'.procs| && Slot(s'.procs[q]) == Some(pid) {
      SlotStep(s, step, s', q);
    }
    if q :| 0 <= q < |s.procs| && Slot(s.procs[q]) == Some(pid) {
      SlotStep(s, step, s', q);
    }
  }

  /** What wait returns is the pid of an exited child of the caller, and its
      slot is free again. */
  lemma WaitReturnsOwnZombie(states: seq<State>, steps: seq<Step>, i: nat)
    requires Run(states, steps) && i < |steps| && steps[i].Reap?
    ensures var s, s', p := states[i], states[i + 1], steps[i].p;
            exists k :: 0 <= k < |s.procs| == |s'.procs| && s.procs[k].st.Zombie? && s.procs[k].parent == Some(p)
                        && s'.sh.reaped == s.sh.reaped + [s.procs[k].pid] && s'.procs[k].st.Unused?
  {
    RunInv(states, steps, i);
    assert StepAt(states, steps, i);
    var s, t := states[i], Other(states[i], steps[i]);
    assert ProcOk(s, steps[i].p) && ParentOk(s, t);
    assert s.procs[t].st.Zombie? && s.procs[t].parent == Some(steps[i].p);
  }

  /** A process is some other's child from fork on, becomes init's only when
      its parent exits, and nobody's only when wait has collected it. */
  lemma ParentChanges(states: seq<State>, steps: seq<Step>, i: nat, k: Id)
    requires Run(states, steps) && i < |steps| && k < |states[i].procs|
    ensures k < |states[i + 1].procs|
    ensures var was, now, step := states[i].procs[k].parent, states[i + 1].procs[k].parent, steps[i];
            now == was || (step.ForkParent? && was.None? && now == Some(step.p))
            || (step.Reparent? && was == Some(step.p) && now == Some(states[i].sh.init))
            || (step.Reap? && was == Some(step.p) && now.None?)
  {
    RunInv(states, steps, i);
    assert StepAt(states, steps, i);
    var s, step := states[i], steps[i];
    var p, t := step.p, Other(s, step);
    assert ProcOk(s, p) && ProcOk(s, t);
    ParentAct(p, t, |s.procs|, s.sh, s.procs[p], s.procs[t], step);
  }

  lemma ParentAct(p: Id, t: Id, n: nat, sh: Shared, me: Proc, it: Proc, step: Step)
    requires Acts(p, t, n, sh, me, it, step) && t == Target(p, n, me, step)
    ensures Me(n, me, it.parent == Some(p), step).parent == me.parent
    ensures var now := It(p, t, sh, me, it, step).parent;
            now == it.parent || (step.ForkParent? && it.parent.None? && now == Some(p))
            || (step.Reparent? && it.parent == Some(p) && now == Some(sh.init))
            || (step.Reap? && it.parent == Some(p) && now.None?)
  {
  }

  /** An exited process has no children left. */
  lemma ExitedHasNoChildren(states: seq<State>, steps: seq<Step>, i: nat, p: Id, k: Id)
    requires Run(states, steps) && i < |states| && p < |states[i].procs| && k < |states[i].procs|
    requires states[i].procs[p].st.Zombie?
    ensures states[i].procs[k].parent != Some(p)
  {
    RunInv(states, steps, i);
    assert ParentOk(states[i], k);
  }

  // ----- no deadlock -----

  /** A loop over the table has not run past its end. */
  predicate InRange(pc: Pc, n: nat) {
    match pc
    case ExitRep(k) => k <= n
    case ExitRepWake(k, m) => k < n && m <= n
    case ExitWake(m) => m <= n
    case WaitScan(k, _) => k <= n
    case _ => true
  }

  lemma RangeAct(p: Id, t: Id, n: nat, sh: Shared, me: Proc, it: Proc, step: Step)
    requires p < n && t < n && Enabled(p, t, n, sh, me, it, step)
    ensures InRange(me.pc, n) ==> InRange(Me(n, me, it.parent == Some(p), step).pc, n)
    ensures InRange(it.pc, n) ==> InRange(It(p, t, sh, me, it, step).pc, n)
  {
  }

  lemma {:induction false} RunInRange(states: seq<State>, steps: seq<Step>, i: nat, q: Id)
    requires Run(states, steps) && i < |states| && q < |states[i].procs|
    ensures InRange(states[i].procs[q].pc, |states[i].procs|)
  {
    if i > 0 {
      assert StepAt(states, steps, i - 1);
      var s, step := states[i - 1], steps[i - 1];
      var p, t := step.p, Other(s, step);
      RunInRange(states, steps, i - 1, q);
      RangeAct(p, t, |s.procs|, s.sh, s.procs[p], s.procs[t], step);
    }
  }

  /** What p does next, if nothing is in its way; a fork goes on to its end,
      and wait gives up rather than sleeps when it is through with the table. */
  function Ahead(s: State, p: Id): Step
    requires p < |s.procs|
  {
    var n := |s.procs|;
    match s.procs[p].pc
    case ForkNew(_) => ForkParent(p)
    case ForkParented(_) => ForkRun(p)
    case ExitWant => ExitAcquire(p)
    case ExitRep(k) => if k < n then Reparent(p) else RepEnd(p)
    case ExitRepWake(_, m) => if m < n then RepWake(p) else RepWakeEnd(p)
    case ExitWake(m) => if m < n then WakeParent(p) else WakeEnd(p)
    case ExitLock => SetZombie(p)
    case ExitZombie => ExitDropWait(p)
    case ExitOwn => ExitSched(p)
    case WaitWant => WaitAcquire(p)
    case WaitScan(k, kids) =>
      if k >= n then (if kids then WaitSleep(p) else WaitGiveUp(p))
      else if s.procs[k].parent != Some(p) then WaitSkip(p)
      else if s.procs[k].st.Zombie? then Reap(p) else WaitChild(p)
    case WaitSleepIn => WaitLockSelf(p)
    case WaitBoth => WaitDropWait(p)
    case WaitOwn => WaitSched(p)
    case _ => WaitResume(p)
  }

  predicate NeedsWaitLock(pc: Pc) { pc.ForkNew? || pc.ExitWant? || pc.WaitWant? }

  /** The process whose p->lock p wants next. */
  function Wants(s: State, p: Id): Option<Id>
    requires p < |s.procs|
  {
    var n := |s.procs|;
    match s.procs[p].pc
    case ExitRepWake(_, m) => if m < n && m != p then Some(m) else None
    case ExitWake(m) => if m < n && m != p then Some(m) else None
    case WaitScan(k, _) => if k < n && s.procs[k].parent == Some(p) then Some(k) else None
    case _ => None
  }

  predicate Blocked(s: State, p: Id)
    requires p < |s.procs|
  {
    var proc := s.procs[p];
    || proc.pc.Out? || proc.pc.Dead?
    || (NeedsWaitLock(proc.pc) && s.sh.wlock.Some?)
    || (proc.pc.WaitAsleep? && proc.sleeping)
    || (Wants(s, p).Some? && Wants(s, p).value < |s.procs| && s.procs[Wants(s, p).value].plock)
  }

  /** p's next step is possible. */
  ghost predicate CanMove(s: State, p: Id) {
    p < |s.procs| && exists s' :: Next(s, Ahead(s, p), s')
  }

  lemma AheadEnabled(s: State, p: Id)
    requires Inv(s) && p < |s.procs| && !Blocked(s, p) && InRange(s.procs[p].pc, |s.procs|)
    ensures var step := Ahead(s, p); var t := Other(s, step);
            Enabled(p, t, |s.procs|, s.sh, s.procs[p], s.procs[t], step)
  {
    assert ProcOk(s, p) && ParentOk(s, p);
  }

  lemma AheadMoves(s: State, p: Id)
    requires Inv(s) && p < |s.procs| && !Blocked(s, p) && InRange(s.procs[p].pc, |s.procs|)
    ensures CanMove(s, p)
  {
    var step := Ahead(s, p);
    var n, me, t := |s.procs|, s.procs[p], Other(s, step);
    var it := s.procs[t];
    AheadEnabled(s, p);
    var s' := State(Sh(p, s.sh, it, step),
                    s.procs[t := It(p, t, s.sh, me, it, step)][p := Me(n, me, it.parent == Some(p), step)]);
    assert Next(s, step, s');
  }

  /** No deadlock between wait_lock and the p->locks: whenever a process is on
      its way through fork, exit or wait and not asleep there, some process can
      take its next step. */
  lemma NoDeadlock(states: seq<State>, steps: seq<Step>, i: nat, p: Id) returns (q: Id)
    requires Run(states, steps) && i < |states| && p < |states[i].procs|
    requires var proc := states[i].procs[p];
             !proc.pc.Out? && !proc.pc.Dead? && !(proc.pc.WaitAsleep? && proc.sleeping)
    ensures CanMove(states[i], q)
  {
    RunInv(states, steps, i);
    var s := states[i];
    q := p;
    if Blocked(s, q) && NeedsWaitLock(s.procs[q].pc) {
      q := s.sh.wlock.value;
    }
    assert ProcOk(s, q);
    if Blocked(s, q) {
      q := Wants(s, q).value;
      assert ProcOk(s, q);
    }
    RunInRange(states, steps, i, q);
    AheadMoves(s, q);
  }

  // ----- a run in which a pid comes round again -----

  lemma Then(states: seq<State>, steps: seq<Step>, step: Step, s': State) returns (states': seq<State>, steps': seq<Step>)
    requires Run(states, steps) && Next(states[|steps|], step, s')
    ensures Run(states', steps') && |steps'| == |steps| + 1 && states'[|steps'|] == s'
  {
    states', steps' := states + [s'], steps + [step];
    forall i | 0 <= i < |steps'| ensures StepAt(states', steps', i) {
      assert i < |steps| ==> StepAt(states, steps, i);
    }
  }

  /** Two processes: init, which is at pc, and one other. */
  function Two(w: Option<Id>, next: nat, reaped: seq<nat>, pc: Pc, other: Proc): State {
    State(Shared(0, w, next, reaped), [Proc(pc, Live, None, false, false, 1), other])
  }

  function Kid(pc: Pc, st: Status, locked: bool, pid: nat): Proc {
    Proc(pc, st, Some(0), false, locked, pid)
  }

  const FREE := Proc(Dead, Unused, None, false, false, 0)

  lemma ForkOne(states: seq<State>, steps: seq<Step>, k: nat, r: seq<nat>) returns (states': seq<State>, steps': seq<Step>)
    requires Run(states, steps) && states[|steps|] == Two(None, k, r, Out, FREE)
    ensures Run(states', steps')
    ensures states'[|steps'|] == Two(None, k + 1, r, Out, Kid(Out, Live, false, k))
  {
    states', steps' := Then(states, steps, ForkAlloc(0, 1),
                            Two(None, k + 1, r, ForkNew(1), Proc(Dead, Used, None, false, false, k)));
    states', steps' := Then(states', steps', ForkParent(0),
                            Two(None, k + 1, r, ForkParented(1), Proc(Dead, Used, Some(0), false, false, k)));
    states', steps' := Then(states', steps', ForkRun(0),
                            Two(None, k + 1, r, Out, Kid(Out, Live, false, k)));
  }

  /** The child exits: it has no children of its own to hand over ... */
  lemma ExitOne(states: seq<State>, steps: seq<Step>, n: nat, k: nat, r: seq<nat>)
    returns (states': seq<State>, steps': seq<Step>)
    requires Run(states, steps)
    requires states[|steps|] == Two(None, n, r, Out, Kid(Out, Live, false, k))
    ensures Run(states', steps')
    ensures states'[|steps'|] == Two(Some(1), n, r, Out, Kid(ExitWake(0), Live, false, k))
  {
    states', steps' := Then(states, steps, ExitStart(1), Two(None, n, r, Out, Kid(ExitWant, Live, false, k)));
    states', steps' := Then(states', steps', ExitAcquire(1), Two(Some(1), n, r, Out, Kid(ExitRep(0), Live, false, k)));
    states', steps' := Then(states', steps', Reparent(1), Two(Some(1), n, r, Out, Kid(ExitRep(1), Live, false, k)));
    states', steps' := Then(states', steps', Reparent(1), Two(Some(1), n, r, Out, Kid(ExitRep(2), Live, false, k)));
    states', steps' := Then(states', steps', RepEnd(1), Two(Some(1), n, r, Out, Kid(ExitWake(0), Live, false, k)));
  }

  /** It wakes its parent, slot by slot ... */
  lemma WakeOne(states: seq<State>, steps: seq<Step>, n: nat, k: nat, r: seq<nat>)
    returns (states': seq<State>, steps': seq<Step>)
    requires Run(states, steps)
    requires states[|steps|] == Two(Some(1), n, r, Out, Kid(ExitWake(0), Live, false, k))
    ensures Run(states', steps')
    ensures states'[|steps'|] == Two(Some(1), n, r, Out, Kid(ExitLock, Live, false, k))
  {
    states', steps' := Then(states, steps, WakeParent(1), Two(Some(1), n, r, Out, Kid(ExitWake(1), Live, false, k)));
    states', steps' := Then(states', steps', WakeParent(1), Two(Some(1), n, r, Out, Kid(ExitWake(2), Live, false, k)));
    states', steps' := Then(states', steps', WakeEnd(1), Two(Some(1), n, r, Out, Kid(ExitLock, Live, false, k)));
  }

  /** ... and goes, a zombie. */
  lemma DieOne(states: seq<State>, steps: seq<Step>, n: nat, k: nat, r: seq<nat>)
    returns (states': seq<State>, steps': seq<Step>)
    requires Run(states, steps)
    requires states[|steps|] == Two(Some(1), n, r, Out, Kid(ExitLock, Live, false, k))
    ensures Run(states', steps')
    ensures states'[|steps'|] == Two(None, n, r, Out, Kid(Dead, Zombie, false, k))
  {
    states', steps' := Then(states, steps, SetZombie(1), Two(Some(1), n, r, Out, Kid(ExitZombie, Zombie, true, k)));
    states', steps' := Then(states', steps', ExitDropWait(1), Two(None, n, r, Out, Kid(ExitOwn, Zombie, true, k)));
    states', steps' := Then(states', steps', ExitSched(1), Two(None, n, r, Out, Kid(Dead, Zombie, false, k)));
  }

  /** Its parent waits for it. */
  lemma WaitOne(states: seq<State>, steps: seq<Step>, n: nat, k: nat, r: seq<nat>)
    returns (states': seq<State>, steps': seq<Step>)
    requires Run(states, steps)
    requires states[|steps|] == Two(None, n, r, Out, Kid(Dead, Zombie, false, k))
    ensures Run(states', steps')
    ensures states'[|steps'|] == Two(None, n, r + [k], Out, FREE)
  {
    states', steps' := Then(states, steps, WaitStart(0), Two(None, n, r, WaitWant, Kid(Dead, Zombie, false, k)));
    states', steps' := Then(states', steps', WaitAcquire(0), Two(Some(0), n, r, WaitScan(0, false), Kid(Dead, Zombie, false, k)));
    states', steps' := Then(states', steps', WaitSkip(0), Two(Some(0), n, r, WaitScan(1, false), Kid(Dead, Zombie, false, k)));
    states', steps' := Then(states', steps', Reap(0), Two(None, n, r + [k], Out, FREE));
  }

  /** init forks, and waits for, one child after the other. */
  lemma {:induction false} Generations(c: nat) returns (states: seq<State>, steps: seq<Step>)
    ensures Run(states, steps)
    ensures states[|steps|] == Two(None, 2 + c, seq(c, i => 2 + i), Out, FREE)
  {
    if c == 0 {
      states, steps := [Two(None, 2, [], Out, FREE)], [];
    } else {
      states, steps := Generations(c - 1);
      var r: seq<nat> := seq(c - 1, i => 2 + i);
      states, steps := ForkOne(states, steps, 1 + c, r);
      states, steps := ExitOne(states, steps, 2 + c, 1 + c, r);
      states, steps := WakeOne(states, steps, 2 + c, 1 + c, r);
      states, steps := DieOne(states, steps, 2 + c, 1 + c, r);
      states, steps := WaitOne(states, steps, 2 + c, 1 + c, r);
      assert r + [1 + c] == seq(c, i => 2 + i);
    }
  }

  /** With more than 2^32 children one after the other, wait returns an int twice. */
  lemma PidsComeRound() returns (states: seq<State>, steps: seq<Step>)
    ensures Run(states, steps)
    ensures var r := states[|steps|].sh.reaped; |r| == UINT + 1 && AsInt(r[0]) == AsInt(r[UINT])
  {
    states, steps := Generations(UINT + 1);
  }
}
