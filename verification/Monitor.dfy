/** sleep and wakeup around a lock: any shared state of type T under a spinlock
    lk, and one channel on which processes sleep while `blocked` holds of it.
    The discipline is the one kernel code follows: look at the state with lk
    held, sleep(chan, &lk) while blocked, look again; and whoever ends the
    blocking calls wakeup(chan) before it releases lk. */
module Monitor {
  import opened Wrappers

  type Pid = nat

  datatype Pc =
    | Out            // not using the state
    | Spin           // waiting for lk
    | In             // holds lk
    | SleepIn        // sleep: holds lk, wants p->lock
    | SleepBoth      // holds lk and p->lock
    | SleepOwn       // has released lk, holds p->lock
    | SleepSet       // has set SLEEPING, holds p->lock
    | Asleep         // off the processor
    | Woken          // back from sched, holds p->lock
    | Scan(k: nat)   // wakeup's loop, holding lk

  datatype Proc = Proc(pc: Pc, sleeping: bool, plock: bool)

  datatype State<T> = State(sh: T, lk: Option<Pid>, procs: seq<Proc>)

  /** Change and Settle are what a process does to the state with lk held, the
      second with a wakeup after it; Outside is a change that does not need lk. */
  datatype Step<T> =
    | Want(p: Pid) | Acquire(p: Pid) | Wait(p: Pid) | Change(p: Pid, sh: T) | Settle(p: Pid, sh: T) | Leave(p: Pid)
    | LockSelf(p: Pid) | Drop(p: Pid) | SetSleeping(p: Pid) | Sched(p: Pid) | Resume(p: Pid) | Tidy(p: Pid)
    | WakeOne(p: Pid) | ScanEnd(p: Pid) | Kill(p: Pid, q: Pid) | Outside(p: Pid, sh: T)

  /** The process that takes the step, the lock and the state. */
  ghost predicate Act<T(!new)>(blocked: T -> bool, p: Pid, n: nat, sh: T, lk: Option<Pid>, me: Proc, step: Step<T>,
                               sh': T, lk': Option<Pid>, me': Proc)
  {
    match step
    case Want(_) => me.pc.Out? && me' == me.(pc := Spin) && lk' == lk && sh' == sh
    case Acquire(_) => me.pc.Spin? && lk.None? && me' == me.(pc := In) && lk' == Some(p) && sh' == sh
    case Wait(_) => me.pc.In? && blocked(sh) && me' == me.(pc := SleepIn) && lk' == lk && sh' == sh
    case Change(_, t) => me.pc.In? && me' == me && lk' == lk && sh' == t
    case Settle(_, t) => me.pc.In? && me' == me.(pc := Scan(0)) && lk' == lk && sh' == t
    case Leave(_) => me.pc.In? && me' == me.(pc := Out) && lk' == None && sh' == sh
    case LockSelf(_) => me.pc.SleepIn? && !me.plock && me' == me.(pc := SleepBoth, plock := true) && lk' == lk && sh' == sh
    case Drop(_) => me.pc.SleepBoth? && me' == me.(pc := SleepOwn) && lk' == None && sh' == sh
    case SetSleeping(_) => me.pc.SleepOwn? && me' == me.(pc := SleepSet, sleeping := true) && lk' == lk && sh' == sh
    case Sched(_) => me.pc.SleepSet? && me' == me.(pc := Asleep, plock := false) && lk' == lk && sh' == sh
    case Resume(_) =>
      me.pc.Asleep? && !me.sleeping && !me.plock && me' == me.(pc := Woken, plock := true) && lk' == lk && sh' == sh
    case Tidy(_) => me.pc.Woken? && me' == me.(pc := Spin, plock := false) && lk' == lk && sh' == sh
    case WakeOne(_) => me.pc.Scan? && me.pc.k < n && me' == me.(pc := Scan(me.pc.k + 1)) && lk' == lk && sh' == sh
    case ScanEnd(_) => me.pc.Scan? && me.pc.k == n && me' == me.(pc := In) && lk' == lk && sh' == sh
    case Kill(_, _) => me.pc.Out? && me' == me && lk' == lk && sh' == sh
    case Outside(_, t) => me' == me && lk' == lk && sh' == t
  }

  /** The process whose p->lock the step takes to look whether it sleeps. */
  function Target<T>(p: Pid, me: Proc, step: Step<T>): Option<Pid> {
    if step.WakeOne? && me.pc.Scan? && me.pc.k != p then Some(me.pc.k)
    else if step.Kill? && step.q != p then Some(step.q)
    else None
  }

  function Wake(procs: seq<Proc>, target: Option<Pid>): (r: seq<Proc>)
    ensures |r| == |procs|
  {
    if target.Some? && target.value < |procs| then
      procs[target.value := procs[target.value].(sleeping := false)]
    else procs
  }

  ghost predicate Next<T(!new)>(blocked: T -> bool, s: State<T>, step: Step<T>, s': State<T>) {
    var p := step.p;
    && p < |s.procs| == |s'.procs|
    && Act(blocked, p, |s.procs|, s.sh, s.lk, s.procs[p], step, s'.sh, s'.lk, s'.procs[p])
    && var target := Target(p, s.procs[p], step);
       && (target.Some? ==> target.value < |s.procs| && !s.procs[target.value].plock)
       && s'.procs == Wake(s.procs, target)[p := s'.procs[p]]
  }

  /** The discipline: without a wakeup the blocking does not end. */
  ghost predicate Disciplined<T(!new)>(blocked: T -> bool, s: State<T>, step: Step<T>, s': State<T>) {
    (step.Change? || step.Outside?) && blocked(s.sh) ==> blocked(s'.sh)
  }

  ghost predicate Init<T>(s: State<T>) {
    s.lk.None? && forall p :: 0 <= p < |s.procs| ==> s.procs[p] == Proc(Out, false, false)
  }

  // ----- the invariant -----

  predicate HoldsLock(pc: Pc) { pc.In? || pc.SleepIn? || pc.SleepBoth? || pc.Scan? }

  predicate HoldsSelf(pc: Pc) { pc.SleepBoth? || pc.SleepOwn? || pc.SleepSet? || pc.Woken? }

  /** Has decided to sleep, or sleeps: it will not look at the state again by itself. */
  predicate Committed(proc: Proc) {
    proc.pc.SleepIn? || proc.pc.SleepBoth? || proc.pc.SleepOwn? || proc.pc.SleepSet? || (proc.pc.Asleep? && proc.sleeping)
  }

  ghost predicate LocalOk(proc: Proc, holder: bool) {
    && (HoldsLock(proc.pc) <==> holder) && (HoldsSelf(proc.pc) <==> proc.plock)
    && (proc.sleeping ==> proc.pc.SleepSet? || proc.pc.Asleep?)
  }

  ghost predicate ProcOk<T>(s: State<T>, p: Pid)
    requires p < |s.procs|
  {
    LocalOk(s.procs[p], s.lk == Some(p))
  }

  /** A wakeup scan has yet to come to p. */
  predicate WakeupPending<T>(s: State<T>, p: Pid) {
    && s.lk.Some? && s.lk.value < |s.procs| && s.lk.value != p
    && s.procs[s.lk.value].pc.Scan? && s.procs[s.lk.value].pc.k <= p
  }

  ghost predicate Expected<T(!new)>(blocked: T -> bool, s: State<T>, p: Pid)
    requires p < |s.procs|
  {
    Committed(s.procs[p]) ==> blocked(s.sh) || WakeupPending(s, p)
  }

  ghost predicate Inv<T(!new)>(blocked: T -> bool, s: State<T>) {
    && (s.lk.Some? ==> s.lk.value < |s.procs|)
    && forall p :: 0 <= p < |s.procs| ==> ProcOk(s, p) && Expected(blocked, s, p)
  }

  lemma ActorOk<T(!new)>(blocked: T -> bool, p: Pid, n: nat, sh: T, lk: Option<Pid>, me: Proc, step: Step<T>,
                         sh': T, lk': Option<Pid>, me': Proc)
    requires Act(blocked, p, n, sh, lk, me, step, sh', lk', me') && LocalOk(me, lk == Some(p))
    ensures LocalOk(me', lk' == Some(p))
  {
  }

  /** What the others need to know of a step: lk changes hands between nobody
      and p, p decides to sleep only on finding the state blocked, the blocking
      ends only on the way into a scan, and a scan goes on to its end. */
  ghost predicate Effect(p: Pid, n: nat, was: bool, lk: Option<Pid>, me: Proc, woken: Option<Pid>,
                         now: bool, lk': Option<Pid>, me': Proc)
  {
    && (lk' == lk || (lk == None && lk' == Some(p)) || (lk == Some(p) && lk' == None))
    && (Committed(me') ==> Committed(me) || now)
    && (was ==> now || (lk' == Some(p) && me'.pc == Scan(0) && !Committed(me')))
    && (lk == Some(p) && me.pc.Scan? ==>
          && lk' == Some(p)
          && (me' == me || (me'.pc == Scan(me.pc.k + 1) && (me.pc.k == p || woken == Some(me.pc.k))) || me.pc.k == n))
  }

  lemma ActEffect<T(!new)>(blocked: T -> bool, p: Pid, n: nat, sh: T, lk: Option<Pid>, me: Proc, step: Step<T>,
                           sh': T, lk': Option<Pid>, me': Proc)
    requires Act(blocked, p, n, sh, lk, me, step, sh', lk', me') && LocalOk(me, lk == Some(p))
    requires (step.Change? || step.Outside?) && blocked(sh) ==> blocked(sh')
    ensures Effect(p, n, blocked(sh), lk, me, Target(p, me, step), blocked(sh'), lk', me')
  {
  }

  lemma BystanderOk<T(!new)>(blocked: T -> bool, s: State<T>, p: Pid, woken: Option<Pid>, s': State<T>, q: Pid)
    requires p < |s.procs| == |s'.procs| && q < |s.procs| && q != p
    requires Effect(p, |s.procs|, blocked(s.sh), s.lk, s.procs[p], woken, blocked(s'.sh), s'.lk, s'.procs[p])
    requires woken.Some? ==> woken.value < |s.procs| && !s.procs[woken.value].plock
    requires s'.procs == Wake(s.procs, woken)[p := s'.procs[p]]
    requires ProcOk(s, p) && ProcOk(s, q) && Expected(blocked, s, q)
    ensures ProcOk(s', q) && Expected(blocked, s', q)
  {
  }

  lemma StepInv<T(!new)>(blocked: T -> bool, s: State<T>, step: Step<T>, s': State<T>)
    requires Inv(blocked, s) && Next(blocked, s, step, s') && Disciplined(blocked, s, step, s')
    ensures Inv(blocked, s')
  {
    var p, woken := step.p, Target(step.p, s.procs[step.p], step);
    assert ProcOk(s, p) && Expected(blocked, s, p);
    ActorOk(blocked, p, |s.procs|, s.sh, s.lk, s.procs[p], step, s'.sh, s'.lk, s'.procs[p]);
    ActEffect(blocked, p, |s.procs|, s.sh, s.lk, s.procs[p], step, s'.sh, s'.lk, s'.procs[p]);
    forall q | 0 <= q < |s'.procs| ensures ProcOk(s', q) && Expected(blocked, s', q) {
      if q != p {
        assert ProcOk(s, q) && Expected(blocked, s, q);
        BystanderOk(blocked, s, p, woken, s', q);
      }
    }
  }

  // ----- whole runs -----

  ghost predicate Run<T(!new)>(blocked: T -> bool, states: seq<State<T>>, steps: seq<Step<T>>) {
    && |states| == |steps| + 1 && Init(states[0])
    && forall i :: 0 <= i < |steps| ==> StepAt(blocked, states, steps, i)
  }

  ghost predicate StepAt<T(!new)>(blocked: T -> bool, states: seq<State<T>>, steps: seq<Step<T>>, i: nat)
    requires |states| == |steps| + 1 && i < |steps|
  {
    Next(blocked, states[i], steps[i], states[i + 1]) && Disciplined(blocked, states[i], steps[i], states[i + 1])
  }

  lemma InitInv<T(!new)>(blocked: T -> bool, s: State<T>)
    requires Init(s)
    ensures Inv(blocked, s)
  {
  }

  lemma {:induction false} RunInv<T(!new)>(blocked: T -> bool, states: seq<State<T>>, steps: seq<Step<T>>, i: nat)
    requires Run(blocked, states, steps) && i < |states|
    ensures Inv(blocked, states[i])
  {
    if i == 0 {
      InitInv(blocked, states[0]);
    } else {
      RunInv(blocked, states, steps, i - 1);
      assert StepAt(blocked, states, steps, i - 1);
      StepInv(blocked, states[i - 1], steps[i - 1], states[i]);
    }
  }

  lemma ReasonToSleep<T(!new)>(blocked: T -> bool, s: State<T>, p: Pid)
    requires Inv(blocked, s) && p < |s.procs| && (s.procs[p].sleeping || Committed(s.procs[p]))
    ensures blocked(s.sh) || WakeupPending(s, p)
  {
    assert ProcOk(s, p) && Expected(blocked, s, p);
  }

  /** No lost wakeup, for every state and condition: a process asleep on the
      channel, or on its way to sleep, still has a reason to, or somebody is
      inside a wakeup scan that has yet to come to it. */
  lemma SleeperHasReason<T(!new)>(blocked: T -> bool, states: seq<State<T>>, steps: seq<Step<T>>, i: nat, p: Pid)
    requires Run(blocked, states, steps) && i < |states| && p < |states[i].procs|
    requires states[i].procs[p].sleeping || Committed(states[i].procs[p])
    ensures blocked(states[i].sh) || WakeupPending(states[i], p)
  {
    RunInv(blocked, states, steps, i);
    ReasonToSleep(blocked, states[i], p);
  }
}
