/** Admission control of the write-ahead log: which file-system operations may
    start, which block numbers the in-memory header collects, and when the log
    is handed to the committer.  Every step below happens under the log's
    spinlock, so a run is any interleaving of whole steps. */
module LogAdmission {

  const MAXOPBLOCKS: nat := 10
  const LOGSIZE: nat := 30

  type Pid = nat

  /** `credit` is specification bookkeeping: for every operation between
      begin_op and end_op, how many fresh blocks it may still append. */
  datatype State = State(lh: seq<nat>, outstanding: nat, committing: bool, credit: map<Pid, nat>)

  const Idle := State([], 0, false, map[])

  predicate CanBegin(s: State) {
    !s.committing && |s.lh| + (s.outstanding + 1) * MAXOPBLOCKS <= LOGSIZE
  }

  /** The first panic test of log_write, made before it looks for the block in
      the header; `size` is log.size. */
  predicate TooBig(s: State, size: nat) {
    |s.lh| >= LOGSIZE || |s.lh| >= size - 1
  }

  function Begin(s: State, p: Pid): State {
    s.(outstanding := s.outstanding + 1, credit := s.credit[p := MAXOPBLOCKS])
  }

  /** Absorb a block that is already in the header, or append it.  Nothing in
      the code stops an operation that has used up its credit. */
  function Record(s: State, p: Pid, b: nat): State
    requires p in s.credit
  {
    if b in s.lh then s
    else s.(lh := s.lh + [b], credit := s.credit[p := if s.credit[p] > 0 then s.credit[p] - 1 else 0])
  }

  function End(s: State, p: Pid): State
    requires s.outstanding > 0
  {
    s.(outstanding := s.outstanding - 1,
       committing := s.outstanding == 1,
       credit := s.credit - {p})
  }

  /** commit() has emptied the header and end_op clears the flag. */
  function Finish(s: State): State {
    s.(lh := [], committing := false)
  }

  datatype Event = BeginOp(p: Pid) | LogWrite(p: Pid, b: nat) | EndOp(p: Pid) | CommitDone

  ghost predicate Next(size: nat, s: State, e: Event, t: State) {
    match e
    case BeginOp(p) => p !in s.credit && CanBegin(s) && t == Begin(s, p)
    case LogWrite(p, b) => p in s.credit && !TooBig(s, size) && t == Record(s, p, b)
    case EndOp(p) => p in s.credit && s.outstanding > 0 && !s.committing && t == End(s, p)
    case CommitDone => s.committing && t == Finish(s)
  }

  ghost predicate Run(size: nat, states: seq<State>, events: seq<Event>) {
    && |states| == |events| + 1
    && states[0] == Idle
    && forall i :: 0 <= i < |events| ==> StepAt(size, states, events, i)
  }

  ghost predicate StepAt(size: nat, states: seq<State>, events: seq<Event>, i: nat)
    requires |states| == |events| + 1 && i < |events|
  {
    Next(size, states[i], events[i], states[i + 1])
  }

  // ----- the invariant -----

  ghost function Credits(m: map<Pid, nat>): nat
    decreases |m|
  {
    if m == map[] then 0
    else
      var p :| p in m;
      assert |m - {p}| < |m| by { assert (m - {p}).Keys == m.Keys - {p}; }
      m[p] + Credits(m - {p})
  }

  ghost predicate Distinct(s: seq<nat>) {
    forall i, j :: 0 <= i < j < |s| ==> s[i] != s[j]
  }

  ghost predicate Inv(size: nat, s: State) {
    && s.outstanding == |s.credit|
    && (s.committing ==> s.outstanding == 0)
    && Distinct(s.lh)
    && |s.lh| <= LOGSIZE && (|s.lh| == 0 || |s.lh| <= size - 1)
    && forall p :: p in s.credit ==> s.credit[p] <= MAXOPBLOCKS
  }

  /** The header has room for everything the admitted operations may still append. */
  ghost predicate Within(s: State) {
    |s.lh| + Credits(s.credit) <= LOGSIZE
  }

  /** The operation that takes this step has credit for the block it appends. */
  ghost predicate Affordable(s: State, e: Event) {
    e.LogWrite? && e.p in s.credit && e.b !in s.lh ==> s.credit[e.p] > 0
  }

  /** No operation ever appends more than MAXOPBLOCKS blocks. */
  ghost predicate Thrifty(states: seq<State>, events: seq<Event>)
    requires |states| == |events| + 1
  {
    forall i :: 0 <= i < |events| ==> Affordable(states[i], events[i])
  }

  /** Credits does not depend on the key removed first. */
  lemma {:induction false} CreditsRemove(m: map<Pid, nat>, p: Pid)
    requires p in m
    ensures Credits(m) == m[p] + Credits(m - {p})
    decreases |m|
  {
    var q :| q in m && Credits(m) == m[q] + Credits(m - {q});
    if q != p {
      var mq := m - {q};
      assert mq.Keys == m.Keys - {q};
      CreditsRemove(mq, p);
      var mp := m - {p};
      assert mp.Keys == m.Keys - {p};
      CreditsRemove(mp, q);
      assert mq - {p} == mp - {q};
    }
  }

  lemma CreditsUpdate(m: map<Pid, nat>, p: Pid, v: nat)
    ensures Credits(m[p := v]) == v + Credits(m - {p})
  {
    CreditsRemove(m[p := v], p);
    assert m[p := v] - {p} == m - {p};
  }

  lemma {:induction false} CreditsBound(m: map<Pid, nat>)
    requires forall p :: p in m ==> m[p] <= MAXOPBLOCKS
    ensures Credits(m) <= |m| * MAXOPBLOCKS
    decreases |m|
  {
    if m != map[] {
      var p :| p in m;
      assert (m - {p}).Keys == m.Keys - {p};
      CreditsRemove(m, p);
      CreditsBound(m - {p});
    }
  }

  lemma CardAfterAdd(m: map<Pid, nat>, p: Pid, v: nat)
    ensures |m[p := v]| == if p in m then |m| else |m| + 1
    ensures |m - {p}| == if p in m then |m| - 1 else |m|
  {
    assert m[p := v].Keys == m.Keys + {p};
    assert (m - {p}).Keys == m.Keys - {p};
  }

  lemma InvStep(size: nat, s: State, e: Event, t: State)
    requires Inv(size, s) && Next(size, s, e, t)
    ensures Inv(size, t)
  {
    if !e.CommitDone? {
      CardAfterAdd(s.credit, e.p, 0);
      if e.LogWrite? {
        CardAfterAdd(s.credit, e.p, Record(s, e.p, e.b).credit[e.p]);
      } else if e.BeginOp? {
        CardAfterAdd(s.credit, e.p, MAXOPBLOCKS);
      }
    }
  }

  /** begin_op's test brings the room back even after an overdraft. */
  lemma WithinBegin(size: nat, s: State, p: Pid)
    requires Inv(size, s) && p !in s.credit && CanBegin(s)
    ensures Within(Begin(s, p))
  {
    CreditsUpdate(s.credit, p, MAXOPBLOCKS);
    assert s.credit - {p} == s.credit;
    CreditsBound(s.credit);
  }

  lemma WithinStep(size: nat, s: State, e: Event, t: State)
    requires Inv(size, s) && Within(s) && Next(size, s, e, t) && Affordable(s, e)
    ensures Within(t)
  {
    match e
    case BeginOp(p) => WithinBegin(size, s, p);
    case LogWrite(p, b) =>
      if b !in s.lh {
        CreditsUpdate(s.credit, p, s.credit[p] - 1);
        CreditsRemove(s.credit, p);
      }
    case EndOp(p) => CreditsRemove(s.credit, p);
    case CommitDone => assert |s.credit.Keys| == 0;
  }

  lemma IdleInv(size: nat)
    ensures Inv(size, Idle)
  {
    assert Idle.credit == map[];
  }

  /** Log admission: every interleaving, budgets kept or not, keeps "committing
      implies no operation in progress", distinct header entries and a header
      that fits the log. */
  lemma {:induction false} AdmissionInvariant(size: nat, states: seq<State>, events: seq<Event>, k: nat)
    requires Run(size, states, events) && k < |states|
    ensures Inv(size, states[k])
  {
    if k > 0 {
      AdmissionInvariant(size, states, events, k - 1);
      assert StepAt(size, states, events, k - 1);
      InvStep(size, states[k - 1], events[k - 1], states[k]);
    } else {
      IdleInv(size);
    }
  }

  /** While every operation keeps within its budget, the header has room for
      all that is left of the budgets. */
  lemma {:induction false} RoomForCredits(size: nat, states: seq<State>, events: seq<Event>, k: nat)
    requires Run(size, states, events) && Thrifty(states, events) && k < |states|
    ensures Within(states[k])
  {
    if k > 0 {
      RoomForCredits(size, states, events, k - 1);
      AdmissionInvariant(size, states, events, k - 1);
      assert Affordable(states[k - 1], events[k - 1]) && StepAt(size, states, events, k - 1);
      WithinStep(size, states[k - 1], events[k - 1], states[k]);
    } else {
      assert Idle.credit == map[];
    }
  }

  /** Neither end_op's "log.committing" panic nor log_write's "outside of trans"
      panic can be reached from inside an operation. */
  lemma OperationNeverMeetsCommit(size: nat, states: seq<State>, events: seq<Event>, k: nat, p: Pid)
    requires Run(size, states, events) && k < |states| && p in states[k].credit
    ensures !states[k].committing && states[k].outstanding >= 1
  {
    AdmissionInvariant(size, states, events, k);
    InProgress(size, states[k], p);
  }

  lemma InProgress(size: nat, s: State, p: Pid)
    requires Inv(size, s) && p in s.credit
    ensures s.outstanding >= 1 && !s.committing
  {
    assert p in s.credit.Keys;
    assert |s.credit| == |s.credit.Keys|;
  }

  // ----- exactly when log_write's size panic strikes -----

  /** How many blocks the header may hold before log_write refuses every call. */
  function Capacity(size: nat): nat {
    if size == 0 then 0 else if size - 1 < LOGSIZE then size - 1 else LOGSIZE
  }

  ghost function Blocks(calls: seq<nat>): set<nat> {
    set b | b in calls
  }

  lemma BlocksAppend(calls: seq<nat>, b: nat)
    ensures Blocks(calls + [b]) == Blocks(calls) + {b}
  {
  }

  lemma {:induction false} BlocksOfDistinct(s: seq<nat>)
    requires Distinct(s)
    ensures |Blocks(s)| == |s|
  {
    if s != [] {
      var front, last := s[..|s| - 1], s[|s| - 1];
      BlocksOfDistinct(front);
      assert s == front + [last];
      BlocksAppend(front, last);
    }
  }

  /** The distinct blocks logged since the last commit. */
  ghost function LoggedSince(events: seq<Event>): set<nat> {
    if events == [] then {}
    else
      var before := LoggedSince(events[..|events| - 1]);
      match events[|events| - 1]
      case LogWrite(_, b) => before + {b}
      case CommitDone => {}
      case _ => before
  }

  lemma {:induction false} HeaderIsLogged(size: nat, states: seq<State>, events: seq<Event>, k: nat)
    requires Run(size, states, events) && k < |states|
    ensures Blocks(states[k].lh) == LoggedSince(events[..k])
  {
    if k > 0 {
      HeaderIsLogged(size, states, events, k - 1);
      assert events[..k][..k - 1] == events[..k - 1];
      assert StepAt(size, states, events, k - 1);
    }
  }

  /** In every run, whoever calls and whatever block it passes, log_write panics
      exactly when the distinct blocks logged since the last commit fill the
      log; a block that is in the header already is no exception. */
  lemma PanicIffHeaderFull(size: nat, states: seq<State>, events: seq<Event>, k: nat)
    requires Run(size, states, events) && k < |states|
    ensures TooBig(states[k], size) <==> |LoggedSince(events[..k])| == Capacity(size)
  {
    AdmissionInvariant(size, states, events, k);
    HeaderIsLogged(size, states, events, k);
    BlocksOfDistinct(states[k].lh);
  }

  // ----- the calls of one operation that nobody interrupts -----

  /** None of the calls, made one after the other, panics. */
  ghost predicate CallsPass(size: nat, s: State, p: Pid, calls: seq<nat>)
    requires p in s.credit
    decreases |calls|
  {
    calls == [] || (!TooBig(s, size) && CallsPass(size, Record(s, p, calls[0]), p, calls[1..]))
  }

  /** No call is made once the header is full: all but the last one together
      leave room for one more block. */
  ghost predicate LeavesRoom(size: nat, s: State, calls: seq<nat>) {
    calls == [] || |Blocks(s.lh + calls[..|calls| - 1])| < Capacity(size)
  }

  lemma {:induction false} CallsPassIff(size: nat, s: State, p: Pid, calls: seq<nat>)
    requires p in s.credit && Distinct(s.lh)
    ensures CallsPass(size, s, p, calls) <==> LeavesRoom(size, s, calls)
    decreases |calls|
  {
    if calls != [] {
      var t, front, rest := Record(s, p, calls[0]), calls[..|calls| - 1], calls[1..];
      BlocksOfDistinct(s.lh);
      if rest == [] {
        assert s.lh + front == s.lh;
      } else {
        CallsPassIff(size, t, p, rest);
        assert front == [calls[0]] + rest[..|rest| - 1];
        assert Blocks(s.lh + front) == Blocks(t.lh + rest[..|rest| - 1]);
        MoreBlocks(Blocks(s.lh), Blocks(s.lh + front));
      }
    }
  }

  lemma {:induction false} MoreBlocks(a: set<nat>, b: set<nat>)
    requires a <= b
    ensures |a| <= |b|
    decreases b
  {
    if b != {} {
      var x :| x in b;
      MoreBlocks(a - {x}, b - {x});
    }
  }

  // ----- a full log -----

  /** How many of the first k blocks fall to operation p when three operations
      append ten blocks each in turn. */
  function Spent(k: nat, p: nat): nat {
    if k <= 10 * p then 0 else if k >= 10 * p + 10 then 10 else k - 10 * p
  }

  function Filled(base: nat, k: nat): State {
    State(seq(k, i => base + i), 3, false,
          map[0 := 10 - Spent(k, 0), 1 := 10 - Spent(k, 1), 2 := 10 - Spent(k, 2)])
  }

  lemma FillStep(base: nat, k: nat)
    requires 0 < k <= 30
    ensures var s, p := Filled(base, k - 1), (k - 1) / 10;
            p in s.credit && s.credit[p] > 0 && Record(s, p, base + k - 1) == Filled(base, k)
  {
    var s, p := Filled(base, k - 1), (k - 1) / 10;
    var t := Record(s, p, base + k - 1);
    assert t.lh == Filled(base, k).lh;
    assert t.credit == Filled(base, k).credit;
  }

  lemma Extend(size: nat, states0: seq<State>, events0: seq<Event>, e: Event, t: State)
    returns (states: seq<State>, events: seq<Event>)
    requires Run(size, states0, events0) && Thrifty(states0, events0)
    requires Next(size, states0[|events0|], e, t) && Affordable(states0[|events0|], e)
    ensures states == states0 + [t] && events == events0 + [e]
    ensures Run(size, states, events) && Thrifty(states, events)
  {
    states, events := states0 + [t], events0 + [e];
    forall i | 0 <= i < |events| ensures StepAt(size, states, events, i) {
      assert i < |events0| ==> StepAt(size, states0, events0, i);
    }
  }

  /** Three operations begin and append the blocks from `base` on, k of them. */
  lemma {:induction false} FillRun(size: nat, base: nat, k: nat) returns (states: seq<State>, events: seq<Event>)
    requires k <= Capacity(size)
    ensures Run(size, states, events) && Thrifty(states, events)
    ensures |events| == 3 + k && events[2] == BeginOp(2) && states[|events|] == Filled(base, k)
    ensures forall i :: 3 <= i < |events| ==> events[i] == LogWrite((i - 3) / 10, base + i - 3)
  {
    if k == 0 {
      var s1 := Begin(Idle, 0);
      var s2 := Begin(s1, 1);
      var s3 := Begin(s2, 2);
      assert s3 == Filled(base, 0);
      states, events := [Idle, s1, s2, s3], [BeginOp(0), BeginOp(1), BeginOp(2)];
    } else {
      var states0, events0 := FillRun(size, base, k - 1);
      FillStep(base, k);
      states, events := Extend(size, states0, events0, LogWrite((k - 1) / 10, base + k - 1), Filled(base, k));
    }
  }

  /** However large the log, an operation that has logged exactly MAXOPBLOCKS
      distinct blocks can find the header full: its next log_write panics even
      for a block it has logged before. */
  lemma FullHeaderPanics(size: nat) returns (states: seq<State>, events: seq<Event>)
    requires size > LOGSIZE
    ensures Run(size, states, events) && Thrifty(states, events) && |events| == 33
    ensures events[28] == LogWrite(2, 25)
    ensures var s := states[33]; 2 in s.credit && s.credit[2] == 0 && 25 in s.lh && TooBig(s, size)
  {
    states, events := FillRun(size, 0, 30);
    assert Filled(0, 30).lh[25] == 25;
  }

  /** Process p can have c credits left at state k. */
  ghost predicate Credited(size: nat, states: seq<State>, events: seq<Event>, k: nat, p: Pid, c: nat) {
    && Run(size, states, events) && Thrifty(states, events)
    && k < |states| && p in states[k].credit && states[k].credit[p] >= c
  }

  lemma CreditProtects(size: nat, states: seq<State>, events: seq<Event>, k: nat, p: Pid, c: nat)
    requires Credited(size, states, events, k, p, c) && c + Capacity(size) > LOGSIZE
    ensures !TooBig(states[k], size)
  {
    RoomForCredits(size, states, events, k);
    CreditsRemove(states[k].credit, p);
  }

  /** c credits left protect an operation from the size panic, in every run in
      which all keep within their budgets, exactly when c exceeds what LOGSIZE
      is above the capacity.  With log.size above LOGSIZE one credit is enough
      and none is not; mkfs makes log.size equal to LOGSIZE, where two are needed. */
  lemma CreditProtectsIff(size: nat, c: nat)
    requires c <= MAXOPBLOCKS
    ensures c + Capacity(size) > LOGSIZE <==>
            (forall states, events, k, p :: Credited(size, states, events, k, p, c) ==> !TooBig(states[k], size))
  {
    if c + Capacity(size) > LOGSIZE {
      forall states, events, k, p | Credited(size, states, events, k, p, c) ensures !TooBig(states[k], size)
      {
        CreditProtects(size, states, events, k, p, c);
      }
    } else {
      var k := Capacity(size);
      var states, events := FillRun(size, 0, k);
      assert Credited(size, states, events, |events|, 2, c);
      assert TooBig(states[|events|], size);
    }
  }

  // ----- which operations are safe in every interleaving -----

  /** The blocks process p passes to log_write. */
  ghost function CallsOf(events: seq<Event>, p: Pid): seq<nat> {
    if events == [] then []
    else
      var before, e := CallsOf(events[..|events| - 1], p), events[|events| - 1];
      if e.LogWrite? && e.p == p then before + [e.b] else before
  }

  /** p's operation began with event j and is not over at state k. */
  ghost predicate InOperation(states: seq<State>, events: seq<Event>, p: Pid, j: nat, k: nat) {
    && j < k < |states| == |events| + 1 && events[j] == BeginOp(p)
    && forall i :: j < i < k ==> events[i] != EndOp(p)
  }

  /** An operation that is to make these calls has yet to make some of them. */
  ghost predicate UnderWay(size: nat, states: seq<State>, events: seq<Event>, p: Pid, j: nat, k: nat, calls: seq<nat>) {
    && Run(size, states, events) && Thrifty(states, events)
    && InOperation(states, events, p, j, k) && CallsOf(events[j + 1..k], p) < calls
  }

  /** An operation that makes these calls never meets the size panic, whatever
      other operations within their budgets do meanwhile. */
  ghost predicate OperationSafe(size: nat, calls: seq<nat>) {
    forall states, events, p, j, k :: UnderWay(size, states, events, p, j, k, calls) ==> !TooBig(states[k], size)
  }

  /** All calls but the last leave a block of the budget, and of what the
      log's capacity falls short of LOGSIZE. */
  ghost predicate Budgeted(size: nat, calls: seq<nat>) {
    calls == [] || |Blocks(calls[..|calls| - 1])| + 2 * MAXOPBLOCKS < Capacity(size)
  }

  /** p has spent no more credit than the calls have distinct blocks. */
  ghost predicate CreditFor(s: State, p: Pid, calls: seq<nat>) {
    && p in s.credit && s.credit[p] + |Blocks(calls)| >= MAXOPBLOCKS
    && forall b :: b in calls ==> b in s.lh
  }

  lemma {:induction false} CreditLeft(size: nat, states: seq<State>, events: seq<Event>, p: Pid, j: nat, k: nat)
    requires Run(size, states, events) && InOperation(states, events, p, j, k)
    ensures CreditFor(states[k], p, CallsOf(events[j + 1..k], p))
    decreases k
  {
    assert StepAt(size, states, events, k - 1);
    if k == j + 1 {
      assert events[j + 1..k] == [];
      assert CreditFor(states[k], p, []);
    } else {
      CreditLeft(size, states, events, p, j, k - 1);
      AdmissionInvariant(size, states, events, k - 1);
      assert events[j + 1..k][..k - j - 2] == events[j + 1..k - 1];
      CreditLeftStep(size, states[k - 1], events[k - 1], states[k], p, CallsOf(events[j + 1..k - 1], p));
    }
  }

  lemma CreditLeftStep(size: nat, s: State, e: Event, t: State, p: Pid, calls: seq<nat>)
    requires Inv(size, s) && Next(size, s, e, t) && CreditFor(s, p, calls) && e != EndOp(p)
    ensures CreditFor(t, p, if e.LogWrite? && e.p == p then calls + [e.b] else calls)
  {
    InProgress(size, s, p);
    if e.LogWrite? && e.p == p {
      BlocksAppend(calls, e.b);
      if e.b !in s.lh {
        assert e.b !in Blocks(calls);
      } else {
        MoreBlocks(Blocks(calls), Blocks(calls + [e.b]));
      }
    }
  }

  lemma BudgetedIsSafe(size: nat, calls: seq<nat>)
    requires Budgeted(size, calls)
    ensures OperationSafe(size, calls)
  {
    forall states, events, p, j, k | UnderWay(size, states, events, p, j, k, calls) ensures !TooBig(states[k], size)
    {
      var made := CallsOf(events[j + 1..k], p);
      CreditLeft(size, states, events, p, j, k);
      MoreBlocks(Blocks(made), Blocks(calls[..|calls| - 1]));
      CreditProtects(size, states, events, k, p, MAXOPBLOCKS - |Blocks(made)|);
    }
  }

  ghost predicate CrowdedState(s: State, made: seq<nat>, base: nat) {
    && 2 in s.credit && |s.lh| == 20 + |Blocks(made)| && s.credit[2] + |Blocks(made)| == MAXOPBLOCKS
    && forall b :: b in s.lh <==> b in made || base <= b < base + 20
  }

  /** Two operations have appended twenty blocks above all of the calls' and
      the third makes its calls, up to number i or until the header is full. */
  ghost predicate Crowded(states: seq<State>, events: seq<Event>, size: nat, calls: seq<nat>, base: nat, i: nat)
    requires i <= |calls|
  {
    && Run(size, states, events) && Thrifty(states, events)
    && |events| >= 3 && events[2] == BeginOp(2) && (forall k :: 3 <= k < |events| ==> events[k].LogWrite?)
    && CallsOf(events[3..], 2) <= calls[..i]
    && (TooBig(states[|events|], size) ||
        (CallsOf(events[3..], 2) == calls[..i] && CrowdedState(states[|events|], calls[..i], base)))
  }

  lemma {:induction false} CrowdedRun(size: nat, calls: seq<nat>, base: nat, i: nat)
    returns (states: seq<State>, events: seq<Event>)
    requires i <= |calls| && forall b :: b in calls ==> b < base
    ensures Crowded(states, events, size, calls, base, i)
  {
    if i == 0 {
      var k := if Capacity(size) < 20 then Capacity(size) else 20;
      states, events := FillRun(size, base, k);
      NoCallsOf(events[3..], 2);
      FilledHas(base, k);
    } else {
      states, events := CrowdedRun(size, calls, base, i - 1);
      var s := states[|events|];
      if !TooBig(s, size) {
        states, events := CrowdedStep(size, calls, base, i, states, events);
      }
    }
  }

  lemma FilledHas(base: nat, k: nat)
    ensures forall b :: b in Filled(base, k).lh <==> base <= b < base + k
  {
    forall b | base <= b < base + k ensures b in Filled(base, k).lh {
      assert Filled(base, k).lh[b - base] == b;
    }
  }

  lemma {:induction false} NoCallsOf(events: seq<Event>, p: Pid)
    requires forall k :: 0 <= k < |events| ==> !(events[k].LogWrite? && events[k].p == p)
    ensures CallsOf(events, p) == []
  {
    if events != [] {
      NoCallsOf(events[..|events| - 1], p);
    }
  }

  lemma CrowdedStep(size: nat, calls: seq<nat>, base: nat, i: nat, states0: seq<State>, events0: seq<Event>)
    returns (states: seq<State>, events: seq<Event>)
    requires 0 < i <= |calls| && forall b :: b in calls ==> b < base
    requires Crowded(states0, events0, size, calls, base, i - 1) && !TooBig(states0[|events0|], size)
    ensures Crowded(states, events, size, calls, base, i)
  {
    var s, b := states0[|events0|], calls[i - 1];
    assert b in calls;
    CrowdedRecord(s, size, calls[..i - 1], base, b);
    states, events := Extend(size, states0, events0, LogWrite(2, b), Record(s, 2, b));
    assert calls[..i] == calls[..i - 1] + [b];
    assert events[3..][..|events| - 4] == events0[3..];
  }

  lemma CrowdedRecord(s: State, size: nat, made: seq<nat>, base: nat, b: nat)
    requires CrowdedState(s, made, base) && !TooBig(s, size) && b < base
    ensures b !in s.lh ==> s.credit[2] > 0
    ensures CrowdedState(Record(s, 2, b), made + [b], base)
  {
    BlocksAppend(made, b);
    assert b in s.lh <==> b in Blocks(made);
    if b in s.lh {
      assert Blocks(made + [b]) == Blocks(made);
    }
  }

  ghost function Above(calls: seq<nat>): (base: nat)
    ensures forall b :: b in calls ==> b < base
  {
    if calls == [] then 0
    else
      var base := Above(calls[1..]);
      assert calls == [calls[0]] + calls[1..];
      if calls[0] < base then base else calls[0] + 1
  }

  /** Which operations are safe: exactly those whose calls before the last one
      touch fewer distinct blocks than the capacity leaves beside two other
      operations with full budgets.  With log.size above LOGSIZE that is at
      most nine; with the log mkfs makes, at most eight. */
  lemma OperationSafeIff(size: nat, calls: seq<nat>)
    ensures OperationSafe(size, calls) <==> Budgeted(size, calls)
  {
    if Budgeted(size, calls) {
      BudgetedIsSafe(size, calls);
    } else {
      var n := |calls| - 1;
      var states, events := CrowdedRun(size, calls, Above(calls), n);
      var k := |events|;
      assert events[3..k] == events[3..];
      assert UnderWay(size, states, events, 2, 2, k, calls);
      assert TooBig(states[k], size);
    }
  }
}
