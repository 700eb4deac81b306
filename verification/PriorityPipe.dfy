/** Priority order in the real-time pipe: the two ways of inserting a task, and
    the pipe as a machine over writes, reads and closes. */
module PriorityModel {
  /** A task is its priority and whatever else it carries. */
  datatype Task = Task(priority: int, rest: int)

  ghost predicate Sorted(q: seq<Task>) {
    forall i, j :: 0 <= i < j < |q| ==> q[i].priority >= q[j].priority
  }

  /** The first index from i on whose task has priority at most p. */
  function FirstAtMost(q: seq<Task>, p: int, i: nat): (k: nat)
    requires i <= |q|
    ensures i <= k <= |q| && (forall j :: i <= j < k ==> q[j].priority > p) && (k < |q| ==> q[k].priority <= p)
    decreases |q| - i
  {
    if i < |q| && q[i].priority > p then FirstAtMost(q, p, i + 1) else i
  }

  /** The first index from i on whose task has priority below p. */
  function FirstBelow(q: seq<Task>, p: int, i: nat): (k: nat)
    requires i <= |q|
    ensures i <= k <= |q| && (forall j :: i <= j < k ==> q[j].priority >= p) && (k < |q| ==> q[k].priority < p)
    decreases |q| - i
  {
    if i < |q| && q[i].priority >= p then FirstBelow(q, p, i + 1) else i
  }

  function InsertAt(q: seq<Task>, k: nat, t: Task): seq<Task>
    requires k <= |q|
  {
    q[..k] + [t] + q[k..]
  }

  /** pq_insert: in front when strictly more urgent than the head, else after
      the head and before the next task that is not strictly more urgent. */
  function PqInsert(q: seq<Task>, t: Task): seq<Task> {
    if q == [] || t.priority > q[0].priority then InsertAt(q, 0, t)
    else InsertAt(q, FirstAtMost(q, t.priority, 1), t)
  }

  /** pqueue_push: the same, but behind tasks of the same priority. */
  function PqPush(q: seq<Task>, t: Task): seq<Task> {
    if q == [] || t.priority > q[0].priority then InsertAt(q, 0, t)
    else InsertAt(q, FirstBelow(q, t.priority, 1), t)
  }

  /** First come, first served within a priority: behind every task at least as urgent. */
  ghost function StableInsert(q: seq<Task>, t: Task): seq<Task> {
    if q == [] then [t]
    else if q[0].priority >= t.priority then [q[0]] + StableInsert(q[1..], t)
    else [t] + q
  }

  lemma InsertAtContents(q: seq<Task>, k: nat, t: Task)
    requires k <= |q|
    ensures multiset(InsertAt(q, k, t)) == multiset(q) + multiset{t}
  {
    assert q == q[..k] + q[k..];
  }

  lemma InsertAtSorted(q: seq<Task>, k: nat, t: Task)
    requires Sorted(q) && k <= |q|
    requires (forall j :: 0 <= j < k ==> q[j].priority >= t.priority) && (k < |q| ==> q[k].priority <= t.priority)
    ensures Sorted(InsertAt(q, k, t))
  {
  }

  /** Both insertions keep the list sorted and add exactly the new one. */
  lemma InsertKeeps(q: seq<Task>, t: Task)
    requires Sorted(q)
    ensures Sorted(PqInsert(q, t)) && multiset(PqInsert(q, t)) == multiset(q) + multiset{t}
    ensures Sorted(PqPush(q, t)) && multiset(PqPush(q, t)) == multiset(q) + multiset{t}
  {
    if q == [] || t.priority > q[0].priority {
      InsertAtSorted(q, 0, t);
      InsertAtContents(q, 0, t);
    } else {
      InsertAtSorted(q, FirstAtMost(q, t.priority, 1), t);
      InsertAtContents(q, FirstAtMost(q, t.priority, 1), t);
      InsertAtSorted(q, FirstBelow(q, t.priority, 1), t);
      InsertAtContents(q, FirstBelow(q, t.priority, 1), t);
    }
  }

  lemma {:induction false} StableIs(q: seq<Task>, t: Task)
    ensures StableInsert(q, t) == InsertAt(q, FirstBelow(q, t.priority, 0), t)
  {
    if q != [] && q[0].priority >= t.priority {
      StableIs(q[1..], t);
      ShiftFirstBelow(q, t.priority, 0);
      InsertAfterFirst(q, FirstBelow(q[1..], t.priority, 0), t);
    }
  }

  lemma InsertAfterFirst(q: seq<Task>, k: nat, t: Task)
    requires k < |q|
    ensures InsertAt(q, k + 1, t) == [q[0]] + InsertAt(q[1..], k, t)
  {
    assert q[..k + 1] == [q[0]] + q[1..][..k];
    assert q[k + 1..] == q[1..][k..];
  }

  lemma {:induction false} ShiftFirstBelow(q: seq<Task>, p: int, i: nat)
    requires i + 1 <= |q|
    ensures FirstBelow(q, p, i + 1) == FirstBelow(q[1..], p, i) + 1
    decreases |q| - i
  {
    if i + 1 < |q| && q[i + 1].priority >= p {
      ShiftFirstBelow(q, p, i + 1);
    }
  }

  /** pqueue_push is first come, first served. */
  lemma PushIsStable(q: seq<Task>, t: Task)
    ensures PqPush(q, t) == StableInsert(q, t)
  {
    StableIs(q, t);
  }

  lemma {:induction false} Commutes(m: seq<Task>, t: Task)
    ensures [t] + m == m + [t] <==> forall i :: 0 <= i < |m| ==> m[i] == t
  {
    if m != [] {
      Commutes(m[1..], t);
      if [t] + m == m + [t] {
        assert m[0] == ([t] + m)[0] == t;
        assert [t] + m[1..] == ([t] + m)[1..] == (m + [t])[1..] == m[1..] + [t] by {
          assert m == [t] + m[1..];
        }
      }
      if forall i :: 0 <= i < |m| ==> m[i] == t {
        assert m == [t] + m[1..];
        assert m + [t] == [t] + (m[1..] + [t]);
      }
    }
  }

  /** pq_insert agrees with first come, first served exactly when no task of the
      same priority waits behind the head (other than copies of the new one). */
  lemma InsertStableIff(q: seq<Task>, t: Task)
    requires Sorted(q)
    ensures PqInsert(q, t) == StableInsert(q, t) <==>
            forall k :: 1 <= k < |q| && q[k].priority == t.priority ==> q[k] == t
  {
    StableIs(q, t);
    if q != [] && t.priority <= q[0].priority {
      var a, b := FirstAtMost(q, t.priority, 1), FirstBelow(q, t.priority, 1);
      Ties(q, t.priority);
      TwoPlaces(q, a, b, t);
    }
  }

  /** Behind the head, the tasks of priority p are those between the two places. */
  lemma Ties(q: seq<Task>, p: int)
    requires Sorted(q) && q != []
    ensures FirstAtMost(q, p, 1) <= FirstBelow(q, p, 1)
    ensures forall k :: 1 <= k < |q| ==> (q[k].priority == p <==> FirstAtMost(q, p, 1) <= k < FirstBelow(q, p, 1))
  {
  }

  /** Inserting at two places gives the same list just when only copies of the
      task lie between them. */
  lemma TwoPlaces(q: seq<Task>, a: nat, b: nat, t: Task)
    requires a <= b <= |q|
    ensures InsertAt(q, a, t) == InsertAt(q, b, t) <==> forall k :: a <= k < b ==> q[k] == t
  {
    var m := q[a..b];
    Commutes(m, t);
    assert InsertAt(q, a, t) == q[..a] + ([t] + m) + q[b..];
    assert InsertAt(q, b, t) == q[..a] + (m + [t]) + q[b..];
    MiddleEqual(q[..a], [t] + m, m + [t], q[b..]);
    assert (forall k :: a <= k < b ==> q[k] == t) <==> (forall i :: 0 <= i < |m| ==> m[i] == t) by {
      assert forall k :: a <= k < b ==> q[k] == m[k - a];
    }
  }

  lemma MiddleEqual(l: seq<Task>, m: seq<Task>, m': seq<Task>, r: seq<Task>)
    requires |m| == |m'|
    ensures l + m + r == l + m' + r <==> m == m'
  {
    assert (l + m + r)[|l|..|l| + |m|] == m;
    assert (l + m' + r)[|l|..|l| + |m'|] == m';
  }

  /** Three tasks of one priority come out first, third, second. */
  lemma TiesAreNotFifo(a: int, b: int, c: int)
    ensures PqInsert(PqInsert(PqInsert([], Task(5, a)), Task(5, b)), Task(5, c)) == [Task(5, a), Task(5, c), Task(5, b)]
  {
    assert PqInsert([], Task(5, a)) == [Task(5, a)];
    assert PqInsert([Task(5, a)], Task(5, b)) == [Task(5, a), Task(5, b)];
  }

  // ----- the pipe -----

  /** `written` are the tasks of successful writes.  Each is in the queue, was
      delivered to a reader, was dropped because no node could be allocated, was
      lost because the copy to the reader failed, or was discarded at last close. */
  datatype Pipe = Pipe(q: seq<Task>, nread: int, nwrite: int, active: bool, written: multiset<Task>,
                       delivered: multiset<Task>, dropped: multiset<Task>, lost: multiset<Task>, discarded: multiset<Task>)

  datatype Step = Write(t: Task, hasMemory: bool) | Read(copied: bool) | Close(writable: bool)

  function Written(p: Pipe, t: Task, hasMemory: bool): Pipe {
    if hasMemory then p.(q := PqInsert(p.q, t), written := p.written + multiset{t})
    else p.(written := p.written + multiset{t}, dropped := p.dropped + multiset{t})
  }

  function Taken(p: Pipe, copied: bool): Pipe
    requires p.q != []
  {
    var t := p.q[0];
    if copied then p.(q := p.q[1..], delivered := p.delivered + multiset{t})
    else p.(q := p.q[1..], lost := p.lost + multiset{t})
  }

  function CountDown(p: Pipe, writable: bool): Pipe {
    if writable then p.(nwrite := p.nwrite - 1) else p.(nread := p.nread - 1)
  }

  function Closed(p: Pipe, writable: bool): Pipe {
    var p' := CountDown(p, writable);
    if p'.nwrite == 0 && p'.nread == 0 then p'.(q := [], active := false, discarded := p.discarded + multiset(p.q)) else p'
  }

  ghost predicate Next(p: Pipe, step: Step, p': Pipe) {
    match step
    case Write(t, hasMemory) => p.active && p.nread > 0 && p' == Written(p, t, hasMemory)
    case Read(copied) => p.q != [] && p' == Taken(p, copied)
    case Close(writable) => p' == Closed(p, writable)
  }

  /** pipe_rt_alloc. */
  ghost predicate Init(p: Pipe) {
    && p.q == [] && p.nread == p.nwrite == 1 && p.active
    && p.written == p.delivered == p.dropped == p.lost == p.discarded == multiset{}
  }

  ghost predicate Inv(p: Pipe) {
    Sorted(p.q) && forall t :: Conserved(p, t)
  }

  /** Every copy of task t that was written is in exactly one place. */
  ghost predicate Conserved(p: Pipe, t: Task) {
    p.written[t] == p.delivered[t] + p.dropped[t] + p.lost[t] + p.discarded[t] + multiset(p.q)[t]
  }

  lemma WriteInv(p: Pipe, t: Task, hasMemory: bool)
    requires Inv(p)
    ensures Inv(Written(p, t, hasMemory))
  {
    InsertKeeps(p.q, t);
    var p' := Written(p, t, hasMemory);
    forall x ensures Conserved(p', x) {
      assert Conserved(p, x);
    }
  }

  lemma ReadInv(p: Pipe, copied: bool)
    requires Inv(p) && p.q != []
    ensures Inv(Taken(p, copied))
  {
    assert p.q == [p.q[0]] + p.q[1..];
    var p' := Taken(p, copied);
    forall x ensures Conserved(p', x) {
      assert Conserved(p, x);
    }
  }

  lemma CloseInv(p: Pipe, writable: bool)
    requires Inv(p)
    ensures Inv(Closed(p, writable))
  {
    var p' := Closed(p, writable);
    forall x ensures Conserved(p', x) {
      assert Conserved(p, x);
    }
  }

  lemma StepInv(p: Pipe, step: Step, p': Pipe)
    requires Inv(p) && Next(p, step, p')
    ensures Inv(p')
  {
    match step
    case Write(t, hasMemory) => WriteInv(p, t, hasMemory);
    case Read(copied) => ReadInv(p, copied);
    case Close(writable) => CloseInv(p, writable);
  }

  ghost predicate Run(pipes: seq<Pipe>, steps: seq<Step>) {
    && |pipes| == |steps| + 1 && Init(pipes[0])
    && forall i :: 0 <= i < |steps| ==> StepAt(pipes, steps, i)
  }

  ghost predicate StepAt(pipes: seq<Pipe>, steps: seq<Step>, i: nat)
    requires |pipes| == |steps| + 1 && i < |steps|
  {
    Next(pipes[i], steps[i], pipes[i + 1])
  }

  /** In every run the queue is sorted and no task appears or disappears. */
  lemma {:induction false} RunInv(pipes: seq<Pipe>, steps: seq<Step>, i: nat)
    requires Run(pipes, steps) && i < |pipes|
    ensures Inv(pipes[i])
  {
    if i > 0 {
      RunInv(pipes, steps, i - 1);
      assert StepAt(pipes, steps, i - 1);
      StepInv(pipes[i - 1], steps[i - 1], pipes[i]);
    }
  }

  // ----- what the steps alone say -----

  /** The tasks of the writes among the first i steps, all of them or those that found no memory. */
  function Sent(steps: seq<Step>, i: nat, dropped: bool): multiset<Task>
    requires i <= |steps|
  {
    if i == 0 then multiset{}
    else match steps[i - 1]
         case Write(t, hasMemory) =>
           if !dropped || !hasMemory then Sent(steps, i - 1, dropped) + multiset{t} else Sent(steps, i - 1, dropped)
         case _ => Sent(steps, i - 1, dropped)
  }

  function Count(steps: seq<Step>, i: nat, step: Step): nat
    requires i <= |steps|
  {
    if i == 0 then 0 else Count(steps, i - 1, step) + if steps[i - 1] == step then 1 else 0
  }

  /** Both ends are closed by one of the first i steps. */
  predicate Shut(steps: seq<Step>, i: nat)
    requires i <= |steps|
  {
    i > 0 && (Shut(steps, i - 1) ||
              (steps[i - 1].Close? && Count(steps, i, Close(true)) == 1 && Count(steps, i, Close(false)) == 1))
  }

  /** In every run the account is that of the steps: what was written and what
      found no memory, as many tasks out as there were reads, one end less for
      each close of it; the pipe is active, and nothing has been discarded,
      until a close leaves both ends closed. */
  lemma {:induction false} AccountIsSteps(pipes: seq<Pipe>, steps: seq<Step>, i: nat)
    requires Run(pipes, steps) && i < |pipes|
    ensures Moved(pipes[i], steps, i) && Ended(pipes[i], steps, i)
  {
    if i > 0 {
      AccountIsSteps(pipes, steps, i - 1);
      assert StepAt(pipes, steps, i - 1);
      MovedStep(pipes[i - 1], pipes[i], steps, i);
      EndedStep(pipes[i - 1], pipes[i], steps, i);
    }
  }

  ghost predicate Moved(p: Pipe, steps: seq<Step>, i: nat)
    requires i <= |steps|
  {
    && p.written == Sent(steps, i, false) && p.dropped == Sent(steps, i, true)
    && |p.delivered| == Count(steps, i, Read(true)) && |p.lost| == Count(steps, i, Read(false))
  }

  ghost predicate Ended(p: Pipe, steps: seq<Step>, i: nat)
    requires i <= |steps|
  {
    && p.nread == 1 - Count(steps, i, Close(false)) && p.nwrite == 1 - Count(steps, i, Close(true))
    && (p.active <==> !Shut(steps, i)) && (p.active ==> p.discarded == multiset{})
  }

  lemma MovedStep(p: Pipe, p': Pipe, steps: seq<Step>, i: nat)
    requires 0 < i <= |steps| && Moved(p, steps, i - 1) && Next(p, steps[i - 1], p')
    ensures Moved(p', steps, i)
  {
  }

  lemma EndedStep(p: Pipe, p': Pipe, steps: seq<Step>, i: nat)
    requires 0 < i <= |steps| && Ended(p, steps, i - 1) && Next(p, steps[i - 1], p')
    ensures Ended(p', steps, i)
  {
    if steps[i - 1].Close? {
      assert p'.nread == 1 - Count(steps, i, Close(false)) && p'.nwrite == 1 - Count(steps, i, Close(true));
    }
  }

  /** So until both ends are closed a task that was written and found memory is
      in the queue, or was taken by a reader. */
  lemma QueuedUntilRead(pipes: seq<Pipe>, steps: seq<Step>, i: nat, t: Task)
    requires Run(pipes, steps) && i < |pipes| && !Shut(steps, i)
    ensures multiset(pipes[i].q)[t] + pipes[i].delivered[t] + pipes[i].lost[t]
            + Sent(steps, i, true)[t] == Sent(steps, i, false)[t]
  {
    RunInv(pipes, steps, i);
    AccountIsSteps(pipes, steps, i);
    assert Conserved(pipes[i], t);
  }

  /** Every read takes a task of the highest priority in the queue. */
  lemma ReadTakesMostUrgent(pipes: seq<Pipe>, steps: seq<Step>, i: nat, t: Task)
    requires Run(pipes, steps) && i < |steps| && steps[i].Read? && t in pipes[i].q
    ensures pipes[i].q != [] && pipes[i].q[0].priority >= t.priority
    ensures steps[i].copied ==> pipes[i + 1].delivered == pipes[i].delivered + multiset{pipes[i].q[0]}
  {
    RunInv(pipes, steps, i);
    assert StepAt(pipes, steps, i);
  }
}

/** The linked list and the pipe built on it. */
module PriorityCode {
  import opened PriorityModel

  class Node {
    var task: Task
    var next: Node?

    constructor (task: Task)
      ensures this.task == task && next == null
    {
      this.task := task;
      next := null;
    }
  }

  class TaskList {
    var head: Node?
    ghost var nodes: seq<Node>
    ghost var tasks: seq<Task>

    ghost predicate Valid()
      reads this, nodes
    {
      && |tasks| == |nodes| && head == (if nodes == [] then null else nodes[0])
      && (forall i, j :: 0 <= i < j < |nodes| ==> nodes[i] != nodes[j])
      && forall i :: 0 <= i < |nodes| ==> NodeOk(i)
    }

    ghost predicate NodeOk(i: nat)
      requires i < |nodes| == |tasks|
      reads this, nodes
    {
      nodes[i].task == tasks[i] && nodes[i].next == if i + 1 < |nodes| then nodes[i + 1] else null
    }

    constructor ()
      ensures Valid() && tasks == [] && nodes == []
    {
      head, nodes, tasks := null, [], [];
    }

    /** Puts a new node after nodes[k - 1], or in front when k is 0. */
    method Splice(node: Node, ghost k: nat, prev: Node?)
      requires Valid() && k <= |nodes| && node !in nodes && prev == (if k == 0 then null else nodes[k - 1])
      modifies this, nodes, node
      ensures Valid() && nodes == old(nodes)[..k] + [node] + old(nodes)[k..]
      ensures tasks == InsertAt(old(tasks), k, old(node.task))
    {
      assert k > 0 ==> NodeOk(k - 1);
      if prev == null {
        node.next := head;
        head := node;
      } else {
        node.next := prev.next;
        prev.next := node;
      }
      ghost var ns := nodes;
      nodes := ns[..k] + [node] + ns[k..];
      tasks := tasks[..k] + [node.task] + tasks[k..];
      forall i | 0 <= i < |nodes| ensures NodeOk(i) {
        if i < k {
          assert nodes[i] == ns[i] && old(NodeOk(i));
        } else if i > k {
          assert nodes[i] == ns[i - 1] && old(NodeOk(i - 1));
        }
      }
    }

    /** pq_insert; without memory for a node its argument is dropped. */
    method Insert(t: Task, hasMemory: bool)
      requires Valid()
      modifies this, nodes
      ensures Valid() && tasks == if hasMemory then PqInsert(old(tasks), t) else old(tasks)
      ensures forall n :: n in nodes ==> n in old(nodes) || fresh(n)
    {
      if !hasMemory {
        return;
      }
      var node := new Node(t);
      assert nodes != [] ==> NodeOk(0);
      if head == null || t.priority > head.task.priority {
        Splice(node, 0, null);
        return;
      }
      var current: Node := head;
      ghost var k := 1;
      while current.next != null && current.next.task.priority > t.priority
        invariant 1 <= k <= |nodes| && current == nodes[k - 1] && NodeOk(k - 1)
        invariant k < |nodes| ==> NodeOk(k)
        invariant FirstAtMost(tasks, t.priority, 1) == FirstAtMost(tasks, t.priority, k)
        decreases |nodes| - k
      {
        current := current.next;
        k := k + 1;
        assert k < |nodes| ==> NodeOk(k);
      }
      Splice(node, k, current);
    }

    /** pqueue_push. */
    method Push(t: Task)
      requires Valid()
      modifies this, nodes
      ensures Valid() && tasks == PqPush(old(tasks), t)
      ensures forall n :: n in nodes ==> n in old(nodes) || fresh(n)
    {
      var node := new Node(t);
      assert nodes != [] ==> NodeOk(0);
      if head == null || t.priority > head.task.priority {
        Splice(node, 0, null);
        return;
      }
      var current: Node := head;
      ghost var k := 1;
      while current.next != null && current.next.task.priority >= t.priority
        invariant 1 <= k <= |nodes| && current == nodes[k - 1] && NodeOk(k - 1)
        invariant k < |nodes| ==> NodeOk(k)
        invariant FirstBelow(tasks, t.priority, 1) == FirstBelow(tasks, t.priority, k)
        decreases |nodes| - k
      {
        current := current.next;
        k := k + 1;
        assert k < |nodes| ==> NodeOk(k);
      }
      Splice(node, k, current);
    }

    /** pq_remove; an empty list gives a zero task. */
    method Remove() returns (t: Task)
      requires Valid()
      modifies this
      ensures Valid() && (old(tasks) == [] ==> t == Task(0, 0) && tasks == [] && nodes == [])
      ensures old(tasks) != [] ==> t == old(tasks)[0] && tasks == old(tasks)[1..] && nodes == old(nodes)[1..]
    {
      if head == null {
        return Task(0, 0);
      }
      assert NodeOk(0);
      t := head.task;
      head := head.next;
      nodes, tasks := nodes[1..], tasks[1..];
      forall i | 0 <= i < |nodes| ensures NodeOk(i) {
        assert old(NodeOk(i + 1));
      }
    }
  }

  datatype Outcome = Failed | Done(t: Task) | Slept

  class PipeRt {
    const list: TaskList
    var nread: int
    var nwrite: int
    var active: bool
    ghost var written: multiset<Task>
    ghost var delivered: multiset<Task>
    ghost var dropped: multiset<Task>
    ghost var lost: multiset<Task>
    ghost var discarded: multiset<Task>

    ghost function P(): Pipe
      reads this, list
    {
      Pipe(list.tasks, nread, nwrite, active, written, delivered, dropped, lost, discarded)
    }

    ghost predicate Valid()
      reads this, list, list.nodes
    {
      list.Valid() && Inv(P())
    }

    constructor ()
      ensures Valid() && Init(P()) && fresh(list) && list.nodes == []
    {
      list := new TaskList();
      nread, nwrite, active := 1, 1, true;
      written, delivered, dropped, lost, discarded := multiset{}, multiset{}, multiset{}, multiset{}, multiset{};
    }

    /** pipe_rt_write of task t, which `readable` says could be copied in. */
    method WriteTask(t: Task, readable: bool, hasMemory: bool) returns (ok: bool)
      requires Valid()
      modifies this`written, this`dropped, list, list.nodes
      ensures Valid() && ok == (active && nread > 0 && readable)
      ensures P() == if ok then Written(old(P()), t, hasMemory) else old(P())
    {
      if !active || nread <= 0 {
        return false;
      }
      if !readable {
        return false;
      }
      Enqueue(t, hasMemory);
      return true;
    }

    /** The part of pipe_rt_write after its tests. */
    method Enqueue(t: Task, hasMemory: bool)
      requires Valid()
      modifies this`written, this`dropped, list, list.nodes
      ensures Valid() && P() == Written(old(P()), t, hasMemory)
    {
      list.Insert(t, hasMemory);
      Note(t, hasMemory);
      WriteInv(old(P()), t, hasMemory);
    }

    /** Keeps account of a task written. */
    ghost method Note(t: Task, hasMemory: bool)
      modifies this`written, this`dropped
      ensures written == old(written) + multiset{t}
      ensures dropped == if hasMemory then old(dropped) else old(dropped) + multiset{t}
    {
      written := written + multiset{t};
      if !hasMemory {
        dropped := dropped + multiset{t};
      }
    }

    /** pipe_rt_read up to its first sleep. */
    method ReadTask(copied: bool) returns (out: Outcome)
      requires Valid()
      modifies this`delivered, this`lost, list
      ensures Valid()
      ensures old(list.tasks) == [] ==> P() == old(P()) && out == if active && nwrite > 0 then Slept else Failed
      ensures old(list.tasks) != [] ==>
                P() == Taken(old(P()), copied) && out == if copied then Done(old(list.tasks)[0]) else Failed
    {
      if list.head == null && active && nwrite > 0 {
        return Slept;
      }
      if list.head == null {
        return Failed;
      }
      var t := list.Remove();
      ReadInv(old(P()), copied);
      if !copied {
        lost := lost + multiset{t};
        return Failed;
      }
      delivered := delivered + multiset{t};
      return Done(t);
    }

    method CloseEnd(writable: bool)
      requires Valid()
      modifies this`nread, this`nwrite, this`active, this`discarded, list
      ensures Valid() && P() == Closed(old(P()), writable)
    {
      CloseInv(P(), writable);
      LeaveEnd(writable);
      if nwrite == 0 && nread == 0 {
        Shut();
      }
    }

    method LeaveEnd(writable: bool)
      modifies this`nread, this`nwrite
      ensures P() == CountDown(old(P()), writable)
    {
      if writable {
        nwrite := nwrite - 1;
      } else {
        nread := nread - 1;
      }
    }

    /** The last close: empty the queue and mark the pipe dead. */
    method Shut()
      requires list.Valid()
      modifies this`active, this`discarded, list
      ensures list.Valid() && list.nodes == []
      ensures P() == old(P()).(q := [], active := false, discarded := old(P()).discarded + multiset(old(P()).q))
    {
      DiscardAll();
      active := false;
    }

    /** Frees what is left in the queue. */
    method DiscardAll()
      requires list.Valid()
      modifies this`discarded, list
      ensures list.Valid() && list.tasks == [] && list.nodes == []
      ensures discarded == old(discarded) + multiset(old(list.tasks))
    {
      ghost var all := multiset(list.tasks);
      while list.head != null
        invariant list.Valid() && old(discarded) + all == discarded + multiset(list.tasks)
        invariant |list.nodes| <= |old(list.nodes)|
        invariant list.nodes == old(list.nodes)[|old(list.nodes)| - |list.nodes|..]
        decreases |list.nodes|
      {
        ghost var q := list.tasks;
        var t := list.Remove();
        assert q == [t] + list.tasks;
        discarded := discarded + multiset{t};
      }
    }
  }
}
