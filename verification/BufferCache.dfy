/** The buffer cache's replacement policy, on values: the circular list seen
    from its most recently used end. */
module LruPolicy {

  /** One buffer; `freed` is the time its reference count last became zero. */
  datatype Slot = Slot(id: nat, dev: nat, blockno: nat, valid: bool, refcnt: nat, freed: nat)

  datatype Cache = Cache(slots: seq<Slot>, clock: nat)

  predicate For(s: Slot, dev: nat, blockno: nat) { s.dev == dev && s.blockno == blockno }

  /** bget's first loop: the first buffer for the block, or the length. */
  function Hit(slots: seq<Slot>, dev: nat, blockno: nat): (k: nat)
    ensures k <= |slots|
    ensures k < |slots| ==> For(slots[k], dev, blockno)
    ensures forall i :: 0 <= i < k ==> !For(slots[i], dev, blockno)
  {
    if slots == [] || For(slots[0], dev, blockno) then 0 else 1 + Hit(slots[1..], dev, blockno)
  }

  /** bget's second loop: one past the last buffer nobody refers to, or zero. */
  function Victim(slots: seq<Slot>): (k: nat)
    ensures k <= |slots|
    ensures k > 0 ==> slots[k - 1].refcnt == 0
    ensures forall i :: k <= i < |slots| ==> slots[i].refcnt > 0
  {
    if slots == [] then 0
    else if slots[|slots| - 1].refcnt == 0 then |slots|
    else Victim(slots[..|slots| - 1])
  }

  lemma HitIs(slots: seq<Slot>, dev: nat, blockno: nat, k: nat)
    requires k <= |slots| && (k < |slots| ==> For(slots[k], dev, blockno))
    requires forall i :: 0 <= i < k ==> !For(slots[i], dev, blockno)
    ensures Hit(slots, dev, blockno) == k
  {
  }

  lemma VictimIs(slots: seq<Slot>, k: nat)
    requires k <= |slots| && (k > 0 ==> slots[k - 1].refcnt == 0)
    requires forall i :: k <= i < |slots| ==> slots[i].refcnt > 0
    ensures Victim(slots) == k
  {
    var v := Victim(slots);
    if v > 0 {
      assert slots[v - 1].refcnt == 0;
    }
  }

  predicate OutOfBuffers(c: Cache, dev: nat, blockno: nat) {
    Hit(c.slots, dev, blockno) == |c.slots| && Victim(c.slots) == 0
  }

  /** The index bget returns a reference to. */
  function Choice(c: Cache, dev: nat, blockno: nat): (k: nat)
    requires !OutOfBuffers(c, dev, blockno)
    ensures k < |c.slots|
  {
    var h := Hit(c.slots, dev, blockno);
    if h < |c.slots| then h else Victim(c.slots) - 1
  }

  function Get(c: Cache, dev: nat, blockno: nat): (r: Cache)
    requires !OutOfBuffers(c, dev, blockno)
  {
    var k := Choice(c, dev, blockno);
    var s := c.slots[k];
    c.(slots := c.slots[k := if For(s, dev, blockno) then s.(refcnt := s.refcnt + 1)
                             else Slot(s.id, dev, blockno, false, 1, s.freed)])
  }

  function MoveToFront(slots: seq<Slot>, k: nat, s: Slot): seq<Slot>
    requires k < |slots|
  {
    [s] + slots[..k] + slots[k + 1..]
  }

  /** Where each buffer of the reordered list stood before. */
  lemma MovedFrom(slots: seq<Slot>, k: nat, s: Slot, i: nat)
    requires k < |slots| && i < |slots|
    ensures |MoveToFront(slots, k, s)| == |slots|
    ensures MoveToFront(slots, k, s)[i] == if i == 0 then s else slots[if i <= k then i - 1 else i]
  {
  }

  /** brelse: a buffer nobody refers to any more becomes the most recently used. */
  function Release(c: Cache, k: nat): Cache
    requires k < |c.slots| && c.slots[k].refcnt > 0
  {
    var s := c.slots[k];
    if s.refcnt == 1 then Cache(MoveToFront(c.slots, k, s.(refcnt := 0, freed := c.clock)), c.clock + 1)
    else c.(slots := c.slots[k := s.(refcnt := s.refcnt - 1)])
  }

  function Pin(c: Cache, k: nat): Cache
    requires k < |c.slots|
  {
    c.(slots := c.slots[k := c.slots[k].(refcnt := c.slots[k].refcnt + 1)])
  }

  /** bunpin leaves the buffer where it is, even when the count becomes zero. */
  function Unpin(c: Cache, k: nat): Cache
    requires k < |c.slots| && c.slots[k].refcnt > 0
  {
    var s := c.slots[k];
    if s.refcnt == 1 then Cache(c.slots[k := s.(refcnt := 0, freed := c.clock)], c.clock + 1)
    else c.(slots := c.slots[k := s.(refcnt := s.refcnt - 1)])
  }

  /** The end of bread: the block is in the buffer. */
  function Fill(c: Cache, k: nat): Cache
    requires k < |c.slots|
  {
    c.(slots := c.slots[k := c.slots[k].(valid := true)])
  }

  // ----- the invariant -----

  ghost predicate DistinctIds(slots: seq<Slot>) {
    forall i, j :: 0 <= i < j < |slots| ==> slots[i].id != slots[j].id
  }

  /** Buffers start out as (device 0, block 0), so uniqueness is about real devices. */
  ghost predicate OneBufferPerBlock(slots: seq<Slot>) {
    forall i, j :: 0 <= i < j < |slots| && slots[i].dev != 0 && For(slots[j], slots[i].dev, slots[i].blockno) ==> false
  }

  /** Buffers nobody refers to are ordered by the time they became free. */
  ghost predicate LruOrdered(slots: seq<Slot>) {
    forall i, j :: 0 <= i < j < |slots| && slots[i].refcnt == 0 && slots[j].refcnt == 0 ==>
                     slots[i].freed >= slots[j].freed
  }

  /** What every operation keeps. */
  ghost predicate Base(c: Cache) {
    && DistinctIds(c.slots) && OneBufferPerBlock(c.slots)
    && forall i :: 0 <= i < |c.slots| ==> c.slots[i].freed < c.clock
  }

  ghost predicate Inv(c: Cache) { Base(c) && LruOrdered(c.slots) }

  /** binit: every buffer was pushed to the front of the list in turn. */
  function Binit(nbuf: nat): Cache {
    Cache(seq(nbuf, i requires 0 <= i < nbuf => Slot(nbuf - 1 - i, 0, 0, false, 0, 0)), 1)
  }

  lemma BinitInv(nbuf: nat)
    ensures Inv(Binit(nbuf))
  {
  }

  datatype Op =
    | DoGet(dev: nat, blockno: nat)
    | DoFill(k: nat)
    | DoRelease(k: nat)
    | DoPin(k: nat)
    | DoUnpin(k: nat)

  predicate Allowed(c: Cache, op: Op) {
    match op
    case DoGet(dev, blockno) => !OutOfBuffers(c, dev, blockno)
    case DoFill(k) => k < |c.slots| && c.slots[k].refcnt > 0
    case DoRelease(k) => k < |c.slots| && c.slots[k].refcnt > 0
    case DoPin(k) => k < |c.slots| && c.slots[k].refcnt > 0
    case DoUnpin(k) => k < |c.slots| && c.slots[k].refcnt > 0
  }

  /** A bunpin that frees a buffer behind one that is free already. */
  predicate Disturbs(c: Cache, op: Op) {
    && op.DoUnpin? && op.k < |c.slots| && c.slots[op.k].refcnt == 1
    && exists i :: 0 <= i < op.k && c.slots[i].refcnt == 0
  }

  function Apply(c: Cache, op: Op): Cache
    requires Allowed(c, op)
  {
    match op
    case DoGet(dev, blockno) => Get(c, dev, blockno)
    case DoFill(k) => Fill(c, k)
    case DoRelease(k) => Release(c, k)
    case DoPin(k) => Pin(c, k)
    case DoUnpin(k) => Unpin(c, k)
  }

  ghost function IdSeq(slots: seq<Slot>): (r: seq<nat>)
    ensures |r| == |slots| && forall i :: 0 <= i < |r| ==> r[i] == slots[i].id
  {
    seq(|slots|, i requires 0 <= i < |slots| => slots[i].id)
  }

  ghost function Ids(slots: seq<Slot>): multiset<nat> { multiset(IdSeq(slots)) }

  lemma MoveToFrontIds(slots: seq<Slot>, k: nat, s: Slot)
    requires k < |slots| && s.id == slots[k].id
    ensures Ids(MoveToFront(slots, k, s)) == Ids(slots)
  {
    var ids, front, back := IdSeq(slots), IdSeq(slots[..k]), IdSeq(slots[k + 1..]);
    assert ids == front + [s.id] + back;
    assert IdSeq(MoveToFront(slots, k, s)) == [s.id] + front + back;
  }

  lemma UpdateIds(slots: seq<Slot>, k: nat, s: Slot)
    requires k < |slots| && s.id == slots[k].id
    ensures Ids(slots[k := s]) == Ids(slots)
  {
    assert IdSeq(slots[k := s]) == IdSeq(slots);
  }

  /** Changing a buffer in place is harmless while no other buffer is for its block. */
  lemma BaseUpdate(c: Cache, k: nat, s: Slot, clock: nat)
    requires Base(c) && k < |c.slots| && s.id == c.slots[k].id && s.freed < clock && c.clock <= clock
    requires s.dev != 0 ==> forall i :: 0 <= i < |c.slots| && i != k ==> !For(c.slots[i], s.dev, s.blockno)
    ensures Base(Cache(c.slots[k := s], clock))
  {
  }

  lemma OrderUpdate(c: Cache, k: nat, s: Slot)
    requires LruOrdered(c.slots) && k < |c.slots| && s.refcnt > 0
    ensures LruOrdered(c.slots[k := s])
  {
  }

  lemma InvMove(c: Cache, k: nat)
    requires Base(c) && k < |c.slots| && c.slots[k].refcnt == 1
    ensures Base(Release(c, k)) && (LruOrdered(c.slots) ==> LruOrdered(Release(c, k).slots))
  {
    var s := c.slots[k].(refcnt := 0, freed := c.clock);
    var r := MoveToFront(c.slots, k, s);
    forall i | 0 <= i < |r| ensures CameFrom(c.slots, k, s, r, i) {
      MovedFrom(c.slots, k, s, i);
    }
    MovedDistinct(c.slots, k, s, r);
    MovedOrder(c.slots, k, s, r);
  }

  /** Where buffer i of the reordered list stood before. */
  ghost predicate CameFrom(slots: seq<Slot>, k: nat, s: Slot, r: seq<Slot>, i: nat)
    requires k < |slots| == |r| && i < |r|
  {
    r[i] == if i == 0 then s else slots[if i <= k then i - 1 else i]
  }

  lemma MovedDistinct(slots: seq<Slot>, k: nat, s: Slot, r: seq<Slot>)
    requires k < |slots| == |r| && forall i :: 0 <= i < |r| ==> CameFrom(slots, k, s, r, i)
    requires DistinctIds(slots) && OneBufferPerBlock(slots)
    requires s.id == slots[k].id && For(s, slots[k].dev, slots[k].blockno)
    ensures DistinctIds(r) && OneBufferPerBlock(r)
  {
    forall i, j | 0 <= i < j < |r|
      ensures r[i].id != r[j].id && !(r[i].dev != 0 && For(r[j], r[i].dev, r[i].blockno))
    {
      assert CameFrom(slots, k, s, r, i) && CameFrom(slots, k, s, r, j);
    }
  }

  lemma MovedOrder(slots: seq<Slot>, k: nat, s: Slot, r: seq<Slot>)
    requires k < |slots| == |r| && forall i :: 0 <= i < |r| ==> CameFrom(slots, k, s, r, i)
    requires forall i :: 0 <= i < |slots| ==> slots[i].freed < s.freed
    ensures forall i :: 0 <= i < |r| ==> r[i].freed <= s.freed
    ensures LruOrdered(slots) ==> LruOrdered(r)
  {
    forall i | 0 <= i < |r| ensures r[i].freed <= s.freed {
      assert CameFrom(slots, k, s, r, i);
    }
    if LruOrdered(slots) {
      forall i, j | 0 <= i < j < |r| && r[i].refcnt == 0 && r[j].refcnt == 0 ensures r[i].freed >= r[j].freed {
        assert CameFrom(slots, k, s, r, i) && CameFrom(slots, k, s, r, j);
      }
    }
  }

  /** The buffer freed in place is the youngest: it fits the order exactly when
      no buffer in front of it is free. */
  lemma UnpinOrder(c: Cache, k: nat)
    requires Inv(c) && k < |c.slots| && c.slots[k].refcnt == 1
    ensures LruOrdered(Unpin(c, k).slots) <==> !Disturbs(c, DoUnpin(k))
  {
    var d := Unpin(c, k);
    if i :| 0 <= i < k && c.slots[i].refcnt == 0 {
      assert d.slots[i] == c.slots[i] && d.slots[k].refcnt == 0;
    }
  }

  /** A buffer that is free after an operation was so before, with the same
      time of becoming free, or became free by it. */
  lemma FreeSlot(c: Cache, op: Op, i: nat)
    requires Allowed(c, op) && i < |Apply(c, op).slots| && Apply(c, op).slots[i].refcnt == 0
    ensures var s := Apply(c, op).slots[i];
            exists j :: 0 <= j < |c.slots| && c.slots[j].id == s.id
                        && if c.slots[j].refcnt == 0 then s == c.slots[j] else s.freed == c.clock
  {
    var s := Apply(c, op).slots[i];
    var j := i;
    if op.DoRelease? && c.slots[op.k].refcnt == 1 {
      MovedFrom(c.slots, op.k, c.slots[op.k].(refcnt := 0, freed := c.clock), i);
      j := if i == 0 then op.k else if i <= op.k then i - 1 else i;
    }
    assert c.slots[j].id == s.id;
  }

  /** One operation keeps the list a permutation of the same buffers and one
      buffer per block of a real device. */
  lemma StepBase(c: Cache, op: Op)
    requires Base(c) && Allowed(c, op)
    ensures Base(Apply(c, op)) && Ids(Apply(c, op).slots) == Ids(c.slots)
  {
    if op.DoRelease? && c.slots[op.k].refcnt == 1 {
      InvMove(c, op.k);
      MoveToFrontIds(c.slots, op.k, c.slots[op.k].(refcnt := 0, freed := c.clock));
    } else {
      var k := if op.DoGet? then Choice(c, op.dev, op.blockno) else op.k;
      var d := Apply(c, op);
      UpdateIds(c.slots, k, d.slots[k]);
      BaseUpdate(c, k, d.slots[k], d.clock);
    }
  }

  /** One operation keeps the order by time of becoming free, unless it is a
      bunpin to zero behind a free buffer, and then it does not. */
  lemma StepInv(c: Cache, op: Op)
    requires Inv(c) && Allowed(c, op)
    ensures Base(Apply(c, op)) && (LruOrdered(Apply(c, op).slots) <==> !Disturbs(c, op))
  {
    StepBase(c, op);
    if op.DoRelease? && c.slots[op.k].refcnt == 1 {
      InvMove(c, op.k);
    } else if op.DoUnpin? && c.slots[op.k].refcnt == 1 {
      UnpinOrder(c, op.k);
    } else {
      var k := if op.DoGet? then Choice(c, op.dev, op.blockno) else op.k;
      OrderUpdate(c, k, Apply(c, op).slots[k]);
    }
  }

  ghost predicate Run(c: Cache, ops: seq<Op>)
    decreases |ops|
  {
    ops == [] || (Allowed(c, ops[0]) && Run(Apply(c, ops[0]), ops[1..]))
  }

  ghost function After(c: Cache, ops: seq<Op>): Cache
    requires Run(c, ops)
    decreases |ops|
  {
    if ops == [] then c else After(Apply(c, ops[0]), ops[1..])
  }

  /** No bunpin on the way frees a buffer behind a free one. */
  ghost predicate Orderly(c: Cache, ops: seq<Op>)
    requires Run(c, ops)
    decreases |ops|
  {
    ops == [] || (!Disturbs(c, ops[0]) && Orderly(Apply(c, ops[0]), ops[1..]))
  }

  lemma {:induction false} RunBase(c: Cache, ops: seq<Op>)
    requires Base(c) && Run(c, ops)
    ensures Base(After(c, ops)) && Ids(After(c, ops).slots) == Ids(c.slots)
    decreases |ops|
  {
    if ops != [] {
      StepBase(c, ops[0]);
      RunBase(Apply(c, ops[0]), ops[1..]);
    }
  }

  lemma {:induction false} RunInv(c: Cache, ops: seq<Op>)
    requires Inv(c) && Run(c, ops) && Orderly(c, ops)
    ensures Inv(After(c, ops))
    decreases |ops|
  {
    if ops != [] {
      StepInv(c, ops[0]);
      RunInv(Apply(c, ops[0]), ops[1..]);
    }
  }

  /** In an ordered list the buffer bget recycles is the least recently released free one. */
  lemma VictimIsLeastRecent(c: Cache, i: nat)
    requires LruOrdered(c.slots) && i < |c.slots| && c.slots[i].refcnt == 0
    ensures var v := Victim(c.slots);
            v > 0 && c.slots[v - 1].refcnt == 0 && c.slots[v - 1].freed <= c.slots[i].freed
  {
  }

  // ----- a run in which the order is lost -----

  lemma Before(c: Cache, op: Op, ops: seq<Op>)
    requires Allowed(c, op) && Run(Apply(c, op), ops)
    ensures Run(c, [op] + ops) && After(c, [op] + ops) == After(Apply(c, op), ops)
  {
    assert ([op] + ops)[1..] == ops;
  }

  /** Block 6 has been read, logged and released: the log's pin is left. */
  lemma LogAndRelease(n: nat)
    requires n >= 2
    ensures var c, d := Binit(n), Cache(Binit(n).slots[n - 1 := Slot(0, 1, 6, false, 1, 0)], 1);
            && Allowed(c, DoGet(1, 6)) && Apply(c, DoGet(1, 6)) == d
            && Allowed(d, DoPin(n - 1)) && Allowed(Apply(d, DoPin(n - 1)), DoRelease(n - 1))
            && Apply(Apply(d, DoPin(n - 1)), DoRelease(n - 1)) == d
  {
    var c, d := Binit(n), Cache(Binit(n).slots[n - 1 := Slot(0, 1, 6, false, 1, 0)], 1);
    HitIs(c.slots, 1, 6, n);
    VictimIs(c.slots, n);
    assert Apply(Apply(d, DoPin(n - 1)), DoRelease(n - 1)).slots == d.slots;
  }

  /** Block 5 is read and released: its buffer is freed and goes to the front. */
  lemma ReadAnother(n: nat)
    requires n >= 2
    ensures var d := Cache(Binit(n).slots[n - 1 := Slot(0, 1, 6, false, 1, 0)], 1);
            && Allowed(d, DoGet(1, 5)) && Allowed(Apply(d, DoGet(1, 5)), DoRelease(n - 2))
            && var e := Apply(Apply(d, DoGet(1, 5)), DoRelease(n - 2));
               && e.clock == 2 && |e.slots| == n && e.slots[n - 1] == d.slots[n - 1]
               && forall i :: 0 <= i < n - 1 ==> e.slots[i].refcnt == 0 && e.slots[i].freed < 2
  {
    var d := Cache(Binit(n).slots[n - 1 := Slot(0, 1, 6, false, 1, 0)], 1);
    HitIs(d.slots, 1, 5, n);
    VictimIs(d.slots, n - 1);
    var d' := Apply(d, DoGet(1, 5));
    assert d'.slots == d.slots[n - 2 := Slot(1, 1, 5, false, 1, 0)];
    var e := Apply(d', DoRelease(n - 2));
    assert e.slots == [Slot(1, 1, 5, false, 0, 1)] + d'.slots[..n - 2] + [d'.slots[n - 1]];
  }

  /** A run from binit, with any number of buffers: after a bunpin with nobody
      holding the buffer, bget recycles the buffer freed last instead of first. */
  lemma UnpinToZeroBreaksLru(n: nat) returns (ops: seq<Op>)
    requires n >= 2
    ensures Run(Binit(n), ops)
    ensures var d := After(Binit(n), ops);
            && |d.slots| == n && Victim(d.slots) == n
            && forall i :: 0 <= i < n - 1 ==> d.slots[i].refcnt == 0 && d.slots[i].freed < d.slots[n - 1].freed
  {
    var d := Cache(Binit(n).slots[n - 1 := Slot(0, 1, 6, false, 1, 0)], 1);
    LogAndRelease(n);
    ReadAnother(n);
    var e := Apply(Apply(d, DoGet(1, 5)), DoRelease(n - 2));
    var f := Apply(e, DoUnpin(n - 1));
    VictimIs(f.slots, n);
    assert Run(f, []) && After(f, []) == f;
    Before(e, DoUnpin(n - 1), []);
    ops := [DoUnpin(n - 1)] + [];
    Before(Apply(d, DoGet(1, 5)), DoRelease(n - 2), ops);
    ops := [DoRelease(n - 2)] + ops;
    Before(d, DoGet(1, 5), ops);
    ops := [DoGet(1, 5)] + ops;
    Before(Apply(d, DoPin(n - 1)), DoRelease(n - 1), ops);
    ops := [DoRelease(n - 1)] + ops;
    Before(d, DoPin(n - 1), ops);
    ops := [DoPin(n - 1)] + ops;
    Before(Binit(n), DoGet(1, 6), ops);
    ops := [DoGet(1, 6)] + ops;
  }
}

/** The same policy as code: a circular doubly linked list threaded through the
    buffers, with a sentinel head.  `order` is the list from the most recently
    used end. */
module BufferCache {
  import opened LruPolicy

  class Buf {
    const id: nat
    var dev: nat
    var blockno: nat
    var valid: bool
    var refcnt: nat
    var prev: Buf?
    var next: Buf?
    ghost var freed: nat

    constructor (id: nat)
      ensures this.id == id && dev == 0 && blockno == 0 && !valid && refcnt == 0 && freed == 0
    {
      this.id := id;
      dev, blockno, valid, refcnt, freed := 0, 0, false, 0, 0;
      prev, next := null, null;
    }

    predicate Is(dev: nat, blockno: nat)
      reads this
    {
      this.dev == dev && this.blockno == blockno
    }

    ghost function View(): Slot
      reads this
    {
      Slot(id, dev, blockno, valid, refcnt, freed)
    }
  }

  class Bcache {
    const head: Buf
    ghost var order: seq<Buf>
    ghost var c: Cache           // what the list stands for

    /** Position 0 and the position past the end are both the sentinel. */
    static ghost function Ring(head: Buf, order: seq<Buf>, i: nat): Buf
      requires i <= |order| + 1
    {
      if i == 0 || i == |order| + 1 then head else order[i - 1]
    }

    ghost predicate Linked()
      reads this`order, head`prev, head`next, order`prev, order`next
    {
      && head !in order
      && (forall i, j :: 0 <= i < j < |order| ==> order[i] != order[j])
      && (forall i :: 0 <= i <= |order| ==> LinkOk(i))
    }

    ghost predicate LinkOk(i: nat)
      requires i <= |order|
      reads this`order, head`prev, head`next, order`prev, order`next
    {
      Ring(head, order, i).next == Ring(head, order, i + 1) && Ring(head, order, i + 1).prev == Ring(head, order, i)
    }

    ghost predicate Valid()
      reads this, head, order
    {
      && Linked()
      && |c.slots| == |order| && forall i :: 0 <= i < |order| ==> order[i].View() == c.slots[i]
    }

    /** binit: every buffer in turn goes to the front of an empty ring. */
    constructor (nbuf: nat)
      ensures Valid() && fresh(head) && (forall b :: b in order ==> fresh(b))
      ensures |order| == nbuf && c == Binit(nbuf) && LruPolicy.Inv(c)
    {
      head := new Buf(0);
      order := [];
      c := Cache([], 1);
      new;
      head.prev := head;
      head.next := head;
      var k := 0;
      while k < nbuf
        invariant 0 <= k <= nbuf && Valid() && fresh(head) && c.clock == 1
        invariant |order| == k && forall i :: 0 <= i < k ==> fresh(order[i])
        invariant forall i :: 0 <= i < k ==> c.slots[i] == Slot(k - 1 - i, 0, 0, false, 0, 0)
      {
        var b := new Buf(k);
        AddBuffer(b);
        k := k + 1;
      }
      assert c.slots == Binit(nbuf).slots;
      BinitInv(nbuf);
    }

    /** One round of binit's loop. */
    method AddBuffer(b: Buf)
      requires Valid() && b != head && b !in order
      modifies this`order, this`c, b`prev, b`next, head`prev, head`next, order`prev
      ensures Valid() && order == [b] + old(order) && c == old(c).(slots := [b.View()] + old(c).slots)
    {
      PushFront(b);
      c := c.(slots := [b.View()] + c.slots);
    }

    /** Links an unlinked buffer in after the sentinel. */
    method PushFront(b: Buf)
      requires Linked() && b != head && b !in order
      modifies this`order, b`prev, b`next, head`prev, head`next, order`prev
      ensures Linked() && order == [b] + old(order)
    {
      assert LinkOk(0);
      b.next := head.next;
      b.prev := head;
      head.next.prev := b;
      head.next := b;
      order := [b] + order;
      forall i | 0 <= i <= |order| ensures LinkOk(i) {
        if i >= 2 {
          assert old(LinkOk(i - 1));
          assert Ring(head, order, i) == Ring(head, old(order), i - 1);
        }
      }
    }

    /** Takes a linked buffer out of the ring. */
    method Unlink(b: Buf, ghost k: nat)
      requires Linked() && k < |order| && order[k] == b
      modifies this`order, head`prev, head`next, order`prev, order`next
      ensures Linked() && order == old(order)[..k] + old(order)[k + 1..]
    {
      assert b == Ring(head, order, k + 1) && LinkOk(k) && LinkOk(k + 1);
      b.next.prev := b.prev;
      b.prev.next := b.next;
      order := order[..k] + order[k + 1..];
      forall i | 0 <= i <= |order| ensures LinkOk(i) {
        var j := if i <= k then i else i + 1;
        assert old(LinkOk(j)) && Ring(head, order, i) == Ring(head, old(order), j);
        assert Ring(head, order, i + 1) == Ring(head, old(order), if i + 1 <= k then i + 1 else i + 2);
      }
    }

    /** A reference to a buffer for the block: a cached one, else the least
        recently used free one, else none ("bget: no buffers"). */
    method Bget(dev: nat, blockno: nat) returns (b: Buf?)
      requires Valid()
      modifies this`c, order`dev, order`blockno, order`valid, order`refcnt
      ensures Valid()
      ensures b == null <==> OutOfBuffers(old(c), dev, blockno)
      ensures b != null ==> b == order[Choice(old(c), dev, blockno)] && c == Get(old(c), dev, blockno)
      ensures b == null ==> c == old(c)
      // in the buffers themselves
      ensures b == null <==> forall x :: x in order ==> old(!x.Is(dev, blockno) && x.refcnt > 0)
      ensures b != null ==>
                && b in order && b.Is(dev, blockno)
                && if old(b.Is(dev, blockno)) then b.valid == old(b.valid) && b.refcnt == old(b.refcnt) + 1
                   else !b.valid && b.refcnt == 1 && old(b.refcnt) == 0 &&
                        forall x :: x in order ==> !old(x.Is(dev, blockno))
      ensures forall x :: x in order && x != b ==> unchanged(x)
    {
      b := FindCached(dev, blockno);
      if b == null {
        b := FindFree();
        if b != null {
          Reuse(b, Victim(c.slots) - 1, dev, blockno);
        }
      } else {
        Bpin(b, Hit(c.slots, dev, blockno));
      }
    }

    /** bread: the buffer holds the block when it is handed out, and the disk
        is asked for it exactly when no buffer held it. */
    method Bread(dev: nat, blockno: nat) returns (b: Buf?, fromDisk: bool)
      requires Valid()
      modifies this`c, order`dev, order`blockno, order`valid, order`refcnt
      ensures Valid()
      ensures b == null <==> forall x :: x in order ==> old(!x.Is(dev, blockno) && x.refcnt > 0)
      ensures b != null ==> b in order && b.Is(dev, blockno) && b.valid && b.refcnt > 0
      ensures b != null ==> (fromDisk <==> !old(b.Is(dev, blockno) && b.valid))
      ensures b == null ==> !fromDisk
      ensures forall x :: x in order && x != b ==> unchanged(x)
    {
      fromDisk := false;
      b := Bget(dev, blockno);
      if b != null && !b.valid {
        fromDisk := true;
        ReadIn(b, Choice(old(c), dev, blockno));
      }
    }

    method ReadIn(b: Buf, ghost k: nat)
      requires Valid() && k < |order| && order[k] == b
      modifies this`c, b`valid
      ensures Valid() && c == Fill(old(c), k) && b.valid
    {
      b.valid := true;
      c := Fill(c, k);
    }

    /** Gives a free buffer to another block. */
    method Reuse(b: Buf, ghost k: nat, dev: nat, blockno: nat)
      requires Valid() && k < |order| && order[k] == b
      modifies this`c, b`dev, b`blockno, b`valid, b`refcnt
      ensures Valid()
      ensures c == old(c).(slots := old(c).slots[k := Slot(b.id, dev, blockno, false, 1, b.freed)])
      ensures b.Is(dev, blockno) && !b.valid && b.refcnt == 1
    {
      b.dev, b.blockno, b.valid, b.refcnt := dev, blockno, false, 1;
      c := c.(slots := c.slots[k := b.View()]);
    }

    /** bget's scan from the most recently used end. */
    method FindCached(dev: nat, blockno: nat) returns (b: Buf?)
      requires Valid()
      ensures b == null <==> Hit(c.slots, dev, blockno) == |order|
      ensures b != null ==> b == order[Hit(c.slots, dev, blockno)] && b.Is(dev, blockno)
      ensures b == null ==> forall x :: x in order ==> !x.Is(dev, blockno)
    {
      b := head.next;
      assert LinkOk(0);
      ghost var i := 0;
      while b != head
        invariant 0 <= i <= |order| && b == Ring(head, order, i + 1)
        invariant forall j :: 0 <= j < i ==> !For(c.slots[j], dev, blockno)
        decreases |order| - i
      {
        if b.dev == dev && b.blockno == blockno {
          HitIs(c.slots, dev, blockno, i);
          return;
        }
        assert LinkOk(i + 1);
        b := b.next;
        i := i + 1;
      }
      HitIs(c.slots, dev, blockno, i);
      b := null;
    }

    /** bget's scan from the least recently used end. */
    method FindFree() returns (b: Buf?)
      requires Valid()
      ensures b == null <==> Victim(c.slots) == 0
      ensures b != null ==> b == order[Victim(c.slots) - 1] && b.refcnt == 0
      ensures b == null ==> forall x :: x in order ==> x.refcnt > 0
    {
      b := head.prev;
      assert LinkOk(|order|);
      ghost var i := |order|;
      while b != head
        invariant 0 <= i <= |order| && b == Ring(head, order, i)
        invariant forall j :: i <= j < |order| ==> c.slots[j].refcnt > 0
        decreases i
      {
        if b.refcnt == 0 {
          VictimIs(c.slots, i);
          return;
        }
        assert LinkOk(i - 1);
        b := b.prev;
        i := i - 1;
      }
      VictimIs(c.slots, i);
      b := null;
    }

    /** brelse by a process for which holdingsleep says `holding`; false stands
        for the panic. */
    method Brelse(b: Buf, ghost k: nat, holding: bool) returns (ok: bool)
      requires Valid() && k < |order| && order[k] == b && b.refcnt > 0
      modifies this`order, this`c, head`prev, head`next, order`prev, order`next, b`refcnt, b`freed
      ensures Valid() && ok == holding && c == if holding then Release(old(c), k) else old(c)
      ensures multiset(order) == multiset(old(order))
      ensures ok ==> b.refcnt == old(b.refcnt) - 1 && (b.refcnt == 0 ==> order[0] == b)
      ensures !ok || b.refcnt > 0 ==> order == old(order)
    {
      if !holding {
        return false;
      }
      ok := true;
      b.refcnt := b.refcnt - 1;
      if b.refcnt == 0 {
        b.freed := c.clock;
        Retire(b, k);
      } else {
        Update(b, k);
      }
    }

    /** Every buffer but possibly number k is as recorded. */
    ghost predicate ValidBut(k: nat)
      reads this, head, order
    {
      && Linked() && |order| == |c.slots|
      && forall i :: 0 <= i < |order| && i != k ==> order[i].View() == c.slots[i]
    }

    /** Records what has become of buffer k. */
    ghost method Update(b: Buf, k: nat)
      requires ValidBut(k) && k < |order| && order[k] == b
      modifies this`c
      ensures Valid() && c == old(c).(slots := old(c).slots[k := b.View()])
    {
      c := c.(slots := c.slots[k := b.View()]);
    }

    /** The branch of brelse for a buffer nobody waits for any more. */
    method Retire(b: Buf, ghost k: nat)
      requires ValidBut(k) && k < |order| && order[k] == b
      modifies this`order, this`c, head`prev, head`next, order`prev, order`next
      ensures Valid() && multiset(order) == multiset(old(order)) && order[0] == b
      ensures c == Cache(MoveToFront(old(c).slots, k, b.View()), old(c).clock + 1)
    {
      ToFront(b, k);
      c := Cache(MoveToFront(c.slots, k, b.View()), c.clock + 1);
      forall i | 0 <= i < |order| ensures |c.slots| == |order| && order[i].View() == c.slots[i] {
        MovedFrom(old(c).slots, k, b.View(), i);
      }
    }

    method ToFront(b: Buf, ghost k: nat)
      requires Linked() && k < |order| && order[k] == b
      modifies this`order, head`prev, head`next, order`prev, order`next
      ensures Linked() && |order| == |old(order)| && order[0] == b
      ensures forall i :: 1 <= i < |order| ==> order[i] == old(order)[if i <= k then i - 1 else i]
      ensures multiset(order) == multiset(old(order))
    {
      assert order == order[..k] + [b] + order[k + 1..];
      Unlink(b, k);
      PushFront(b);
    }

    method Bpin(b: Buf, ghost k: nat)
      requires Valid() && k < |order| && order[k] == b
      modifies this`c, b`refcnt
      ensures Valid() && c == Pin(old(c), k) && b.refcnt == old(b.refcnt) + 1
    {
      b.refcnt := b.refcnt + 1;
      c := Pin(c, k);
    }

    method Bunpin(b: Buf, ghost k: nat)
      requires Valid() && k < |order| && order[k] == b && b.refcnt > 0
      modifies this`c, b`refcnt, b`freed
      ensures Valid() && c == Unpin(old(c), k) && b.refcnt == old(b.refcnt) - 1
    {
      b.refcnt := b.refcnt - 1;
      if b.refcnt == 0 {
        b.freed := c.clock;
      }
      c := Unpin(c, k);
    }
  }
}
