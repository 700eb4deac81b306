/** The virtio disk queue: descriptors, the two rings with their 16-bit
    indices, and the protocol between driver, device and interrupt handler. */
module VirtioQueue {
  import opened Wrappers

  const NUM: nat := 8
  const IDX: nat := 0x1_0000     // ring indices are uint16

  type Head = nat                // descriptor number
  type Buf = nat                 // which struct buf
  type Block = nat               // contents of one block

  datatype Addr = Null | Op(i: nat) | Data(b: Buf) | Status(i: nat)

  /** `write` and `chained` are the two flag bits. */
  datatype Desc = Desc(addr: Addr, len: nat, write: bool, chained: bool, next: nat)
  datatype BlkReq = BlkReq(out: bool, sector: nat)
  datatype Info = Info(b: Option<Buf>, status: nat)

  /** The memory the driver shares with the device, and its own bookkeeping;
      `seen` is disk.used_idx and `disk[b]` is b->disk. */
  datatype Mem = Mem(free: seq<bool>, desc: seq<Desc>, ops: seq<BlkReq>, info: seq<Info>, availRing: seq<nat>,
                     availIdx: nat, usedRing: seq<nat>, usedIdx: nat, seen: nat, disk: seq<bool>)
  {
    ghost predicate WellSized() {
      |free| == |desc| == |ops| == |info| == |availRing| == |usedRing| == NUM
    }
  }

  function ZeroDesc(): Desc { Desc(Null, 0, false, false, 0) }

  /** The product is taken in 32 bits before it is widened. */
  function SectorOf(blockno: nat): nat { (blockno * 2) % UINT }

  /** Two blocks share a sector exactly when they differ by a multiple of 2^31,
      and the sector is twice the block number exactly below 2^31. */
  lemma SectorsApart(a: nat, b: nat)
    ensures SectorOf(a) == SectorOf(b) <==> a % (UINT / 2) == b % (UINT / 2)
    ensures SectorOf(a) == 2 * a <==> a < UINT / 2
  {
    TwiceMod(a);
    TwiceMod(b);
  }

  lemma TwiceMod(a: nat)
    ensures SectorOf(a) == 2 * (a % (UINT / 2))
  {
    var q, r := a / (UINT / 2), a % (UINT / 2);
    assert 2 * a == UINT * q + 2 * r;
    WrapMultiple(2 * r, q);
  }

  lemma WrapMultiple(n: nat, q: nat)
    requires n < UINT
    ensures (UINT * q + n) % UINT == n
  {
  }

  /** The lowest free descriptor from i on, or NUM. */
  function LowestFree(free: seq<bool>, i: nat): (r: nat)
    requires i <= |free| == NUM
    ensures i <= r <= NUM
    ensures r < NUM ==> free[r]
    ensures forall k :: i <= k < r ==> !free[k]
    decreases NUM - i
  {
    if i == NUM || free[i] then i else LowestFree(free, i + 1)
  }

  datatype Triple = Triple(a: Head, b: Head, c: Head)

  /** The three descriptors alloc3_desc takes. */
  function ThreeFree(free: seq<bool>): (r: Option<Triple>)
    requires |free| == NUM
    ensures r.Some? ==>
              && r.value.a < NUM && r.value.b < NUM && r.value.c < NUM
              && r.value.a != r.value.b && r.value.a != r.value.c && r.value.b != r.value.c
              && free[r.value.a] && free[r.value.b] && free[r.value.c]
  {
    var a := LowestFree(free, 0);
    if a == NUM then None else
    var b := LowestFree(free[a := false], 0);
    if b == NUM then None else
    var c := LowestFree(free[a := false][b := false], 0);
    if c == NUM then None else Some(Triple(a, b, c))
  }

  /** alloc3_desc fails exactly when fewer than three descriptors are free. */
  lemma NoThreeFree(free: seq<bool>, t: Triple)
    requires |free| == NUM && t.a < NUM && t.b < NUM && t.c < NUM && t.a != t.b && t.a != t.c && t.b != t.c
    requires free[t.a] && free[t.b] && free[t.c]
    ensures ThreeFree(free).Some?
  {
    var a := LowestFree(free, 0);
    assert a != NUM;
    var f := free[a := false];
    assert f[t.a] || f[t.b];
    var b := LowestFree(f, 0);
    var g := f[b := false];
    assert g[t.a] || g[t.b] || g[t.c];
  }

  predicate TripleOk(t: Triple) {
    t.a < NUM && t.b < NUM && t.c < NUM && t.a != t.b && t.a != t.c && t.b != t.c
  }

  /** virtio_disk_rw from the allocated descriptors to the ring entry. */
  function Format(m: Mem, t: Triple, b: Buf, write: bool, blockno: nat): Mem
    requires m.WellSized() && TripleOk(t) && b < |m.disk|
  {
    m.(free := m.free[t.a := false][t.b := false][t.c := false],
       ops := m.ops[t.a := BlkReq(write, SectorOf(blockno))],
       desc := m.desc[t.a := Desc(Op(t.a), 16, false, true, t.b)]
                     [t.b := Desc(Data(b), 1024, !write, true, t.c)]
                     [t.c := Desc(Status(t.a), 1, true, false, 0)],
       info := m.info[t.a := Info(Some(b), 0xff)],
       disk := m.disk[b := true],
       availRing := m.availRing[m.availIdx % NUM := t.a])
  }

  function Publish(m: Mem): Mem {
    m.(availIdx := (m.availIdx + 1) % IDX)
  }

  /** The used-ring entry the interrupt handler looks at next is usable. */
  predicate Reapable(m: Mem)
    requires m.WellSized()
  {
    var id := m.usedRing[m.seen % NUM];
    id < NUM && m.info[id].b.Some? && m.info[id].b.value < |m.disk|
  }

  /** One iteration of virtio_disk_intr's loop on a successful request. */
  function ReapOne(m: Mem): Mem
    requires m.WellSized() && Reapable(m)
  {
    m.(disk := m.disk[m.info[m.usedRing[m.seen % NUM]].b.value := false], seen := (m.seen + 1) % IDX)
  }

  /** A chain of three descriptors starting at h, none of them free. */
  predicate ChainAt(m: Mem, t: Triple)
    requires m.WellSized()
  {
    && TripleOk(t) && !m.free[t.a] && !m.free[t.b] && !m.free[t.c]
    && m.desc[t.a].chained && m.desc[t.a].next == t.b
    && m.desc[t.b].chained && m.desc[t.b].next == t.c && !m.desc[t.c].chained
  }

  /** The end of virtio_disk_rw: forget the buffer and free the chain. */
  function Release(m: Mem, t: Triple): Mem
    requires m.WellSized() && TripleOk(t)
  {
    m.(info := m.info[t.a := m.info[t.a].(b := None)],
       desc := m.desc[t.a := ZeroDesc()][t.b := ZeroDesc()][t.c := ZeroDesc()],
       free := m.free[t.a := true][t.b := true][t.c := true])
  }

  // ----- the protocol -----

  datatype Phase = Prepared | Avail | InDevice | Used | Done

  datatype Req = Req(b: Buf, write: bool, blockno: nat, t: Triple, serial: nat, phase: Phase)

  /** Bookkeeping around the memory: the request each chain head stands for,
      which chain owns a descriptor and which head a buffer is waiting for, the
      heads published but not taken and completed but not seen, and the
      unbounded counterparts of the ring indices.  `served` and `cleared` list
      the requests the device has performed and whose b->disk was cleared. */
  datatype State = State(m: Mem, req: seq<Option<Req>>, owner: seq<Option<Head>>, waiting: seq<Option<Head>>,
                         preparing: Option<Head>, availQ: seq<Head>, usedQ: seq<Head>, taken: nat, seen: nat,
                         devIdx: nat, next: nat, served: seq<nat>, cleared: seq<nat>,
                         media: map<nat, Block>, data: seq<Block>, panicked: bool)

  datatype Step =
    | Prepare(b: Buf, write: bool, blockno: nat) | Announce | Take | Complete(h: Head) | Reap | Finish(h: Head)
    | Modify(b: Buf, block: Block)

  ghost predicate WellSized(s: State) {
    s.m.WellSized() && |s.req| == |s.owner| == NUM && |s.waiting| == |s.data| == |s.m.disk|
  }

  /** Everything but the device runs under vdisk_lock; `preparing` is the head
      whose ring entry is written but not announced, with the lock held. */
  ghost predicate DriverStep(s: State, step: Step, s': State)
    requires WellSized(s)
  {
    match step
    case Prepare(b, write, blockno) =>
      // the caller holds b's sleeplock, so b has no request of its own yet
      && s.preparing.None? && b < |s.m.disk| && s.waiting[b].None?
      && var t := ThreeFree(s.m.free);
         && t.Some? && var t := t.value;
         s' == s.(m := Format(s.m, t, b, write, blockno), preparing := Some(t.a), next := s.next + 1,
                  req := s.req[t.a := Some(Req(b, write, blockno, t, s.next, Prepared))],
                  owner := s.owner[t.a := Some(t.a)][t.b := Some(t.a)][t.c := Some(t.a)],
                  waiting := s.waiting[b := Some(t.a)])
    case Announce =>
      && s.preparing.Some? && s.preparing.value < NUM && s.req[s.preparing.value].Some?
      && var h := s.preparing.value;
         s' == s.(m := Publish(s.m), preparing := None, availQ := s.availQ + [h],
                  req := s.req[h := Some(s.req[h].value.(phase := Avail))])
    case Finish(h) =>
      // virtio_disk_rw has seen b->disk == 0
      && s.preparing.None? && h < NUM && s.req[h].Some?
      && var r := s.req[h].value;
         && r.b < |s.m.disk| && !s.m.disk[r.b] && TripleOk(r.t) && r.t.a == h
         && s' == s.(m := Release(s.m, r.t), req := s.req[h := None],
                     owner := s.owner[r.t.a := None][r.t.b := None][r.t.c := None],
                     waiting := s.waiting[r.b := None])
    case Modify(b, block) => b < |s.data| && s.waiting[b].None? && s' == s.(data := s.data[b := block])
    case _ => false
  }

  ghost predicate ReapStep(s: State, step: Step, s': State)
    requires WellSized(s)
  {
    && step.Reap? && s.preparing.None? && s.m.seen != s.m.usedIdx && Reapable(s.m)
    && var id := s.m.usedRing[s.m.seen % NUM];
       if s.m.info[id].status != 0 then s' == s.(panicked := true)
       else
         && s.req[id].Some? && s.usedQ != []
         && s' == s.(m := ReapOne(s.m), usedQ := s.usedQ[1..], seen := s.seen + 1,
                     cleared := s.cleared + [s.req[id].value.serial],
                     req := s.req[id := Some(s.req[id].value.(phase := Done))])
  }

  /** What the device reads out of memory for head h. */
  predicate Readable(m: Mem, h: Head)
    requires m.WellSized()
  {
    && h < NUM && m.desc[h].chained && m.desc[h].next < NUM && m.desc[h].addr.Op? && m.desc[h].addr.i < NUM
    && var d := m.desc[m.desc[h].next];
       && d.chained && d.next < NUM && d.addr.Data? && d.addr.b < |m.disk|
       && var e := m.desc[d.next];
          !e.chained && e.write && e.addr.Status? && e.addr.i < NUM
  }

  /** The device takes announced chains in order and completes them in any. */
  ghost predicate DeviceStep(s: State, step: Step, s': State)
    requires WellSized(s)
  {
    match step
    case Take =>
      && s.devIdx != s.m.availIdx && s.availQ != []
      && var h := s.m.availRing[s.devIdx % NUM];
         && h < NUM && s.req[h].Some?
         && s' == s.(devIdx := (s.devIdx + 1) % IDX, taken := s.taken + 1, availQ := s.availQ[1..],
                     req := s.req[h := Some(s.req[h].value.(phase := InDevice))])
    case Complete(h) =>
      && h < NUM && s.req[h].Some? && s.req[h].value.phase.InDevice? && Readable(s.m, h)
      && var m := s.m;
         var op := m.ops[m.desc[h].addr.i];
         var d := m.desc[m.desc[h].next];
         var st := m.desc[d.next].addr.i;
         var ok := op.sector in s.media;
         s' == s.(m := m.(info := m.info[st := m.info[st].(status := if ok then 0 else 1)],
                          usedRing := m.usedRing[m.usedIdx % NUM := h], usedIdx := (m.usedIdx + 1) % IDX),
                  media := if ok && op.out then s.media[op.sector := s.data[d.addr.b]] else s.media,
                  data := if ok && !op.out && d.write then s.data[d.addr.b := s.media[op.sector]] else s.data,
                  usedQ := s.usedQ + [h], served := s.served + [s.req[h].value.serial],
                  req := s.req[h := Some(s.req[h].value.(phase := Used))])
    case _ => false
  }

  ghost predicate Next(s: State, step: Step, s': State)
    requires WellSized(s)
  {
    !s.panicked && (DriverStep(s, step, s') || ReapStep(s, step, s') || DeviceStep(s, step, s'))
  }

  /** virtio_disk_init. */
  ghost predicate Init(s: State) {
    && WellSized(s) && s.preparing.None? && s.availQ == s.usedQ == [] && s.taken == s.seen == s.devIdx == s.next == 0
    && s.m.availIdx == s.m.usedIdx == s.m.seen == 0 && s.served == s.cleared == [] && !s.panicked
    && (forall i :: 0 <= i < NUM ==> s.m.free[i] && s.m.desc[i] == ZeroDesc() && s.req[i].None? && s.owner[i].None?)
    && (forall b :: 0 <= b < |s.m.disk| ==> !s.m.disk[b] && s.waiting[b].None?)
  }

  // ----- the invariant -----

  /** The chain at h says exactly what request r asks for. */
  predicate Encodes(m: Mem, r: Req)
    requires m.WellSized() && TripleOk(r.t)
  {
    && m.desc[r.t.a] == Desc(Op(r.t.a), 16, false, true, r.t.b)
    && m.desc[r.t.b] == Desc(Data(r.b), 1024, !r.write, true, r.t.c)
    && m.desc[r.t.c] == Desc(Status(r.t.a), 1, true, false, 0)
    && m.ops[r.t.a] == BlkReq(r.write, SectorOf(r.blockno))
    && m.info[r.t.a].b == Some(r.b)
  }

  ghost predicate HeadOk(s: State, h: Head)
    requires WellSized(s) && h < NUM
  {
    s.req[h].Some? ==>
      var r := s.req[h].value;
      && TripleOk(r.t) && r.t.a == h && Encodes(s.m, r)
      && s.owner[h] == Some(h) && s.owner[r.t.b] == Some(h) && s.owner[r.t.c] == Some(h)
      && r.b < |s.m.disk| && s.waiting[r.b] == Some(h)
      && s.m.disk[r.b] == !r.phase.Done?
      && (r.phase.Used? ==> (s.m.info[h].status == 0 <==> SectorOf(r.blockno) in s.media))
      && (r.phase.Prepared? <==> s.preparing == Some(h))
      && (r.phase.Avail? <==> h in s.availQ) && (r.phase.Used? <==> h in s.usedQ)
      && r.serial < s.next
      && (r.phase.Used? || r.phase.Done? <==> r.serial in s.served)
      && (r.phase.Done? <==> r.serial in s.cleared)
  }

  /** A descriptor is free, or in the chain of exactly the head that owns it. */
  ghost predicate DescOk(s: State, i: nat)
    requires WellSized(s) && i < NUM
  {
    && (s.m.free[i] <==> s.owner[i].None?)
    && (s.m.free[i] ==> s.m.desc[i] == ZeroDesc())
    && (s.req[i].Some? ==> s.owner[i] == Some(i))
    && (s.owner[i].Some? ==>
          var h := s.owner[i].value;
          h < NUM && s.req[h].Some? && i in {s.req[h].value.t.a, s.req[h].value.t.b, s.req[h].value.t.c})
  }

  ghost predicate BufOk(s: State, b: Buf)
    requires WellSized(s) && b < |s.m.disk|
  {
    if s.waiting[b].None? then !s.m.disk[b]
    else s.waiting[b].value < NUM && s.req[s.waiting[b].value].Some? && s.req[s.waiting[b].value].value.b == b
  }

  predicate Distinct(q: seq<nat>) {
    forall i, j :: 0 <= i < j < |q| ==> q[i] != q[j]
  }

  /** Ring entries from counter `from` on are exactly the queue q. */
  predicate Holds(ring: seq<nat>, from: nat, q: seq<Head>)
    requires |ring| == NUM
  {
    forall i :: 0 <= i < |q| ==> ring[(from + i) % NUM] == q[i]
  }

  /** A ring whose producer and consumer indices delimit the queue q of heads,
      counted without wrapping from `from` on. */
  ghost predicate QueueOk(ring: seq<nat>, producer: nat, consumer: nat, from: nat, q: seq<Head>)
    requires |ring| == NUM
  {
    && Distinct(q) && (forall h :: h in q ==> h < NUM) && Holds(ring, from, q)
    && producer == (from + |q|) % IDX && consumer == from % IDX
  }

  ghost predicate QueuesOk(s: State)
    requires WellSized(s)
  {
    && QueueOk(s.m.availRing, s.m.availIdx, s.devIdx, s.taken, s.availQ)
    && QueueOk(s.m.usedRing, s.m.usedIdx, s.m.seen, s.seen, s.usedQ)
    && (forall h :: h in s.availQ ==> s.req[h].Some?) && (forall h :: h in s.usedQ ==> s.req[h].Some?)
    && (s.preparing.Some? ==>
          && s.preparing.value < NUM && s.req[s.preparing.value].Some?
          && s.m.availRing[(s.taken + |s.availQ|) % NUM] == s.preparing.value)
  }

  ghost predicate SerialsOk(s: State)
    requires WellSized(s)
  {
    && Distinct(s.served) && Distinct(s.cleared)
    && (forall n :: n in s.served ==> n < s.next)
    && (forall n :: n in s.cleared ==> n in s.served)
    && (forall g, h :: 0 <= g < h < NUM && s.req[g].Some? && s.req[h].Some? ==>
          s.req[g].value.serial != s.req[h].value.serial)
  }

  ghost predicate Inv(s: State) {
    && WellSized(s)
    && (forall h :: 0 <= h < NUM ==> HeadOk(s, h))
    && (forall i :: 0 <= i < NUM ==> DescOk(s, i))
    && (forall b :: 0 <= b < |s.m.disk| ==> BufOk(s, b))
    && QueuesOk(s) && SerialsOk(s)
  }

  // ----- ring arithmetic -----

  lemma {:induction false} DistinctIsShort(q: seq<nat>, n: nat)
    requires Distinct(q) && forall h :: h in q ==> h < n
    ensures |q| <= n
  {
    if q != [] {
      assert q[0] in q;
      if n - 1 in q {
        var k :| 0 <= k < |q| && q[k] == n - 1;
        var rest := q[..k] + q[k + 1..];
        forall h | h in rest ensures h < n - 1 {
          assert h in q;
        }
        DistinctIsShort(rest, n - 1);
      } else {
        DistinctIsShort(q, n - 1);
      }
    }
  }

  /** With a head outside it, a queue leaves a ring slot over. */
  lemma RoomInRing(q: seq<nat>, h: Head)
    requires Distinct(q) && (forall g :: g in q ==> g < NUM) && h < NUM && h !in q
    ensures |q| < NUM
  {
    var p := q + [h];
    DistinctIsShort(p, NUM);
  }

  lemma SlotMultiple(n: nat, q: nat)
    ensures (NUM * q + n) % NUM == n % NUM
  {
  }

  lemma SlotOfIdx(n: nat)
    ensures (n % IDX) % NUM == n % NUM
  {
    var q, r := n / IDX, n % IDX;
    assert n == NUM * (8192 * q) + r;
    SlotMultiple(r, 8192 * q);
  }

  /** Comparing wrapped indices tells an empty queue from a non-empty one. */
  lemma IdxTellsEmpty(from: nat, k: nat)
    requires k <= NUM
    ensures (from + k) % IDX == from % IDX <==> k == 0
  {
  }

  lemma SlotsApart(from: nat, i: nat, j: nat)
    requires i < j < i + NUM
    ensures (from + i) % NUM != (from + j) % NUM
  {
  }

  lemma HoldsPush(ring: seq<nat>, from: nat, q: seq<Head>, h: Head)
    requires |ring| == NUM && Holds(ring, from, q) && |q| < NUM
    ensures Holds(ring[(from + |q|) % NUM := h], from, q)
    ensures Holds(ring[(from + |q|) % NUM := h], from, q + [h])
  {
    var ring' := ring[(from + |q|) % NUM := h];
    forall i | 0 <= i < |q| ensures ring'[(from + i) % NUM] == q[i] {
      SlotsApart(from, i, |q|);
    }
  }

  lemma HoldsPop(ring: seq<nat>, from: nat, q: seq<Head>)
    requires |ring| == NUM && Holds(ring, from, q) && q != []
    ensures Holds(ring, from + 1, q[1..]) && ring[from % NUM] == q[0]
  {
    assert ring[(from + 0) % NUM] == q[0];
    forall i | 0 <= i < |q[1..]| ensures ring[(from + 1 + i) % NUM] == q[1..][i] {
      assert ring[(from + (i + 1)) % NUM] == q[i + 1];
    }
  }

  /** Appending a head that is not queued never overwrites a queued one. */
  lemma QueuePush(ring: seq<nat>, producer: nat, consumer: nat, from: nat, q: seq<Head>, h: Head)
    requires |ring| == NUM && QueueOk(ring, producer, consumer, from, q) && h < NUM && h !in q
    ensures producer % NUM == (from + |q|) % NUM
    ensures QueueOk(ring[producer % NUM := h], producer, consumer, from, q)
    ensures QueueOk(ring[producer % NUM := h], (producer + 1) % IDX, consumer, from, q + [h])
  {
    RoomInRing(q, h);
    SlotOfIdx(from + |q|);
    HoldsPush(ring, from, q, h);
    IdxStep(from + |q|);
  }

  lemma IdxStep(n: nat)
    ensures (n % IDX + 1) % IDX == (n + 1) % IDX
  {
  }

  lemma QueuePop(ring: seq<nat>, producer: nat, consumer: nat, from: nat, q: seq<Head>)
    requires |ring| == NUM && QueueOk(ring, producer, consumer, from, q) && q != []
    ensures ring[consumer % NUM] == q[0] && q[0] !in q[1..]
    ensures QueueOk(ring, producer, (consumer + 1) % IDX, from + 1, q[1..])
  {
    SlotOfIdx(from);
    HoldsPop(ring, from, q);
    IdxStep(from);
    forall h | h in q[1..] ensures h < NUM {
      assert h in q;
    }
  }

  /** Comparing the wrapped indices tells whether the queue is empty. */
  lemma QueueEmpty(ring: seq<nat>, producer: nat, consumer: nat, from: nat, q: seq<Head>)
    requires |ring| == NUM && QueueOk(ring, producer, consumer, from, q)
    ensures producer == consumer <==> q == []
  {
    DistinctIsShort(q, NUM);
    IdxTellsEmpty(from, |q|);
  }

  predicate TriplesApart(t: Triple, u: Triple) {
    && t.a != u.a && t.a != u.b && t.a != u.c && t.b != u.a && t.b != u.b && t.b != u.c
    && t.c != u.a && t.c != u.b && t.c != u.c
  }

  /** Formatting one chain leaves the others as they are. */
  lemma FormatKeeps(m: Mem, t: Triple, b: Buf, write: bool, blockno: nat, r: Req)
    requires m.WellSized() && TripleOk(t) && b < |m.disk| && TripleOk(r.t) && TriplesApart(t, r.t) && Encodes(m, r)
    ensures Encodes(Format(m, t, b, write, blockno), r)
    ensures Format(m, t, b, write, blockno).info[r.t.a] == m.info[r.t.a]
  {
  }

  lemma FreeIsApart(s: State, t: Triple, h: Head)
    requires WellSized(s) && TripleOk(t) && s.m.free[t.a] && s.m.free[t.b] && s.m.free[t.c]
    requires h < NUM && s.req[h].Some? && HeadOk(s, h) && DescOk(s, t.a) && DescOk(s, t.b) && DescOk(s, t.c)
    ensures TriplesApart(t, s.req[h].value.t)
  {
  }

  lemma PrepareOldHead(s: State, step: Step, s': State, h: Head)
    requires WellSized(s) && h < NUM && HeadOk(s, h) && step.Prepare? && DriverStep(s, step, s')
    requires h != ThreeFree(s.m.free).value.a
    requires s.req[h].Some? ==> TriplesApart(ThreeFree(s.m.free).value, s.req[h].value.t)
    ensures WellSized(s') && HeadOk(s', h)
  {
    if s.req[h].Some? {
      FormatKeeps(s.m, ThreeFree(s.m.free).value, step.b, step.write, step.blockno, s.req[h].value);
    }
  }

  lemma PrepareNewHead(s: State, step: Step, s': State)
    requires WellSized(s) && step.Prepare? && DriverStep(s, step, s') && DescOk(s, ThreeFree(s.m.free).value.a)
    requires QueuesOk(s) && SerialsOk(s)
    ensures WellSized(s') && HeadOk(s', ThreeFree(s.m.free).value.a)
  {
    var h := ThreeFree(s.m.free).value.a;
    assert s.req[h].None? && h !in s.availQ && h !in s.usedQ;
    assert s.next !in s.served && s.next !in s.cleared;
  }

  lemma PrepareHeads(s: State, step: Step, s': State)
    requires Inv(s) && step.Prepare? && DriverStep(s, step, s')
    ensures WellSized(s') && forall h :: 0 <= h < NUM ==> HeadOk(s', h)
  {
    var t := ThreeFree(s.m.free).value;
    assert DescOk(s, t.a) && DescOk(s, t.b) && DescOk(s, t.c);
    forall h | 0 <= h < NUM ensures HeadOk(s', h) {
      if h == t.a {
        PrepareNewHead(s, step, s');
      } else {
        assert HeadOk(s, h);
        if s.req[h].Some? {
          FreeIsApart(s, t, h);
        }
        PrepareOldHead(s, step, s', h);
      }
    }
  }

  lemma PrepareDescs(s: State, step: Step, s': State)
    requires Inv(s) && step.Prepare? && DriverStep(s, step, s') && WellSized(s')
    ensures forall i :: 0 <= i < NUM ==> DescOk(s', i)
  {
    var t := ThreeFree(s.m.free).value;
    assert DescOk(s, t.a) && DescOk(s, t.b) && DescOk(s, t.c);
    forall i | 0 <= i < NUM ensures DescOk(s', i) {
      assert DescOk(s, i);
      PrepareDesc(s, step, s', i);
    }
  }

  lemma PrepareDesc(s: State, step: Step, s': State, i: nat)
    requires WellSized(s) && step.Prepare? && DriverStep(s, step, s') && WellSized(s') && i < NUM && DescOk(s, i)
    requires DescOk(s, ThreeFree(s.m.free).value.a)
    ensures DescOk(s', i)
  {
  }

  lemma PrepareBufs(s: State, step: Step, s': State)
    requires Inv(s) && step.Prepare? && DriverStep(s, step, s') && WellSized(s')
    ensures forall b :: 0 <= b < |s'.m.disk| ==> BufOk(s', b)
  {
    var t := ThreeFree(s.m.free).value;
    assert DescOk(s, t.a);
    forall b | 0 <= b < |s'.m.disk| ensures BufOk(s', b) {
      assert BufOk(s, b);
    }
  }

  lemma PrepareQueues(s: State, step: Step, s': State)
    requires Inv(s) && step.Prepare? && DriverStep(s, step, s') && WellSized(s')
    ensures QueuesOk(s') && SerialsOk(s')
  {
    var t := ThreeFree(s.m.free).value;
    assert DescOk(s, t.a) && DescOk(s, t.b) && DescOk(s, t.c);
    QueuePush(s.m.availRing, s.m.availIdx, s.devIdx, s.taken, s.availQ, t.a);
    forall g | 0 <= g < NUM && s.req[g].Some? ensures s.req[g].value.serial < s.next {
      assert HeadOk(s, g);
    }
  }

  lemma AnnounceHeads(s: State, step: Step, s': State)
    requires Inv(s) && step.Announce? && DriverStep(s, step, s')
    ensures WellSized(s') && forall h :: 0 <= h < NUM ==> HeadOk(s', h)
  {
    assert HeadOk(s, s.preparing.value);
    forall h | 0 <= h < NUM ensures HeadOk(s', h) {
      assert HeadOk(s, h);
    }
  }

  lemma AnnounceDescs(s: State, step: Step, s': State)
    requires Inv(s) && step.Announce? && DriverStep(s, step, s') && WellSized(s')
    ensures forall i :: 0 <= i < NUM ==> DescOk(s', i)
    ensures forall b :: 0 <= b < |s'.m.disk| ==> BufOk(s', b)
  {
    assert HeadOk(s, s.preparing.value);
    forall i | 0 <= i < NUM ensures DescOk(s', i) {
      assert DescOk(s, i);
    }
    forall b | 0 <= b < |s'.m.disk| ensures BufOk(s', b) {
      assert BufOk(s, b);
    }
  }

  lemma AnnounceQueues(s: State, step: Step, s': State)
    requires Inv(s) && step.Announce? && DriverStep(s, step, s') && WellSized(s')
    ensures QueuesOk(s') && SerialsOk(s')
  {
    assert HeadOk(s, s.preparing.value);
    QueuePush(s.m.availRing, s.m.availIdx, s.devIdx, s.taken, s.availQ, s.preparing.value);
    assert s.m.availRing[s.m.availIdx % NUM := s.preparing.value] == s.m.availRing;
  }

  lemma FinishHeads(s: State, step: Step, s': State)
    requires Inv(s) && step.Finish? && DriverStep(s, step, s')
    ensures WellSized(s') && forall h :: 0 <= h < NUM ==> HeadOk(s', h)
  {
    assert HeadOk(s, step.h);
    var r := s.req[step.h].value;
    forall h | 0 <= h < NUM ensures HeadOk(s', h) {
      assert HeadOk(s, h);
    }
  }

  lemma FinishDescs(s: State, step: Step, s': State)
    requires Inv(s) && step.Finish? && DriverStep(s, step, s') && WellSized(s')
    ensures forall i :: 0 <= i < NUM ==> DescOk(s', i)
    ensures forall b :: 0 <= b < |s'.m.disk| ==> BufOk(s', b)
  {
    assert HeadOk(s, step.h);
    var r := s.req[step.h].value;
    forall i | 0 <= i < NUM ensures DescOk(s', i) {
      assert DescOk(s, i);
    }
    forall b | 0 <= b < |s'.m.disk| ensures BufOk(s', b) {
      assert BufOk(s, b);
    }
  }

  lemma FinishQueues(s: State, step: Step, s': State)
    requires Inv(s) && step.Finish? && DriverStep(s, step, s') && WellSized(s')
    ensures QueuesOk(s') && SerialsOk(s')
  {
    assert HeadOk(s, step.h);
    var r := s.req[step.h].value;
  }

  lemma TakeHeads(s: State, step: Step, s': State)
    requires Inv(s) && step.Take? && DeviceStep(s, step, s')
    ensures WellSized(s') && forall h :: 0 <= h < NUM ==> HeadOk(s', h)
  {
    QueuePop(s.m.availRing, s.m.availIdx, s.devIdx, s.taken, s.availQ);
    assert HeadOk(s, s.availQ[0]);
    forall h | 0 <= h < NUM ensures HeadOk(s', h) {
      assert HeadOk(s, h);
    }
  }

  lemma TakeDescs(s: State, step: Step, s': State)
    requires Inv(s) && step.Take? && DeviceStep(s, step, s') && WellSized(s')
    ensures forall i :: 0 <= i < NUM ==> DescOk(s', i)
    ensures forall b :: 0 <= b < |s'.m.disk| ==> BufOk(s', b)
  {
    QueuePop(s.m.availRing, s.m.availIdx, s.devIdx, s.taken, s.availQ);
    assert HeadOk(s, s.availQ[0]);
    forall i | 0 <= i < NUM ensures DescOk(s', i) {
      assert DescOk(s, i);
    }
    forall b | 0 <= b < |s'.m.disk| ensures BufOk(s', b) {
      assert BufOk(s, b);
    }
  }

  lemma TakeQueues(s: State, step: Step, s': State)
    requires Inv(s) && step.Take? && DeviceStep(s, step, s') && WellSized(s')
    ensures QueuesOk(s') && SerialsOk(s')
  {
    QueuePop(s.m.availRing, s.m.availIdx, s.devIdx, s.taken, s.availQ);
    assert HeadOk(s, s.availQ[0]);
  }

  lemma CompleteHeads(s: State, step: Step, s': State)
    requires Inv(s) && step.Complete? && DeviceStep(s, step, s')
    ensures WellSized(s') && forall h :: 0 <= h < NUM ==> HeadOk(s', h)
  {
    assert HeadOk(s, step.h);
    forall h | 0 <= h < NUM ensures HeadOk(s', h) {
      assert HeadOk(s, h);
    }
  }

  lemma CompleteDescs(s: State, step: Step, s': State)
    requires Inv(s) && step.Complete? && DeviceStep(s, step, s') && WellSized(s')
    ensures forall i :: 0 <= i < NUM ==> DescOk(s', i)
    ensures forall b :: 0 <= b < |s'.m.disk| ==> BufOk(s', b)
  {
    assert HeadOk(s, step.h);
    forall i | 0 <= i < NUM ensures DescOk(s', i) {
      assert DescOk(s, i);
    }
    forall b | 0 <= b < |s'.m.disk| ensures BufOk(s', b) {
      assert BufOk(s, b);
    }
  }

  lemma CompleteQueues(s: State, step: Step, s': State)
    requires Inv(s) && step.Complete? && DeviceStep(s, step, s') && WellSized(s')
    ensures QueuesOk(s') && SerialsOk(s')
  {
    assert HeadOk(s, step.h);
    QueuePush(s.m.usedRing, s.m.usedIdx, s.m.seen, s.seen, s.usedQ, step.h);
  }

  lemma ReapHeads(s: State, step: Step, s': State)
    requires Inv(s) && !s.panicked && ReapStep(s, step, s')
    ensures WellSized(s') && forall h :: 0 <= h < NUM ==> HeadOk(s', h)
  {
    QueueEmpty(s.m.usedRing, s.m.usedIdx, s.m.seen, s.seen, s.usedQ);
    QueuePop(s.m.usedRing, s.m.usedIdx, s.m.seen, s.seen, s.usedQ);
    assert HeadOk(s, s.usedQ[0]);
    forall h | 0 <= h < NUM ensures HeadOk(s', h) {
      assert HeadOk(s, h);
    }
  }

  lemma ReapDescs(s: State, step: Step, s': State)
    requires Inv(s) && !s.panicked && ReapStep(s, step, s') && WellSized(s')
    ensures forall i :: 0 <= i < NUM ==> DescOk(s', i)
    ensures forall b :: 0 <= b < |s'.m.disk| ==> BufOk(s', b)
  {
    QueueEmpty(s.m.usedRing, s.m.usedIdx, s.m.seen, s.seen, s.usedQ);
    QueuePop(s.m.usedRing, s.m.usedIdx, s.m.seen, s.seen, s.usedQ);
    assert HeadOk(s, s.usedQ[0]);
    forall i | 0 <= i < NUM ensures DescOk(s', i) {
      assert DescOk(s, i);
    }
    forall b | 0 <= b < |s'.m.disk| ensures BufOk(s', b) {
      assert BufOk(s, b);
    }
  }

  lemma ReapQueues(s: State, step: Step, s': State)
    requires Inv(s) && !s.panicked && ReapStep(s, step, s') && WellSized(s')
    ensures QueuesOk(s') && SerialsOk(s')
  {
    QueueEmpty(s.m.usedRing, s.m.usedIdx, s.m.seen, s.seen, s.usedQ);
    QueuePop(s.m.usedRing, s.m.usedIdx, s.m.seen, s.seen, s.usedQ);
    assert HeadOk(s, s.usedQ[0]);
  }

  lemma DriverInv(s: State, step: Step, s': State)
    requires Inv(s) && DriverStep(s, step, s') && !step.Modify?
    ensures Inv(s')
  {
    if step.Prepare? {
      PrepareHeads(s, step, s');
      PrepareDescs(s, step, s');
      PrepareBufs(s, step, s');
      PrepareQueues(s, step, s');
    } else if step.Announce? {
      AnnounceHeads(s, step, s');
      AnnounceDescs(s, step, s');
      AnnounceQueues(s, step, s');
    } else {
      FinishHeads(s, step, s');
      FinishDescs(s, step, s');
      FinishQueues(s, step, s');
    }
  }

  lemma DeviceInv(s: State, step: Step, s': State)
    requires Inv(s) && DeviceStep(s, step, s')
    ensures Inv(s')
  {
    if step.Take? {
      TakeHeads(s, step, s');
      TakeDescs(s, step, s');
      TakeQueues(s, step, s');
    } else {
      CompleteHeads(s, step, s');
      CompleteDescs(s, step, s');
      CompleteQueues(s, step, s');
    }
  }

  lemma ModifyInv(s: State, step: Step, s': State)
    requires Inv(s) && DriverStep(s, step, s') && step.Modify?
    ensures Inv(s')
  {
    forall h | 0 <= h < NUM ensures HeadOk(s', h) && DescOk(s', h) {
      assert HeadOk(s, h) && DescOk(s, h);
    }
    forall b | 0 <= b < |s'.m.disk| ensures BufOk(s', b) {
      assert BufOk(s, b);
    }
  }

  lemma StepInv(s: State, step: Step, s': State)
    requires Inv(s) && Next(s, step, s')
    ensures Inv(s')
  {
    if step.Reap? {
      ReapHeads(s, step, s');
      ReapDescs(s, step, s');
      ReapQueues(s, step, s');
    } else if step.Modify? {
      ModifyInv(s, step, s');
    } else if step.Take? || step.Complete? {
      DeviceInv(s, step, s');
    } else {
      DriverInv(s, step, s');
    }
  }

  // ----- whole runs -----

  ghost predicate Run(states: seq<State>, steps: seq<Step>) {
    && |states| == |steps| + 1 && Init(states[0])
    && forall i :: 0 <= i < |steps| ==> StepAt(states, steps, i)
  }

  ghost predicate StepAt(states: seq<State>, steps: seq<Step>, i: nat)
    requires |states| == |steps| + 1 && i < |steps|
  {
    WellSized(states[i]) && Next(states[i], steps[i], states[i + 1])
  }

  lemma InitInv(s: State)
    requires Init(s)
    ensures Inv(s)
  {
  }

  lemma {:induction false} RunInv(states: seq<State>, steps: seq<Step>, i: nat)
    requires Run(states, steps) && i < |states|
    ensures Inv(states[i])
  {
    if i == 0 {
      InitInv(states[0]);
    } else {
      RunInv(states, steps, i - 1);
      assert StepAt(states, steps, i - 1);
      StepInv(states[i - 1], steps[i - 1], states[i]);
    }
  }

  predicate InChain(s: State, h: Head, i: nat) {
    h < |s.req| && s.req[h].Some? && (i == s.req[h].value.t.a || i == s.req[h].value.t.b || i == s.req[h].value.t.c)
  }

  /** Every descriptor is free or in exactly one three-element chain. */
  lemma FreeOrInOneChain(states: seq<State>, steps: seq<Step>, n: nat, i: nat)
    requires Run(states, steps) && n < |states| && i < NUM
    ensures WellSized(states[n])
    ensures states[n].m.free[i] <==> !exists h :: 0 <= h < NUM && InChain(states[n], h, i)
    ensures forall g, h :: 0 <= g < NUM && 0 <= h < NUM && InChain(states[n], g, i) && InChain(states[n], h, i) ==> g == h
    ensures forall h :: 0 <= h < NUM && InChain(states[n], h, i) ==> ChainAt(states[n].m, states[n].req[h].value.t)
  {
    RunInv(states, steps, n);
    var s := states[n];
    assert DescOk(s, i);
    forall h | 0 <= h < NUM && InChain(s, h, i) ensures s.owner[i] == Some(h) && ChainAt(s.m, s.req[h].value.t) {
      assert HeadOk(s, h);
      var t := s.req[h].value.t;
      assert DescOk(s, t.a) && DescOk(s, t.b) && DescOk(s, t.c);
    }
    if s.owner[i].Some? {
      assert InChain(s, s.owner[i].value, i);
    }
  }

  /** Neither ring is overrun: the entries between the two (wrapping) indices
      are the queued heads, at most NUM of them, and the entry being prepared
      lies outside them. */
  lemma RingsNotOverrun(states: seq<State>, steps: seq<Step>, n: nat)
    requires Run(states, steps) && n < |states|
    ensures WellSized(states[n])
    ensures var s := states[n];
            && |s.availQ| <= NUM && |s.usedQ| <= NUM
            && s.m.availIdx == (s.taken + |s.availQ|) % IDX && s.m.usedIdx == (s.seen + |s.usedQ|) % IDX
            && Holds(s.m.availRing, s.taken, s.availQ) && Holds(s.m.usedRing, s.seen, s.usedQ)
            && (s.preparing.Some? ==> |s.availQ| < NUM)
            && (s.devIdx == s.m.availIdx <==> s.availQ == []) && (s.m.seen == s.m.usedIdx <==> s.usedQ == [])
  {
    RunInv(states, steps, n);
    var s := states[n];
    DistinctIsShort(s.availQ, NUM);
    DistinctIsShort(s.usedQ, NUM);
    if s.preparing.Some? {
      assert HeadOk(s, s.preparing.value);
      RoomInRing(s.availQ, s.preparing.value);
    }
    QueueEmpty(s.m.availRing, s.m.availIdx, s.devIdx, s.taken, s.availQ);
    QueueEmpty(s.m.usedRing, s.m.usedIdx, s.m.seen, s.seen, s.usedQ);
  }

  /** Whatever the interrupt handler does to a used entry, it does to the
      buffer of one request the device has served and that was still waiting;
      it panics exactly when that request's sector is not on the device. */
  lemma ReapClearsOwnBuffer(states: seq<State>, steps: seq<Step>, n: nat)
    requires Run(states, steps) && n < |steps| && steps[n].Reap?
    ensures WellSized(states[n]) && states[n].usedQ != [] && states[n].usedQ[0] < NUM
    ensures states[n].req[states[n].usedQ[0]].Some?
    ensures var s, s' := states[n], states[n + 1]; var r := s.req[s.usedQ[0]].value;
            && r.b < |s.m.disk| && s.m.disk[r.b] && r.serial in s.served && r.serial !in s.cleared
            && (s'.panicked <==> SectorOf(r.blockno) !in s.media)
            && (!s'.panicked ==> s'.m.disk == s.m.disk[r.b := false] && s'.cleared == s.cleared + [r.serial])
  {
    RunInv(states, steps, n);
    assert StepAt(states, steps, n);
    var s := states[n];
    QueueEmpty(s.m.usedRing, s.m.usedIdx, s.m.seen, s.seen, s.usedQ);
    QueuePop(s.m.usedRing, s.m.usedIdx, s.m.seen, s.seen, s.usedQ);
    assert HeadOk(s, s.usedQ[0]);
  }

  /** Each request is served at most once and its flag cleared at most once,
      and never before it was served. */
  lemma ServedAndClearedOnce(states: seq<State>, steps: seq<Step>, n: nat)
    requires Run(states, steps) && n < |states|
    ensures Distinct(states[n].served) && Distinct(states[n].cleared)
    ensures forall k :: k in states[n].cleared ==> k in states[n].served
  {
    RunInv(states, steps, n);
  }

  /** virtio_disk_rw goes on only after its own request was served and cleared,
      and the chain it then frees is allocated, so free_desc does not panic. */
  lemma FinishAfterService(states: seq<State>, steps: seq<Step>, n: nat)
    requires Run(states, steps) && n < |steps| && steps[n].Finish?
    ensures WellSized(states[n]) && steps[n].h < NUM && states[n].req[steps[n].h].Some?
    ensures var s := states[n]; var r := s.req[steps[n].h].value;
            r.serial in s.served && r.serial in s.cleared && ChainAt(s.m, r.t) && r.t.a == steps[n].h
  {
    RunInv(states, steps, n);
    assert StepAt(states, steps, n);
    var s := states[n];
    assert HeadOk(s, steps[n].h);
    var t := s.req[steps[n].h].value.t;
    assert DescOk(s, t.a) && DescOk(s, t.b) && DescOk(s, t.c);
  }

  /** The device finds in memory exactly the transfer that was asked for. */
  lemma DeviceDoesTheRequest(states: seq<State>, steps: seq<Step>, n: nat)
    requires Run(states, steps) && n < |steps| && steps[n].Complete?
    ensures steps[n].h < |states[n].req| && states[n].req[steps[n].h].Some?
    ensures var s, s' := states[n], states[n + 1]; var r := s.req[steps[n].h].value; var sector := SectorOf(r.blockno);
            && |s.data| == |s'.data| && r.b < |s.data|
            && (sector in s.media && r.write ==> s'.media == s.media[sector := s.data[r.b]] && s'.data == s.data)
            && (sector in s.media && !r.write ==> s'.data == s.data[r.b := s.media[sector]] && s'.media == s.media)
            && (sector !in s.media ==> s'.data == s.data && s'.media == s.media)
  {
    RunInv(states, steps, n);
    assert StepAt(states, steps, n);
    assert HeadOk(states[n], steps[n].h);
  }

  /** The protocol never gets a head it cannot use: what the device takes, what
      it then reads, and what the handler looks at are well formed. */
  lemma HeadsAreUsable(states: seq<State>, steps: seq<Step>, n: nat, h: Head)
    requires Run(states, steps) && n < |states| && h < NUM
    ensures WellSized(states[n])
    ensures states[n].m.seen != states[n].m.usedIdx ==> Reapable(states[n].m)
    ensures states[n].req[h].Some? ==> Readable(states[n].m, h)
    ensures states[n].devIdx != states[n].m.availIdx ==>
              var g := states[n].m.availRing[states[n].devIdx % NUM]; g < NUM && states[n].req[g].Some?
  {
    RunInv(states, steps, n);
    var s := states[n];
    assert HeadOk(s, h);
    QueueEmpty(s.m.availRing, s.m.availIdx, s.devIdx, s.taken, s.availQ);
    QueueEmpty(s.m.usedRing, s.m.usedIdx, s.m.seen, s.seen, s.usedQ);
    if s.availQ != [] {
      QueuePop(s.m.availRing, s.m.availIdx, s.devIdx, s.taken, s.availQ);
      assert s.availQ[0] in s.availQ;
    }
    if s.usedQ != [] {
      QueuePop(s.m.usedRing, s.m.usedIdx, s.m.seen, s.seen, s.usedQ);
      assert s.usedQ[0] in s.usedQ && HeadOk(s, s.usedQ[0]);
    }
  }

  // ----- one virtio_disk_rw from beginning to end -----

  /** The transfer that steps[k] asks for. */
  ghost predicate Asks(step: Step, r: Req) {
    step.Prepare? && r.b == step.b && r.write == step.write && r.blockno == step.blockno
  }

  predicate Served(r: Req) { r.phase.Used? || r.phase.Done? }

  /** Between two states the request of head h has not been given up, and the
      data of its buffer are the same. */
  ghost predicate Undisturbed(s: State, s': State, h: Head) {
    && WellSized(s) && WellSized(s') && h < NUM && s.req[h].Some? && s'.req[h].Some?
    && var r, r' := s.req[h].value, s'.req[h].value;
       && r'.b == r.b && r'.write == r.write && r'.blockno == r.blockno && r.b < |s.data| == |s'.data|
       && s'.data[r.b] == s.data[r.b] && (Served(r') <==> Served(r))
       && (r'.phase.Done? ==> r.phase.Done? || SectorOf(r.blockno) in s.media)
       && s'.media.Keys == s.media.Keys
  }

  lemma DriverUndisturbed(s: State, step: Step, s': State, h: Head)
    requires Inv(s) && WellSized(s) && DriverStep(s, step, s') && h < NUM && s.req[h].Some? && step != Finish(h)
    ensures Undisturbed(s, s', h)
  {
    assert HeadOk(s, h);
    if step.Prepare? {
      PrepareUndisturbed(s, step, s', h);
    } else if step.Finish? {
      FinishUndisturbed(s, step, s', h);
    }
  }

  /** A new request takes free descriptors and a buffer with none. */
  lemma PrepareUndisturbed(s: State, step: Step, s': State, h: Head)
    requires Inv(s) && WellSized(s) && DriverStep(s, step, s') && h < NUM && s.req[h].Some? && step.Prepare?
    ensures Undisturbed(s, s', h)
  {
    assert HeadOk(s, h) && DescOk(s, h);
    var t := ThreeFree(s.m.free).value;
    assert t.a != h;
    assert s'.req == s.req[t.a := s'.req[t.a]] && s'.data == s.data && s'.media == s.media;
  }

  lemma FinishUndisturbed(s: State, step: Step, s': State, h: Head)
    requires Inv(s) && WellSized(s) && DriverStep(s, step, s') && h < NUM && s.req[h].Some?
    requires step.Finish? && step.h != h
    ensures Undisturbed(s, s', h)
  {
    assert HeadOk(s, h);
    assert s'.req == s.req[step.h := None] && s'.data == s.data && s'.media == s.media;
  }

  lemma ReapUndisturbed(s: State, step: Step, s': State, h: Head)
    requires Inv(s) && WellSized(s) && ReapStep(s, step, s') && h < NUM && s.req[h].Some?
    ensures Undisturbed(s, s', h)
  {
    QueueEmpty(s.m.usedRing, s.m.usedIdx, s.m.seen, s.seen, s.usedQ);
    QueuePop(s.m.usedRing, s.m.usedIdx, s.m.seen, s.seen, s.usedQ);
    assert s.usedQ[0] in s.usedQ;
    assert HeadOk(s, h) && HeadOk(s, s.usedQ[0]);
  }

  lemma DeviceUndisturbed(s: State, step: Step, s': State, h: Head)
    requires Inv(s) && WellSized(s) && DeviceStep(s, step, s') && h < NUM && s.req[h].Some? && step != Complete(h)
    ensures Undisturbed(s, s', h)
  {
    assert HeadOk(s, h);
    if step.Complete? {
      assert HeadOk(s, step.h);
    } else {
      QueueEmpty(s.m.availRing, s.m.availIdx, s.devIdx, s.taken, s.availQ);
      QueuePop(s.m.availRing, s.m.availIdx, s.devIdx, s.taken, s.availQ);
      assert s.availQ[0] in s.availQ;
    }
  }

  /** How far the request made at step k has come in state j: its buffer is
      as it was handed over, or the transfer was made at step c. */
  ghost predicate Underway(states: seq<State>, steps: seq<Step>, k: nat, j: nat, h: Head, c: nat)
    requires |states| == |steps| + 1
  {
    && k < j < |states| && WellSized(states[k]) && WellSized(states[j]) && h < NUM && states[j].req[h].Some?
    && var r := states[j].req[h].value;
       && Asks(steps[k], r) && r.b < |states[k].data| && r.b < |states[j].data|
       && if Served(r) then
            && k < c < j && steps[c] == Complete(h) && Transferred(states, k, c, j, r)
            && (r.phase.Done? ==> SectorOf(r.blockno) in states[c].media)
          else states[j].data[r.b] == states[k].data[r.b]
  }

  ghost predicate Transferred(states: seq<State>, k: nat, c: nat, j: nat, r: Req)
    requires k < c < j < |states|
  {
    var sector := SectorOf(r.blockno);
    && r.b < |states[k].data| && r.b < |states[j].data| && states[j].media.Keys == states[c].media.Keys
    && (sector in states[c].media ==>
          if r.write then sector in states[c + 1].media && states[c + 1].media[sector] == states[k].data[r.b]
          else states[j].data[r.b] == states[c].media[sector])
  }

  lemma Sized(states: seq<State>, steps: seq<Step>, i: nat)
    requires Run(states, steps) && i < |states|
    ensures WellSized(states[i])
  {
    RunInv(states, steps, i);
  }

  lemma UnderwayStarts(states: seq<State>, steps: seq<Step>, k: nat, h: Head)
    requires Run(states, steps) && k < |steps| && steps[k].Prepare? && WellSized(states[k])
    requires ThreeFree(states[k].m.free).Some? && h == ThreeFree(states[k].m.free).value.a
    ensures Underway(states, steps, k, k + 1, h, 0)
  {
    Sized(states, steps, k + 1);
    assert StepAt(states, steps, k);
  }

  lemma UnderwayStays(states: seq<State>, steps: seq<Step>, k: nat, j: nat, h: Head, c: nat)
    requires |states| == |steps| + 1 && j < |steps| && Underway(states, steps, k, j, h, c)
    requires Undisturbed(states[j], states[j + 1], h)
    ensures Underway(states, steps, k, j + 1, h, c)
  {
  }

  lemma UnderwayServed(states: seq<State>, steps: seq<Step>, k: nat, j: nat, h: Head, c: nat)
    requires Run(states, steps) && j < |steps| && Underway(states, steps, k, j, h, c) && steps[j] == Complete(h)
    ensures Underway(states, steps, k, j + 1, h, j)
  {
    RunInv(states, steps, j);
    Sized(states, steps, j + 1);
    assert StepAt(states, steps, j);
    assert HeadOk(states[j], h);
    DeviceDoesTheRequest(states, steps, j);
    var r := states[j].req[h].value;
    assert states[j + 1].req[h] == Some(r.(phase := Used));
    assert Transferred(states, k, j, j + 1, r);
  }

  lemma OneStepOn(states: seq<State>, steps: seq<Step>, j: nat, h: Head)
    requires Run(states, steps) && j < |steps| && WellSized(states[j]) && h < NUM && states[j].req[h].Some?
    requires steps[j] != Complete(h) && steps[j] != Finish(h)
    ensures Undisturbed(states[j], states[j + 1], h)
  {
    RunInv(states, steps, j);
    assert StepAt(states, steps, j);
    if steps[j].Reap? {
      ReapUndisturbed(states[j], steps[j], states[j + 1], h);
    } else if steps[j].Take? || steps[j].Complete? {
      DeviceUndisturbed(states[j], steps[j], states[j + 1], h);
    } else {
      DriverUndisturbed(states[j], steps[j], states[j + 1], h);
    }
  }

  lemma {:induction false} StaysUnderway(states: seq<State>, steps: seq<Step>, k: nat, j: nat, h: Head) returns (c: nat)
    requires Run(states, steps) && k < j < |states| && steps[k].Prepare?
    requires WellSized(states[k]) && ThreeFree(states[k].m.free).Some? && h == ThreeFree(states[k].m.free).value.a
    requires forall i :: k < i < j ==> steps[i] != Finish(h)
    ensures Underway(states, steps, k, j, h, c)
  {
    if j == k + 1 {
      c := 0;
      UnderwayStarts(states, steps, k, h);
    } else {
      c := StaysUnderway(states, steps, k, j - 1, h);
      if steps[j - 1] == Complete(h) {
        UnderwayServed(states, steps, k, j - 1, h, c);
        c := j - 1;
      } else {
        OneStepOn(states, steps, j - 1, h);
        UnderwayStays(states, steps, k, j - 1, h, c);
      }
    }
  }

  /** virtio_disk_rw does what it is asked: between its call and its return the
      device completes its request, on a sector that exists.  A write has then
      put the buffer, as it was at the call, into the sector; a read returns
      with the buffer holding the sector as it was when it was read. */
  lemma RwEndToEnd(states: seq<State>, steps: seq<Step>, k: nat, n: nat, h: Head) returns (c: nat)
    requires Run(states, steps) && k < n < |steps| && steps[k].Prepare? && steps[n] == Finish(h)
    requires WellSized(states[k]) && ThreeFree(states[k].m.free).Some? && h == ThreeFree(states[k].m.free).value.a
    requires forall i :: k < i < n ==> steps[i] != Finish(h)
    ensures k < c < n && steps[c] == Complete(h)
    ensures var b, sector := steps[k].b, SectorOf(steps[k].blockno);
            && b < |states[k].data| && b < |states[n].data| && sector in states[c].media
            && if steps[k].write then sector in states[c + 1].media && states[c + 1].media[sector] == states[k].data[b]
               else states[n].data[b] == states[c].media[sector]
  {
    c := StaysUnderway(states, steps, k, n, h);
    RunInv(states, steps, n);
    assert StepAt(states, steps, n);
    assert HeadOk(states[n], h);
  }
}
