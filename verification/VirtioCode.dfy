/** The virtio disk driver's own functions on its arrays and ring indices,
    each computing the corresponding change of the shared memory. */
module VirtioCode {
  import opened Wrappers
  import opened VirtioQueue

  /** Free descriptors are zeroed, as memset and free_desc leave them. */
  ghost predicate FreeAreZero(m: Mem)
    requires m.WellSized()
  {
    forall i :: 0 <= i < NUM && m.free[i] ==> m.desc[i] == ZeroDesc()
  }

  /** `free` with the descriptors of idx taken, in order. */
  ghost function Without(free: seq<bool>, idx: seq<nat>): (r: seq<bool>)
    ensures |r| == |free|
    ensures forall k :: 0 <= k < |free| ==> r[k] == (free[k] && k !in idx)
  {
    seq(|free|, k requires 0 <= k < |free| => free[k] && k !in idx)
  }

  /** idx lists the descriptors that repeated alloc_desc calls take. */
  ghost predicate Greedy(free: seq<bool>, idx: seq<nat>) {
    && |free| == NUM
    && forall k :: 0 <= k < |idx| ==> idx[k] < NUM && idx[k] == LowestFree(Without(free, idx[..k]), 0)
  }

  lemma GreedyIsFree(free: seq<bool>, idx: seq<nat>, j: nat)
    requires Greedy(free, idx) && j < |idx|
    ensures free[idx[j]] && idx[j] !in idx[..j] && idx[j] !in idx[j + 1..]
    ensures Without(free, idx[..j])[idx[j] := false] == Without(free, idx[..j + 1])
  {
    forall k | j < k < |idx| ensures idx[k] != idx[j] {
      assert idx[j] in idx[..k];
    }
    assert idx[..j + 1] == idx[..j] + [idx[j]];
  }

  lemma GreedyGoesOn(free: seq<bool>, idx: seq<nat>, d: nat)
    requires Greedy(free, idx) && d < NUM && d == LowestFree(Without(free, idx), 0)
    ensures Greedy(free, idx + [d]) && Without(free, idx)[d := false] == Without(free, idx + [d])
  {
    var idx' := idx + [d];
    forall k | 0 <= k < |idx'| ensures idx'[k] < NUM && idx'[k] == LowestFree(Without(free, idx'[..k]), 0) {
      assert idx'[..k] == idx[..k];
      assert k == |idx| ==> idx[..k] == idx;
    }
  }

  lemma GreedyFirstTwo(free: seq<bool>, idx: seq<nat>)
    requires Greedy(free, idx)
    ensures Without(free, []) == free
    ensures |idx| > 0 ==> idx[0] == LowestFree(free, 0) && Without(free, idx[..1]) == free[idx[0] := false]
    ensures |idx| > 1 ==> idx[1] == LowestFree(free[idx[0] := false], 0)
                          && Without(free, idx[..2]) == free[idx[0] := false][idx[1] := false]
  {
    assert Without(free, []) == free;
    if |idx| > 0 {
      assert idx[..0] == [];
      assert Without(free, idx[..1]) == free[idx[0] := false];
      if |idx| > 1 {
        assert Without(free, idx[..2]) == free[idx[0] := false][idx[1] := false];
      }
    }
  }

  /** Three successful calls take the triple. */
  lemma GreedyThree(free: seq<bool>, idx: seq<nat>)
    requires Greedy(free, idx) && |idx| == 3
    ensures ThreeFree(free) == Some(Triple(idx[0], idx[1], idx[2]))
    ensures Without(free, idx) == free[idx[0] := false][idx[1] := false][idx[2] := false]
  {
    GreedyFirstTwo(free, idx);
    assert idx[2] == LowestFree(Without(free, idx[..2]), 0);
  }

  /** A call that fails before the third means there is no triple. */
  lemma GreedyStops(free: seq<bool>, idx: seq<nat>)
    requires Greedy(free, idx) && |idx| < 3 && LowestFree(Without(free, idx), 0) == NUM
    ensures ThreeFree(free).None?
  {
    GreedyFirstTwo(free, idx);
    assert idx[..|idx|] == idx;
  }

  lemma WithoutFirst(free: seq<bool>, idx: seq<nat>)
    requires idx != [] && idx[0] < |free| && free[idx[0]] && idx[0] !in idx[1..]
    ensures Without(free, idx)[idx[0] := true] == Without(free, idx[1..])
  {
    assert idx == [idx[0]] + idx[1..];
  }

  /** Some head of q stands for a request on buffer b. */
  ghost predicate Completed(info: seq<Info>, q: seq<Head>, b: Buf) {
    exists h :: h in q && h < |info| && info[h].b == Some(b)
  }

  lemma CompletedOneMore(info: seq<Info>, done: seq<Head>, h: Head, b: Buf)
    requires h < |info|
    ensures Completed(info, done + [h], b) <==> Completed(info, done, b) || info[h].b == Some(b)
  {
    if info[h].b == Some(b) {
      assert h in done + [h];
    }
    if x :| x in done && x < |info| && info[x].b == Some(b) {
      assert x in done + [h];
    }
  }

  /** The device served the requests of all these heads. */
  ghost predicate AllServed(info: seq<Info>, q: seq<Head>) {
    forall h :: h in q ==> h < |info| && info[h].status == 0
  }

  /** Exactly the buffers of the heads in `done` have been cleared. */
  ghost predicate Cleared(info: seq<Info>, done: seq<Head>, disk: seq<bool>, disk': seq<bool>) {
    |disk'| == |disk| && forall b :: 0 <= b < |disk| ==> disk'[b] == (disk[b] && !Completed(info, done, b))
  }

  lemma ClearedOneMore(info: seq<Info>, done: seq<Head>, disk: seq<bool>, disk': seq<bool>, h: Head)
    requires Cleared(info, done, disk, disk') && h < |info| && info[h].b.Some? && info[h].b.value < |disk|
    ensures Cleared(info, done + [h], disk, disk'[info[h].b.value := false])
  {
    forall b | 0 <= b < |disk|
      ensures disk'[info[h].b.value := false][b] == (disk[b] && !Completed(info, done + [h], b))
    {
      CompletedOneMore(info, done, h, b);
    }
  }

  /** The heads of q whose requests have a buffer. */
  ghost predicate Usable(info: seq<Info>, q: seq<Head>, buffers: nat) {
    forall h :: h in q ==> h < |info| && info[h].b.Some? && info[h].b.value < buffers
  }

  /** The handler has dealt with `done` and still has `rest` before it. */
  ghost predicate Reaping(ring: seq<nat>, usedIdx: nat, seen: nat, info: seq<Info>, disk: seq<bool>, disk': seq<bool>,
                          from: nat, done: seq<Head>, rest: seq<Head>)
  {
    && |ring| == |info| == NUM && QueueOk(ring, usedIdx, seen, from + |done|, rest)
    && AllServed(info, done) && Usable(info, rest, |disk|) && Cleared(info, done, disk, disk')
  }

  lemma ReapingNext(ring: seq<nat>, usedIdx: nat, seen: nat, info: seq<Info>, disk: seq<bool>, disk': seq<bool>,
                    from: nat, done: seq<Head>, rest: seq<Head>)
    requires Reaping(ring, usedIdx, seen, info, disk, disk', from, done, rest) && seen != usedIdx
    ensures rest != [] && ring[seen % NUM] == rest[0] < NUM && info[rest[0]].b.Some? && info[rest[0]].b.value < |disk'|
    ensures info[rest[0]].status == 0 ==>
              Reaping(ring, usedIdx, (seen + 1) % IDX, info, disk, disk'[info[rest[0]].b.value := false],
                      from, done + [rest[0]], rest[1..])
  {
    QueueEmpty(ring, usedIdx, seen, from + |done|, rest);
    QueuePop(ring, usedIdx, seen, from + |done|, rest);
    assert rest[0] in rest;
    ClearedOneMore(info, done, disk, disk', rest[0]);
    forall h | h in rest[1..] ensures h in rest {
    }
  }

  /** The device may complete further requests while the handler is at work:
      they join the rest, and nothing done is disturbed. */
  lemma CompletionArrives(ring: seq<nat>, usedIdx: nat, seen: nat, info: seq<Info>, disk: seq<bool>, disk': seq<bool>,
                          from: nat, done: seq<Head>, rest: seq<Head>, h: Head, status: nat)
    requires Reaping(ring, usedIdx, seen, info, disk, disk', from, done, rest)
    requires h < NUM && h !in done && h !in rest && info[h].b.Some? && info[h].b.value < |disk|
    ensures Reaping(ring[usedIdx % NUM := h], (usedIdx + 1) % IDX, seen, info[h := info[h].(status := status)],
                    disk, disk', from, done, rest + [h])
  {
    QueuePush(ring, usedIdx, seen, from + |done|, rest, h);
    var info' := info[h := info[h].(status := status)];
    forall b: Buf ensures Completed(info', done, b) <==> Completed(info, done, b) {
      if x :| x in done && x < |info| && info[x].b == Some(b) {
        assert info'[x].b == Some(b);
      }
    }
  }

  lemma ReapingEnds(ring: seq<nat>, usedIdx: nat, info: seq<Info>, disk: seq<bool>, disk': seq<bool>,
                    from: nat, done: seq<Head>, rest: seq<Head>)
    requires Reaping(ring, usedIdx, usedIdx, info, disk, disk', from, done, rest)
    ensures rest == []
  {
    QueueEmpty(ring, usedIdx, usedIdx, from + |done|, rest);
  }

  /** In every reachable state the driver's functions may be called: free
      descriptors are zeroed, a request whose flag is clear has its whole chain,
      and the handler finds its completions in the used ring. */
  lemma DriverMayRun(s: State, h: Head)
    requires VirtioQueue.Inv(s) && h < NUM
    ensures FreeAreZero(s.m) && QueueOk(s.m.usedRing, s.m.usedIdx, s.m.seen, s.seen, s.usedQ)
    ensures s.req[h].Some? ==> ChainAt(s.m, s.req[h].value.t) && s.req[h].value.t.a == h
    ensures h in s.usedQ ==> s.m.info[h].b.Some? && s.m.info[h].b.value < |s.m.disk|
    ensures h in s.usedQ ==> (s.m.info[h].status == 0 <==> SectorOf(s.req[h].value.blockno) in s.media)
  {
    forall i | 0 <= i < NUM && s.m.free[i] ensures s.m.desc[i] == ZeroDesc() {
      assert DescOk(s, i);
    }
    assert HeadOk(s, h) && DescOk(s, h);
    if s.req[h].Some? {
      assert DescOk(s, s.req[h].value.t.b) && DescOk(s, s.req[h].value.t.c);
    }
  }

  /** What the parts of virtio_disk_rw do to memory m comes to formatting and publishing. */
  lemma SubmitIs(m: Mem, t: Triple, b: Buf, write: bool, blockno: nat, desc: seq<Desc>, info: seq<Info>)
    requires m.WellSized() && TripleOk(t) && b < |m.disk|
    requires desc == m.desc[t.a := Desc(Op(t.a), 16, false, true, t.b)]
                           [t.b := Desc(Data(b), 1024, !write, true, t.c)][t.c := Desc(Status(t.a), 1, true, false, 0)]
    requires info == m.info[t.a := m.info[t.a].(status := 0xff)][t.a := m.info[t.a].(status := 0xff, b := Some(b))]
    ensures m.(free := m.free[t.a := false][t.b := false][t.c := false],
               ops := m.ops[t.a := BlkReq(write, SectorOf(blockno))], desc := desc, info := info,
               disk := m.disk[b := true], availRing := m.availRing[m.availIdx % NUM := t.a],
               availIdx := (m.availIdx + 1) % IDX)
            == Publish(Format(m, t, b, write, blockno))
  {
    assert info == m.info[t.a := Info(Some(b), 0xff)];
  }

  class Disk {
    const free: array<bool>
    const desc: array<Desc>
    const ops: array<BlkReq>
    const info: array<Info>
    const availRing: array<nat>
    const usedRing: array<nat>
    const disk: array<bool>      // b->disk of every buffer b
    var availIdx: nat
    var usedIdx: nat
    var seen: nat                // disk.used_idx

    ghost predicate Valid() {
      && free.Length == desc.Length == ops.Length == info.Length == availRing.Length == usedRing.Length == NUM
      && free != disk && availRing != usedRing
    }

    ghost function M(): (m: Mem)
      requires Valid()
      reads this, free, desc, ops, info, availRing, usedRing, disk
      ensures m.WellSized()
    {
      Mem(free[..], desc[..], ops[..], info[..], availRing[..], availIdx, usedRing[..], usedIdx, seen, disk[..])
    }

    /** virtio_disk_init, after the device has been negotiated with. */
    constructor (buffers: nat)
      ensures Valid() && fresh(free) && fresh(desc) && fresh(ops) && fresh(info) && fresh(availRing) && fresh(usedRing)
              && fresh(disk)
      ensures forall i :: 0 <= i < NUM ==> M().free[i] && M().desc[i] == ZeroDesc()
      ensures M().availIdx == M().usedIdx == M().seen == 0 && |M().disk| == buffers
      ensures forall b :: 0 <= b < buffers ==> !M().disk[b]
    {
      free := new bool[NUM](_ => true);
      desc := new Desc[NUM](_ => ZeroDesc());
      ops := new BlkReq[NUM](_ => BlkReq(false, 0));
      info := new Info[NUM](_ => Info(None, 0));
      availRing := new nat[NUM](_ => 0);
      usedRing := new nat[NUM](_ => 0);
      disk := new bool[buffers](_ => false);
      availIdx, usedIdx, seen := 0, 0, 0;
    }

    method AllocDesc() returns (i: int)
      requires Valid()
      modifies free
      ensures var f := LowestFree(old(M()).free, 0);
              if f == NUM then i == -1 && M() == old(M())
              else i == f && M() == old(M()).(free := old(M()).free[f := false])
    {
      ghost var m := M();
      i := 0;
      while i < NUM
        invariant 0 <= i <= NUM && M() == m && LowestFree(m.free, 0) == LowestFree(m.free, i)
      {
        if free[i] {
          free[i] := false;
          return;
        }
        i := i + 1;
      }
      return -1;
    }

    /** Panics unless i names an allocated descriptor. */
    method FreeDesc(i: nat)
      requires Valid() && i < NUM && !M().free[i]
      modifies free, desc
      ensures M() == old(M()).(free := old(M()).free[i := true], desc := old(M()).desc[i := ZeroDesc()])
    {
      desc[i] := ZeroDesc();
      free[i] := true;
    }

    method FreeChain(first: nat, ghost t: Triple)
      requires Valid() && ChainAt(M(), t) && first == t.a
      modifies free, desc
      ensures M() == old(M()).(free := old(M()).free[t.a := true][t.b := true][t.c := true],
                               desc := old(M()).desc[t.a := ZeroDesc()][t.b := ZeroDesc()][t.c := ZeroDesc()])
    {
      ghost var m := M();
      ghost var done := 0;
      var i := first;
      while true
        invariant done < 3 && i == (if done == 0 then t.a else if done == 1 then t.b else t.c)
        invariant done == 0 ==> M() == m
        invariant done == 1 ==> M() == m.(free := m.free[t.a := true], desc := m.desc[t.a := ZeroDesc()])
        invariant done == 2 ==> M() == m.(free := m.free[t.a := true][t.b := true],
                                          desc := m.desc[t.a := ZeroDesc()][t.b := ZeroDesc()])
        decreases 3 - done
      {
        assert desc[i] == M().desc[i];
        var chained := desc[i].chained;
        var next := desc[i].next;
        FreeDesc(i);
        if chained {
          i := next;
        } else {
          break;
        }
        done := done + 1;
      }
    }

    /** alloc3_desc's inner loop: give back the descriptors taken so far. */
    method GiveBack(idx: seq<nat>, ghost m: Mem)
      requires Holding(m, idx) && FreeAreZero(m)
      modifies free, desc
      ensures M() == m
    {
      for j := 0 to |idx|
        invariant M() == m.(free := Without(m.free, idx[j..]))
      {
        GreedyIsFree(m.free, idx, j);
        FreeDesc(idx[j]);
        WithoutFirst(m.free, idx[j..]);
        assert M().desc == m.desc;
      }
      assert Without(m.free, []) == m.free;
    }

    /** Takes three descriptors or, giving back what it took, none. */
    method Alloc3Desc() returns (ok: bool, idx: seq<nat>)
      requires Valid() && FreeAreZero(M())
      modifies free, desc
      ensures ok == ThreeFree(old(M()).free).Some?
      ensures ok ==> var t := ThreeFree(old(M()).free).value;
                     && idx == [t.a, t.b, t.c]
                     && M() == old(M()).(free := old(M()).free[t.a := false][t.b := false][t.c := false])
      ensures !ok ==> M() == old(M())
    {
      ghost var m := M();
      assert Without(m.free, []) == m.free;
      idx := [];
      for i := 0 to 3
        invariant |idx| == i && Holding(m, idx)
      {
        var d := TakeOne(idx, m);
        if d < 0 {
          GiveBack(idx, m);
          return false, [];
        }
        idx := idx + [d];
      }
      GreedyThree(m.free, idx);
      return true, idx;
    }

    /** Of memory m, the descriptors of idx have been taken, in order. */
    ghost predicate Holding(m: Mem, idx: seq<nat>)
      reads this, free, desc, ops, info, availRing, usedRing, disk
    {
      Valid() && m.WellSized() && Greedy(m.free, idx) && M() == m.(free := Without(m.free, idx))
    }

    /** alloc_desc for the next descriptor; -1 when alloc3_desc has to give up. */
    method TakeOne(idx: seq<nat>, ghost m: Mem) returns (d: int)
      requires Holding(m, idx) && |idx| < 3
      modifies free
      ensures if d < 0 then Holding(m, idx) && ThreeFree(m.free).None? else Holding(m, idx + [d])
    {
      d := AllocDesc();
      if d < 0 {
        GreedyStops(m.free, idx);
      } else {
        GreedyGoesOn(m.free, idx, d);
      }
    }

    /** Formats the three descriptors of a request. */
    method WriteChain(d0: nat, d1: nat, d2: nat, b: Buf, write: bool, blockno: nat)
      requires Valid() && TripleOk(Triple(d0, d1, d2))
      modifies desc, ops, info
      ensures M() == old(M()).(ops := old(M()).ops[d0 := BlkReq(write, SectorOf(blockno))],
                               desc := old(M()).desc[d0 := Desc(Op(d0), 16, false, true, d1)]
                                                    [d1 := Desc(Data(b), 1024, !write, true, d2)]
                                                    [d2 := Desc(Status(d0), 1, true, false, 0)],
                               info := old(M()).info[d0 := old(M()).info[d0].(status := 0xff)])
    {
      ops[d0] := BlkReq(write, SectorOf(blockno));
      desc[d0] := Desc(Op(d0), 16, false, true, d1);
      WriteData(d1, d2, b, write);
      info[d0] := info[d0].(status := 0xff);
      desc[d2] := Desc(Status(d0), 1, true, false, 0);
    }

    /** The middle descriptor, field by field. */
    method WriteData(d1: nat, d2: nat, b: Buf, write: bool)
      requires Valid() && d1 < NUM
      modifies desc
      ensures desc[..] == old(desc[..])[d1 := Desc(Data(b), 1024, !write, true, d2)]
    {
      desc[d1] := desc[d1].(addr := Data(b), len := 1024);
      if write {
        desc[d1] := desc[d1].(write := false, chained := false);
      } else {
        desc[d1] := desc[d1].(write := true, chained := false);
      }
      desc[d1] := desc[d1].(chained := true);
      desc[d1] := desc[d1].(next := d2);
    }

    /** Records the buffer and tells the device about the chain. */
    method Announce(d0: nat, b: Buf)
      requires Valid() && d0 < NUM && b < disk.Length
      modifies this`availIdx, info, availRing, disk
      ensures M() == old(M()).(disk := old(M()).disk[b := true],
                               info := old(M()).info[d0 := old(M()).info[d0].(b := Some(b))],
                               availRing := old(M()).availRing[old(availIdx) % NUM := d0],
                               availIdx := (old(availIdx) + 1) % IDX)
    {
      disk[b] := true;
      info[d0] := info[d0].(b := Some(b));
      availRing[availIdx % NUM] := d0;
      availIdx := (availIdx + 1) % IDX;
    }

    /** virtio_disk_rw up to its first wait; when no three descriptors are free
        it sleeps and tries again. */
    method Submit(b: Buf, write: bool, blockno: nat) returns (ok: bool, head: nat)
      requires Valid() && FreeAreZero(M()) && b < disk.Length
      modifies this`availIdx, free, desc, ops, info, availRing, disk
      ensures ok == ThreeFree(old(M()).free).Some?
      ensures ok ==> var t := ThreeFree(old(M()).free).value;
                     head == t.a && M() == Publish(Format(old(M()), t, b, write, blockno))
      ensures !ok ==> M() == old(M())
    {
      var idx: seq<nat>;
      ok, idx := Alloc3Desc();
      if !ok {
        return false, 0;
      }
      WriteChain(idx[0], idx[1], idx[2], b, write, blockno);
      Announce(idx[0], b);
      SubmitIs(old(M()), Triple(idx[0], idx[1], idx[2]), b, write, blockno, desc[..], info[..]);
      return true, idx[0];
    }

    /** The end of virtio_disk_rw, once b->disk is 0. */
    method Finish(head: nat, ghost t: Triple)
      requires Valid() && ChainAt(M(), t) && head == t.a
      modifies free, desc, info
      ensures M() == Release(old(M()), t)
    {
      info[head] := info[head].(b := None);
      FreeChain(head, t);
    }

    /** Handles the completions queued in the used ring from counter `from` on,
        clearing b->disk of exactly the buffers of `done`: all of them, or those
        before the first request that the device could not serve, which panics. */
    method Intr(ghost from: nat, ghost q: seq<Head>) returns (ok: bool, ghost done: seq<Head>, ghost rest: seq<Head>)
      requires Valid() && QueueOk(usedRing[..], usedIdx, seen, from, q) && Usable(info[..], q, disk.Length)
      modifies this`seen, disk
      ensures q == done + rest && Reaping(usedRing[..], usedIdx, seen, info[..], old(disk[..]), disk[..], from, done, rest)
      ensures if ok then done == q && seen == usedIdx else rest != [] && rest[0] < NUM && info[rest[0]].status != 0
    {
      done, rest := [], q;
      while seen != usedIdx
        invariant q == done + rest
        invariant Reaping(usedRing[..], usedIdx, seen, info[..], old(disk[..]), disk[..], from, done, rest)
        decreases |rest|
      {
        ReapingNext(usedRing[..], usedIdx, seen, info[..], old(disk[..]), disk[..], from, done, rest);
        var id := usedRing[seen % NUM];
        if info[id].status != 0 {
          return false, done, rest;
        }
        disk[info[id].b.value] := false;
        seen := (seen + 1) % IDX;
        done, rest := done + [rest[0]], rest[1..];
      }
      ReapingEnds(usedRing[..], usedIdx, info[..], old(disk[..]), disk[..], from, done, rest);
      ok := true;
    }
  }
}
