/** The K&R heap as values: headers in memory, the circular free list and an
    owner for every unit ever obtained from sbrk.  Addresses and sizes count
    units of one header (16 bytes). */
module HeapModel {

  type Addr = nat

  datatype Header = Header(ptr: Addr, size: nat)

  /** `list` is the free list in address order, `base` first; `live` gives the
      size of every block handed out; `owner` gives, for every unit obtained so
      far, the start of the block it is part of.  Everything lies below `top`. */
  datatype Heap = Heap(mem: map<Addr, Header>, list: seq<Addr>, live: map<Addr, nat>, owner: map<Addr, Addr>, top: nat)

  /** The block starting at a, free or live (base, of size 0, is neither). */
  ghost predicate IsBlock(h: Heap, base: Addr, a: Addr) {
    (a in h.list && a != base) || a in h.live
  }

  ghost predicate Ascending(list: seq<Addr>) {
    forall i, j :: 0 <= i < j < |list| ==> list[i] < list[j]
  }

  function NextOf(list: seq<Addr>, i: nat): Addr
    requires i < |list|
  {
    if i + 1 < |list| then list[i + 1] else list[0]
  }

  ghost predicate LinkOk(mem: map<Addr, Header>, list: seq<Addr>, i: nat)
    requires i < |list|
  {
    list[i] in mem && mem[list[i]].ptr == NextOf(list, i)
  }

  ghost predicate Linked(mem: map<Addr, Header>, list: seq<Addr>) {
    forall i :: 0 <= i < |list| ==> LinkOk(mem, list, i)
  }

  /** The units a owns are exactly those of a block at a with the size in its header. */
  ghost predicate BlockOk(h: Heap, base: Addr, a: Addr) {
    && a in h.mem && base < a && a + h.mem[a].size <= h.top && h.mem[a].size > 0
    && (a in h.live ==> h.live[a] == h.mem[a].size && a !in h.list)
    && forall u {:trigger u in h.owner} :: (u in h.owner && h.owner[u] == a) <==> a <= u < a + h.mem[a].size
  }

  ghost predicate ListOk(h: Heap, base: Addr) {
    && |h.list| > 0 && h.list[0] == base && Ascending(h.list) && Linked(h.mem, h.list)
    && base in h.mem && h.mem[base].size == 0
  }

  ghost predicate BlocksOk(h: Heap, base: Addr) {
    && base < h.top && base !in h.live
    && (forall a :: IsBlock(h, base, a) ==> BlockOk(h, base, a))
    && (forall u :: u in h.owner ==> u in h.mem && IsBlock(h, base, h.owner[u]))
  }

  ghost predicate Valid(h: Heap, base: Addr) {
    ListOk(h, base) && BlocksOk(h, base)
  }

  /** No free block ends where the next one begins. */
  ghost predicate Coalesced(h: Heap) {
    forall i :: 0 <= i < |h.list| - 1 && h.list[i] in h.mem ==> h.list[i] + h.mem[h.list[i]].size != h.list[i + 1]
  }

  /** Free blocks do not overlap: each ends before the next one begins. */
  lemma ListApart(h: Heap, base: Addr, i: nat, j: nat)
    requires Valid(h, base) && i < j < |h.list|
    ensures h.list[i] in h.mem && h.list[i] + h.mem[h.list[i]].size <= h.list[j]
  {
    var a, b := h.list[i], h.list[j];
    assert LinkOk(h.mem, h.list, i);
    assert IsBlock(h, base, b) && BlockOk(h, base, b);
    if a != base {
      assert IsBlock(h, base, a) && BlockOk(h, base, a);
      assert b in h.owner && h.owner[b] == b;
    }
  }

  /** No two blocks, free or live, share a unit. */
  lemma BlocksApart(h: Heap, base: Addr, a: Addr, b: Addr)
    requires Valid(h, base) && IsBlock(h, base, a) && IsBlock(h, base, b) && a < b
    ensures a in h.mem && a + h.mem[a].size <= b
  {
    assert BlockOk(h, base, a) && BlockOk(h, base, b);
    assert b in h.owner && h.owner[b] == b;
  }

  /** The units obtained so far are exactly those of the blocks. */
  lemma UnitsAreBlocks(h: Heap, base: Addr, u: Addr)
    requires Valid(h, base)
    ensures u in h.owner <==> exists a: Addr :: IsBlock(h, base, a) && a in h.mem && a <= u < a + h.mem[a].size
  {
    if u in h.owner {
      assert IsBlock(h, base, h.owner[u]) && BlockOk(h, base, h.owner[u]);
    }
    if a: Addr :| IsBlock(h, base, a) && a in h.mem && a <= u < a + h.mem[a].size {
      assert BlockOk(h, base, a);
    }
  }

  // ----- list surgery -----

  /** b falls after list[i] and before the entry that follows it. */
  ghost predicate Between(list: seq<Addr>, i: nat, b: Addr) {
    i < |list| && list[i] < b && (i + 1 < |list| ==> b < list[i + 1])
  }

  ghost function InsertAt(list: seq<Addr>, k: nat, b: Addr): seq<Addr>
    requires k <= |list|
  {
    list[..k] + [b] + list[k..]
  }

  ghost function RemoveAt(list: seq<Addr>, k: nat): seq<Addr>
    requires k < |list|
  {
    list[..k] + list[k + 1..]
  }

  lemma InsertMembers(list: seq<Addr>, k: nat, b: Addr)
    requires k <= |list|
    ensures forall a :: a in InsertAt(list, k, b) <==> a in list || a == b
  {
    assert list == list[..k] + list[k..];
    forall a ensures a in InsertAt(list, k, b) <==> a in list || a == b {
      assert a in list ==> a in list[..k] || a in list[k..];
    }
  }

  lemma RemoveMembers(list: seq<Addr>, k: nat)
    requires k < |list| && Ascending(list)
    ensures forall a :: a in RemoveAt(list, k) <==> a in list && a != list[k]
  {
    assert list == list[..k] + [list[k]] + list[k + 1..];
    forall a ensures a in RemoveAt(list, k) <==> a in list && a != list[k] {
      assert a in list ==> a in list[..k] || a == list[k] || a in list[k + 1..];
    }
  }

  lemma BetweenInsertAscends(list: seq<Addr>, i: nat, b: Addr)
    requires Ascending(list) && Between(list, i, b)
    ensures Ascending(InsertAt(list, i + 1, b))
  {
  }

  lemma InsertLinked(mem: map<Addr, Header>, list: seq<Addr>, i: nat, b: Addr, mem': map<Addr, Header>)
    requires Ascending(list) && Linked(mem, list) && i < |list| && b !in list
    requires b in mem' && mem'[b].ptr == NextOf(list, i) && list[i] in mem' && mem'[list[i]].ptr == b
    requires forall a :: a in mem && a != b && a != list[i] ==> a in mem' && mem'[a] == mem[a]
    ensures Linked(mem', InsertAt(list, i + 1, b))
  {
    var list' := InsertAt(list, i + 1, b);
    forall k | 0 <= k < |list'| ensures LinkOk(mem', list', k) {
      if k < i {
        assert LinkOk(mem, list, k) && list'[k] == list[k] && list'[k + 1] == list[k + 1] && list[k] in list;
      } else if k > i + 1 {
        assert LinkOk(mem, list, k - 1) && list'[k] == list[k - 1] && list[k - 1] in list;
        assert NextOf(list', k) == NextOf(list, k - 1);
      }
    }
  }

  lemma RemoveLinked(mem: map<Addr, Header>, list: seq<Addr>, k: nat, mem': map<Addr, Header>)
    requires Ascending(list) && Linked(mem, list) && 0 < k < |list|
    requires list[k - 1] in mem' && mem'[list[k - 1]].ptr == NextOf(list, k)
    requires forall a :: a in mem && a != list[k - 1] ==> a in mem' && mem'[a] == mem[a]
    ensures Linked(mem', RemoveAt(list, k)) && Ascending(RemoveAt(list, k))
  {
    var list' := RemoveAt(list, k);
    forall j | 0 <= j < |list'| ensures LinkOk(mem', list', j) {
      if j < k {
        assert LinkOk(mem, list, j) && list'[j] == list[j];
      } else {
        assert LinkOk(mem, list, j + 1) && list'[j] == list[j + 1];
        assert NextOf(list', j) == NextOf(list, j + 1);
      }
    }
  }

  // ----- the changes of the heap -----

  /** Put the live block b on the list after entry i. */
  ghost function Insert(h: Heap, i: nat, b: Addr): Heap
    requires i < |h.list| && b in h.mem && h.list[i] in h.mem
  {
    var p := h.list[i];
    h.(mem := h.mem[b := h.mem[b].(ptr := NextOf(h.list, i))][p := h.mem[p].(ptr := b)],
       list := InsertAt(h.list, i + 1, b),
       live := h.live - {b})
  }

  lemma InsertValid(h: Heap, base: Addr, i: nat, b: Addr)
    requires Valid(h, base) && b in h.live && Between(h.list, i, b)
    ensures b in h.mem && h.list[i] in h.mem && Valid(Insert(h, i, b), base)
  {
    assert IsBlock(h, base, b) && BlockOk(h, base, b) && LinkOk(h.mem, h.list, i) && h.list[i] in h.list;
    var h' := Insert(h, i, b);
    InsertMembers(h.list, i + 1, b);
    BetweenInsertAscends(h.list, i, b);
    InsertLinked(h.mem, h.list, i, b, h'.mem);
    forall a | IsBlock(h', base, a) ensures BlockOk(h', base, a) {
      assert IsBlock(h, base, a) && BlockOk(h, base, a);
    }
  }

  /** Join the free blocks k and k + 1, which are adjacent in memory. */
  ghost function Merge(h: Heap, k: nat): Heap
    requires k + 1 < |h.list| && h.list[k] in h.mem && h.list[k + 1] in h.mem
  {
    var a, c := h.list[k], h.list[k + 1];
    h.(mem := h.mem[a := Header(h.mem[c].ptr, h.mem[a].size + h.mem[c].size)],
       list := RemoveAt(h.list, k + 1),
       owner := map u | u in h.owner :: if h.owner[u] == c then a else h.owner[u])
  }

  lemma MergeList(h: Heap, base: Addr, k: nat)
    requires ListOk(h, base) && k + 1 < |h.list| && h.list[k] != base && h.list[k] in h.mem && h.list[k + 1] in h.mem
    ensures ListOk(Merge(h, k), base)
  {
    assert LinkOk(h.mem, h.list, k + 1);
    RemoveLinked(h.mem, h.list, k + 1, Merge(h, k).mem);
  }

  lemma MergeBlock(h: Heap, base: Addr, k: nat, x: Addr)
    requires k + 1 < |h.list| && BlockOk(h, base, h.list[k]) && BlockOk(h, base, h.list[k + 1])
    requires h.list[k] + h.mem[h.list[k]].size == h.list[k + 1]
    requires BlockOk(h, base, x) && x != h.list[k + 1] && forall a :: a in Merge(h, k).list ==> a in h.list
    ensures BlockOk(Merge(h, k), base, x)
  {
    assert h.list[k] in h.list;
  }

  lemma MergeOwner(h: Heap, base: Addr, k: nat, u: Addr)
    requires k + 1 < |h.list| && h.list[k] in h.mem && h.list[k + 1] in h.mem && h.list[k] != base
    requires u in h.owner && u in h.mem && IsBlock(h, base, h.owner[u])
    requires forall a :: a in Merge(h, k).list <==> a in h.list && a != h.list[k + 1]
    requires h.list[k] != h.list[k + 1] && h.list[k + 1] !in h.live
    ensures u in Merge(h, k).mem && u in Merge(h, k).owner && IsBlock(Merge(h, k), base, Merge(h, k).owner[u])
  {
    assert h.list[k] in h.list;
  }

  lemma MergeBlocks(h: Heap, base: Addr, k: nat)
    requires Valid(h, base) && k + 1 < |h.list| && BlockOk(h, base, h.list[k]) && BlockOk(h, base, h.list[k + 1])
    requires h.list[k] + h.mem[h.list[k]].size == h.list[k + 1]
    requires forall a :: a in Merge(h, k).list <==> a in h.list && a != h.list[k + 1]
    requires h.list[k + 1] !in h.live
    ensures BlocksOk(Merge(h, k), base)
  {
    var h' := Merge(h, k);
    forall x | IsBlock(h', base, x) ensures BlockOk(h', base, x) {
      assert IsBlock(h, base, x) && BlockOk(h, base, x);
      MergeBlock(h, base, k, x);
    }
    forall u | u in h'.owner ensures u in h'.mem && IsBlock(h', base, h'.owner[u]) {
      assert u in h.owner && u in h.mem && IsBlock(h, base, h.owner[u]);
      MergeOwner(h, base, k, u);
    }
  }

  lemma MergeValid(h: Heap, base: Addr, k: nat)
    requires Valid(h, base) && k + 1 < |h.list| && h.list[k] in h.mem
    requires h.list[k] + h.mem[h.list[k]].size == h.list[k + 1]
    ensures h.list[k + 1] in h.mem && Valid(Merge(h, k), base)
  {
    var a, c := h.list[k], h.list[k + 1];
    assert a < c && a in h.list && c in h.list;
    assert IsBlock(h, base, c) && BlockOk(h, base, c) && IsBlock(h, base, a) && BlockOk(h, base, a);
    MergeList(h, base, k);
    RemoveMembers(h.list, k + 1);
    MergeBlocks(h, base, k);
  }

  /** Hand out the whole free block j. */
  ghost function TakeAll(h: Heap, j: nat): Heap
    requires 0 < j < |h.list| && h.list[j] in h.mem && h.list[j - 1] in h.mem
  {
    var p, a := h.list[j - 1], h.list[j];
    h.(mem := h.mem[p := h.mem[p].(ptr := h.mem[a].ptr)],
       list := RemoveAt(h.list, j),
       live := h.live[a := h.mem[a].size])
  }

  lemma TakeAllBlock(h: Heap, base: Addr, j: nat, x: Addr)
    requires 0 < j < |h.list| && h.list[j] in h.mem && h.list[j - 1] in h.mem
    requires BlockOk(h, base, x) && IsBlock(h, base, x) && (x in h.live ==> x != h.list[j])
    requires forall a :: a in TakeAll(h, j).list <==> a in h.list && a != h.list[j]
    ensures BlockOk(TakeAll(h, j), base, x)
  {
  }

  lemma TakeAllValid(h: Heap, base: Addr, j: nat)
    requires Valid(h, base) && 0 < j < |h.list|
    ensures h.list[j] in h.mem && h.list[j - 1] in h.mem && Valid(TakeAll(h, j), base)
  {
    var a := h.list[j];
    assert LinkOk(h.mem, h.list, j) && LinkOk(h.mem, h.list, j - 1) && IsBlock(h, base, a) && BlockOk(h, base, a);
    var h' := TakeAll(h, j);
    RemoveMembers(h.list, j);
    RemoveLinked(h.mem, h.list, j, h'.mem);
    forall x | IsBlock(h', base, x) ensures BlockOk(h', base, x) {
      assert IsBlock(h, base, x) && BlockOk(h, base, x);
      TakeAllBlock(h, base, j, x);
    }
    forall u | u in h'.owner ensures u in h'.mem && IsBlock(h', base, h'.owner[u]) {
      assert u in h.owner && IsBlock(h, base, h.owner[u]);
    }
  }

  /** Hand out the last n units of the free block j, which has more. */
  ghost function TakeTail(h: Heap, j: nat, n: nat): Heap
    requires j < |h.list| && h.list[j] in h.mem && 0 < n < h.mem[h.list[j]].size
    requires h.list[j] + h.mem[h.list[j]].size - n in h.mem
  {
    var a := h.list[j];
    var q := a + h.mem[a].size - n;
    h.(mem := h.mem[a := h.mem[a].(size := h.mem[a].size - n)][q := h.mem[q].(size := n)],
       live := h.live[q := n],
       owner := map u | u in h.owner :: if q <= u < q + n then q else h.owner[u])
  }

  /** The tail of a free block is not itself a block. */
  lemma TailIsNoBlock(h: Heap, base: Addr, a: Addr, q: Addr)
    requires Valid(h, base) && IsBlock(h, base, a) && a in h.mem && a < q < a + h.mem[a].size
    ensures q in h.mem && q in h.owner && h.owner[q] == a && q !in h.list && q !in h.live
    ensures forall u :: u in h.owner ==> h.owner[u] != q
  {
    assert BlockOk(h, base, a);
    assert q in h.owner && h.owner[q] == a;
    assert IsBlock(h, base, q) ==> BlockOk(h, base, q);
    forall u | u in h.owner ensures h.owner[u] != q {
      assert IsBlock(h, base, h.owner[u]);
    }
  }

  lemma TakeTailBlock(h: Heap, base: Addr, j: nat, n: nat, x: Addr)
    requires j < |h.list| && BlockOk(h, base, h.list[j]) && 0 < n < h.mem[h.list[j]].size
    requires h.list[j] + h.mem[h.list[j]].size - n in h.mem && h.list[j] + h.mem[h.list[j]].size - n !in h.list
    requires h.list[j] + h.mem[h.list[j]].size - n !in h.live
    requires forall u :: u in h.owner ==> h.owner[u] != h.list[j] + h.mem[h.list[j]].size - n
    requires x == h.list[j] + h.mem[h.list[j]].size - n || (BlockOk(h, base, x) && IsBlock(h, base, x))
    ensures BlockOk(TakeTail(h, j, n), base, x)
  {
    assert h.list[j] in h.list;
  }

  lemma TakeTailList(h: Heap, base: Addr, j: nat, n: nat)
    requires ListOk(h, base) && j < |h.list| && h.list[j] in h.mem && 0 < n < h.mem[h.list[j]].size
    requires h.list[j] + h.mem[h.list[j]].size - n in h.mem && h.list[j] + h.mem[h.list[j]].size - n !in h.list
    ensures ListOk(TakeTail(h, j, n), base)
  {
    var h' := TakeTail(h, j, n);
    assert base in h.list;
    forall i | 0 <= i < |h'.list| ensures LinkOk(h'.mem, h'.list, i) {
      assert LinkOk(h.mem, h.list, i) && h.list[i] in h.list;
    }
  }

  lemma TakeTailValid(h: Heap, base: Addr, j: nat, n: nat)
    requires Valid(h, base) && j < |h.list| && h.list[j] in h.mem && 0 < n < h.mem[h.list[j]].size
    ensures h.list[j] + h.mem[h.list[j]].size - n in h.mem && Valid(TakeTail(h, j, n), base)
  {
    var a := h.list[j];
    assert IsBlock(h, base, a) && BlockOk(h, base, a);
    var q := a + h.mem[a].size - n;
    TailIsNoBlock(h, base, a, q);
    var h' := TakeTail(h, j, n);
    TakeTailList(h, base, j, n);
    forall x | IsBlock(h', base, x) ensures BlockOk(h', base, x) {
      assert x != q ==> IsBlock(h, base, x) && BlockOk(h, base, x);
      TakeTailBlock(h, base, j, n, x);
    }
    forall u | u in h'.owner ensures u in h'.mem && IsBlock(h', base, h'.owner[u]) {
      assert IsBlock(h, base, h.owner[u]);
    }
  }

  function Span(r: nat, n: nat): (s: set<nat>)
    ensures forall u :: u in s <==> r <= u < r + n
  {
    if n == 0 then {} else Span(r, n - 1) + {r + n - 1}
  }

  /** Memory after sbrk has added n zeroed units at r. */
  function Extended(mem: map<Addr, Header>, r: Addr, n: nat): map<Addr, Header> {
    map u | u in mem.Keys + Span(r, n) :: if u in mem then mem[u] else Header(0, 0)
  }

  /** The heap with that region as one more live block, as morecore passes it to free. */
  ghost function Grow(h: Heap, r: Addr, n: nat): Heap
    requires n > 0
  {
    h.(mem := Extended(h.mem, r, n)[r := Extended(h.mem, r, n)[r].(size := n)],
       live := h.live[r := n],
       owner := map u | u in h.owner.Keys + Span(r, n) :: if u in h.owner then h.owner[u] else r,
       top := r + n)
  }

  lemma AllBelowTop(h: Heap, base: Addr)
    requires Valid(h, base)
    ensures forall u :: u in h.owner ==> u < h.top
    ensures forall a :: a in h.list || a in h.live ==> a < h.top
  {
    forall u | u in h.owner ensures u < h.top {
      assert IsBlock(h, base, h.owner[u]) && BlockOk(h, base, h.owner[u]);
    }
    forall a | a in h.list || a in h.live ensures a < h.top {
      assert a == base || BlockOk(h, base, a);
    }
  }

  lemma GrowBlock(h: Heap, base: Addr, r: Addr, n: nat, x: Addr)
    requires Valid(h, base) && h.top <= r && n > 0 && (x == r || IsBlock(h, base, x))
    ensures BlockOk(Grow(h, r, n), base, x)
  {
    AllBelowTop(h, base);
    if x != r {
      assert BlockOk(h, base, x);
    }
  }

  lemma GrowList(h: Heap, base: Addr, r: Addr, n: nat)
    requires Valid(h, base) && h.top <= r && n > 0
    ensures ListOk(Grow(h, r, n), base) && (Coalesced(h) ==> Coalesced(Grow(h, r, n)))
  {
    AllBelowTop(h, base);
    var h' := Grow(h, r, n);
    forall i | 0 <= i < |h.list|
      ensures h.list[i] in h.mem && LinkOk(h'.mem, h'.list, i) && h'.mem[h.list[i]] == h.mem[h.list[i]]
    {
      assert LinkOk(h.mem, h.list, i) && h.list[i] in h.list;
    }
  }

  lemma GrowValid(h: Heap, base: Addr, r: Addr, n: nat)
    requires Valid(h, base) && h.top <= r && n > 0
    ensures Valid(Grow(h, r, n), base)
  {
    GrowList(h, base, r, n);
    var h' := Grow(h, r, n);
    assert base < h'.top && base !in h'.live;
    forall x | IsBlock(h', base, x) ensures BlockOk(h', base, x) {
      GrowBlock(h, base, r, n, x);
    }
    forall u | u in h'.owner ensures u in h'.mem && IsBlock(h', base, h'.owner[u]) {
      assert u in h.owner ==> IsBlock(h, base, h.owner[u]);
    }
  }

  // ----- free -----

  /** Joins free blocks k and k + 1 when they are adjacent. */
  ghost function Join(h: Heap, base: Addr, k: nat): (h': Heap)
    requires Valid(h, base) && k < |h.list| && h.list[k] in h.mem
    ensures Valid(h', base) && |h'.list| > k && h'.list[..k + 1] == h.list[..k + 1]
  {
    if k + 1 < |h.list| && h.list[k] + h.mem[h.list[k]].size == h.list[k + 1] then
      MergeValid(h, base, k);
      assert RemoveAt(h.list, k + 1)[..k + 1] == h.list[..k + 1];
      Merge(h, k)
    else h
  }

  /** What free(b) makes of the heap, i being the entry before b. */
  ghost function Freed(h: Heap, base: Addr, i: nat, b: Addr): (h': Heap)
    requires Valid(h, base) && b in h.live && Between(h.list, i, b)
    ensures Valid(h', base)
  {
    InsertValid(h, base, i, b);
    var h1 := Insert(h, i, b);
    assert LinkOk(h1.mem, h1.list, i + 1);
    var h2 := Join(h1, base, i + 1);
    assert LinkOk(h2.mem, h2.list, i);
    Join(h2, base, i)
  }

  /** Free blocks k and k + 1 are not adjacent. */
  ghost predicate Gap(h: Heap, k: nat) {
    k + 1 < |h.list| && h.list[k] in h.mem ==> h.list[k] + h.mem[h.list[k]].size != h.list[k + 1]
  }

  lemma MergeGaps(h: Heap, base: Addr, k: nat, j: nat)
    requires Valid(h, base) && k + 1 < |h.list| && h.list[k] in h.mem
    requires h.list[k] + h.mem[h.list[k]].size == h.list[k + 1]
    requires j < k ==> Gap(h, j)
    requires j >= k ==> Gap(h, j + 1)
    ensures h.list[k + 1] in h.mem && Gap(Merge(h, k), j)
  {
    assert LinkOk(h.mem, h.list, k + 1);
    var h' := Merge(h, k);
    if j + 1 < |h'.list| {
      assert h'.list[j] == h.list[if j <= k then j else j + 1];
      assert h'.list[j + 1] == h.list[if j + 1 <= k then j + 1 else j + 2];
      assert h.list[j] != h.list[k] || j == k;
    }
  }

  lemma InsertGaps(h: Heap, base: Addr, i: nat, b: Addr, k: nat)
    requires ListOk(h, base) && Coalesced(h) && Between(h.list, i, b) && k != i && k != i + 1
    requires b in h.mem && b !in h.list && h.list[i] in h.mem
    ensures Gap(Insert(h, i, b), k)
  {
    assert LinkOk(h.mem, h.list, i) && h.list[i] in h.list;
    var h' := Insert(h, i, b);
    if k + 1 < |h'.list| {
      var m := if k < i then k else k - 1;
      assert h'.list[k] == h.list[m] && h'.list[k + 1] == h.list[m + 1] && LinkOk(h.mem, h.list, m);
      assert h.list[m] in h.list;
    }
  }

  /** Joining at k closes the only gap that may be missing there. */
  lemma JoinGaps(h: Heap, base: Addr, k: nat, x: nat)
    requires Valid(h, base) && x <= k < |h.list| && h.list[k] in h.mem
    requires forall m: nat :: m != k && m != x ==> Gap(h, m)
    ensures forall m: nat :: m != x || x == k ==> Gap(Join(h, base, k), m)
  {
    if k + 1 < |h.list| && h.list[k] + h.mem[h.list[k]].size == h.list[k + 1] {
      forall m: nat | m != x || x == k ensures Gap(Join(h, base, k), m) {
        MergeGaps(h, base, k, m);
      }
    } else {
      assert Gap(h, k);
    }
  }

  /** free keeps the list fully coalesced. */
  lemma FreedCoalesced(h: Heap, base: Addr, i: nat, b: Addr)
    requires Valid(h, base) && Coalesced(h) && b in h.live && Between(h.list, i, b)
    ensures Coalesced(Freed(h, base, i, b))
  {
    InsertValid(h, base, i, b);
    assert IsBlock(h, base, b) && BlockOk(h, base, b);
    var h1 := Insert(h, i, b);
    assert LinkOk(h1.mem, h1.list, i + 1);
    forall k: nat | k != i && k != i + 1 ensures Gap(h1, k) {
      InsertGaps(h, base, i, b, k);
    }
    JoinGaps(h1, base, i + 1, i);
    var h2 := Join(h1, base, i + 1);
    assert LinkOk(h2.mem, h2.list, i);
    JoinGaps(h2, base, i, i);
    GapsCoalesce(Join(h2, base, i));
  }

  lemma GapsCoalesce(h: Heap)
    requires forall k: nat :: Gap(h, k)
    ensures Coalesced(h)
  {
    forall k | 0 <= k < |h.list| - 1 && h.list[k] in h.mem ensures h.list[k] + h.mem[h.list[k]].size != h.list[k + 1] {
      assert Gap(h, k);
    }
  }

  /** Every live block of h except b is still live in h', and neither its
      header nor any of its contents was written. */
  ghost predicate KeepsLive(h: Heap, h': Heap, b: Addr) {
    && (forall a :: a in h.live && a != b ==> a in h'.live && h'.live[a] == h.live[a])
    && (forall u :: u in h.owner && h.owner[u] in h.live && h.owner[u] != b ==>
          u in h'.owner && h'.owner[u] == h.owner[u] && u in h.mem && u in h'.mem && h'.mem[u] == h.mem[u])
  }

  /** A unit of a live block is neither base nor the header of a free block. */
  lemma LiveUnit(h: Heap, base: Addr, u: Addr, p: Addr)
    requires Valid(h, base) && u in h.owner && h.owner[u] in h.live && p in h.list
    ensures u != p && h.owner[u] !in h.list && u in h.mem
  {
    assert IsBlock(h, base, h.owner[u]) && BlockOk(h, base, h.owner[u]);
    assert p != base ==> IsBlock(h, base, p) && BlockOk(h, base, p);
  }

  lemma InsertKeeps(h: Heap, base: Addr, i: nat, b: Addr)
    requires Valid(h, base) && b in h.live && Between(h.list, i, b) && b in h.mem && h.list[i] in h.mem
    ensures KeepsLive(h, Insert(h, i, b), b)
  {
    assert IsBlock(h, base, b) && BlockOk(h, base, b) && h.list[i] in h.list;
    assert b in h.owner && h.owner[b] == b;
    forall u | u in h.owner && h.owner[u] in h.live && h.owner[u] != b ensures u != b && u != h.list[i] && u in h.mem {
      LiveUnit(h, base, u, h.list[i]);
    }
  }

  /** No live unit is the header of, or owned by, one of two free blocks. */
  ghost predicate LiveApart(h: Heap, a: Addr, c: Addr) {
    forall u :: u in h.owner && h.owner[u] in h.live ==> u != a && h.owner[u] != c && u in h.mem
  }

  lemma MergeKeeps(h: Heap, k: nat, b: Addr)
    requires k + 1 < |h.list| && h.list[k] in h.mem && h.list[k + 1] in h.mem && LiveApart(h, h.list[k], h.list[k + 1])
    ensures var h' := Merge(h, k); h'.live == h.live && h'.owner.Keys == h.owner.Keys && h'.top == h.top && KeepsLive(h, h', b)
  {
  }

  lemma JoinKeeps(h: Heap, base: Addr, k: nat, b: Addr)
    requires Valid(h, base) && k < |h.list| && h.list[k] in h.mem
    ensures var h' := Join(h, base, k);
            h'.live == h.live && h'.owner.Keys == h.owner.Keys && h'.top == h.top && KeepsLive(h, h', b)
  {
    var c := if k + 1 < |h.list| then h.list[k + 1] else base;
    assert h.list[k] in h.list && c in h.list;
    forall u | u in h.owner && h.owner[u] in h.live ensures u != h.list[k] && h.owner[u] != c && u in h.mem {
      LiveUnit(h, base, u, h.list[k]);
    }
    if k + 1 < |h.list| {
      assert LinkOk(h.mem, h.list, k + 1);
      MergeKeeps(h, k, b);
    }
  }

  /** free gives up exactly block b, keeps every unit and touches no other
      live block. */
  lemma FreedKeeps(h: Heap, base: Addr, i: nat, b: Addr)
    requires Valid(h, base) && b in h.live && Between(h.list, i, b)
    ensures var h' := Freed(h, base, i, b);
            h'.live == h.live - {b} && h'.owner.Keys == h.owner.Keys && h'.top == h.top && KeepsLive(h, h', b)
  {
    InsertValid(h, base, i, b);
    InsertKeeps(h, base, i, b);
    var h1 := Insert(h, i, b);
    assert LinkOk(h1.mem, h1.list, i + 1);
    JoinKeeps(h1, base, i + 1, b);
    var h2 := Join(h1, base, i + 1);
    assert LinkOk(h2.mem, h2.list, i);
    JoinKeeps(h2, base, i, b);
    KeepsTwice(h, h1, h2, b);
    KeepsTwice(h, h2, Join(h2, base, i), b);
  }

  lemma KeepsTwice(h: Heap, h': Heap, h'': Heap, b: Addr)
    requires KeepsLive(h, h', b) && KeepsLive(h', h'', b)
    ensures KeepsLive(h, h'', b)
  {
  }

  /** The memory free leaves behind: two header updates. */
  function FreeMem(mem: map<Addr, Header>, p: Addr, b: Addr): map<Addr, Header>
    requires p in mem && b in mem && mem[p].ptr in mem
  {
    var next := mem[p].ptr;
    var mem1 := if b + mem[b].size == next then mem[b := Header(mem[next].ptr, mem[b].size + mem[next].size)]
                else mem[b := mem[b].(ptr := next)];
    if p + mem1[p].size == b then mem1[p := Header(mem1[b].ptr, mem1[p].size + mem1[b].size)]
    else mem1[p := mem1[p].(ptr := b)]
  }

  /** The memory changes of Insert and of the two joins, in that order. */
  function JoinMem(mem: map<Addr, Header>, a: Addr, c: Addr): map<Addr, Header>
    requires a in mem && c in mem
  {
    if a + mem[a].size == c then mem[a := Header(mem[c].ptr, mem[a].size + mem[c].size)] else mem
  }

  lemma FreeMemInSteps(mem: map<Addr, Header>, p: Addr, b: Addr)
    requires p in mem && b in mem && p != b && mem[p].ptr in mem && mem[p].ptr != b
    requires b + mem[b].size == mem[p].ptr ==> mem[p].ptr != p
    ensures JoinMem(JoinMem(mem[b := mem[b].(ptr := mem[p].ptr)][p := mem[p].(ptr := b)], b, mem[p].ptr), p, b)
            == FreeMem(mem, p, b)
  {
  }

  lemma JoinIsJoinMem(h: Heap, base: Addr, k: nat, c: Addr)
    requires Valid(h, base) && k < |h.list| && h.list[k] in h.mem && c in h.mem
    requires if k + 1 < |h.list| then h.list[k + 1] == c else c < h.list[k]
    ensures Join(h, base, k).mem == JoinMem(h.mem, h.list[k], c)
  {
  }

  /** free's two updates insert the block and join it with its neighbours. */
  lemma FreedMem(h: Heap, base: Addr, i: nat, b: Addr)
    requires Valid(h, base) && b in h.live && Between(h.list, i, b)
    ensures h.list[i] in h.mem && b in h.mem && h.mem[h.list[i]].ptr in h.mem
    ensures Freed(h, base, i, b).mem == FreeMem(h.mem, h.list[i], b)
  {
    InsertValid(h, base, i, b);
    var p := h.list[i];
    assert LinkOk(h.mem, h.list, i) && IsBlock(h, base, b) && BlockOk(h, base, b) && p in h.list && base in h.list;
    var next := h.mem[p].ptr;
    assert LinkOk(h.mem, h.list, if i + 1 < |h.list| then i + 1 else 0);
    assert next in h.list;
    FreeMemInSteps(h.mem, p, b);
    var h1 := Insert(h, i, b);
    assert h1.list[i + 1] == b && LinkOk(h1.mem, h1.list, i + 1);
    assert i + 2 < |h1.list| ==> h1.list[i + 2] == h.list[i + 1];
    JoinIsJoinMem(h1, base, i + 1, next);
    var h2 := Join(h1, base, i + 1);
    assert LinkOk(h2.mem, h2.list, i);
    assert h2.list[i] == h2.list[..i + 2][i] == p && h2.list[i + 1] == h2.list[..i + 2][i + 1] == b;
    JoinIsJoinMem(h2, base, i, b);
  }

  lemma JoinGrows(h: Heap, base: Addr, k: nat)
    requires Valid(h, base) && k < |h.list| && h.list[k] in h.mem
    ensures var h' := Join(h, base, k);
            && h'.list[k] == h.list[k] && h'.list[k] in h'.mem && h'.mem[h.list[k]].size >= h.mem[h.list[k]].size
            && (h' == h || (k + 1 < |h.list| && h.list[k + 1] in h.mem &&
                            h'.mem[h.list[k]].size >= h.mem[h.list[k + 1]].size))
  {
    assert k + 1 < |h.list| ==> LinkOk(h.mem, h.list, k + 1);
  }

  /** The freed block is now part of a free block at least as large. */
  lemma FreedCovers(h: Heap, base: Addr, i: nat, b: Addr)
    requires Valid(h, base) && b in h.live && Between(h.list, i, b)
    ensures b in h.mem
    ensures var h' := Freed(h, base, i, b);
            exists a :: a in h'.list && a in h'.mem && h'.mem[a].size >= h.mem[b].size
  {
    InsertValid(h, base, i, b);
    var h1 := Insert(h, i, b);
    assert h1.list[i + 1] == b && LinkOk(h1.mem, h1.list, i + 1) && h1.mem[b].size == h.mem[b].size;
    JoinGrows(h1, base, i + 1);
    var h2 := Join(h1, base, i + 1);
    assert LinkOk(h2.mem, h2.list, i) && h2.list[i + 1] in h2.list;
    JoinGrows(h2, base, i);
    var h3 := Join(h2, base, i);
    var a := if h3 == h2 then b else h3.list[i];
    assert h3 == Freed(h, base, i, b);
    assert a in h3.list && a in h3.mem && h3.mem[a].size >= h.mem[b].size;
  }

  // ----- malloc's choice -----

  lemma TakeAllCoalesced(h: Heap, base: Addr, j: nat)
    requires Valid(h, base) && Coalesced(h) && 0 < j < |h.list| && h.list[j] in h.mem && h.list[j - 1] in h.mem
    ensures Coalesced(TakeAll(h, j))
  {
    var h' := TakeAll(h, j);
    forall k: nat ensures Gap(h', k) {
      if k + 1 < |h'.list| {
        var m := if k < j then k else k + 1;
        assert h'.list[k] == h.list[m] && LinkOk(h.mem, h.list, m);
        if k == j - 1 {
          ListApart(h, base, j - 1, j);
        } else {
          assert h'.list[k + 1] == h.list[m + 1];
        }
      }
    }
    GapsCoalesce(h');
  }

  lemma TakeTailGap(h: Heap, base: Addr, j: nat, n: nat, k: nat)
    requires Valid(h, base) && Gap(h, k) && j < |h.list| && h.list[j] in h.mem && 0 < n < h.mem[h.list[j]].size
    requires h.list[j] + h.mem[h.list[j]].size - n in h.mem
    requires h.list[j] + h.mem[h.list[j]].size - n !in h.list && k + 1 < |h.list|
    ensures Gap(TakeTail(h, j, n), k)
  {
    ListApart(h, base, k, k + 1);
    assert h.list[k] in h.list;
  }

  lemma TakeTailCoalesced(h: Heap, base: Addr, j: nat, n: nat)
    requires Valid(h, base) && Coalesced(h) && j < |h.list| && h.list[j] in h.mem && 0 < n < h.mem[h.list[j]].size
    requires h.list[j] + h.mem[h.list[j]].size - n in h.mem
    ensures Coalesced(TakeTail(h, j, n))
  {
    var h' := TakeTail(h, j, n);
    assert IsBlock(h, base, h.list[j]);
    TailIsNoBlock(h, base, h.list[j], h.list[j] + h.mem[h.list[j]].size - n);
    forall k: nat ensures Gap(h', k) {
      if k + 1 < |h'.list| {
        TakeTailGap(h, base, j, n, k);
      }
    }
    GapsCoalesce(h');
  }

  /** Where the block handed out begins. */
  ghost function TakenAt(h: Heap, j: nat, n: nat): Addr
    requires j < |h.list| && h.list[j] in h.mem && 0 < n <= h.mem[h.list[j]].size
  {
    h.list[j] + h.mem[h.list[j]].size - n
  }

  /** malloc's choice: the whole of block j when it fits exactly, else its tail. */
  ghost function Taken(h: Heap, j: nat, n: nat): Heap
    requires 0 < j < |h.list| && h.list[j] in h.mem && h.list[j - 1] in h.mem
    requires 0 < n <= h.mem[h.list[j]].size && TakenAt(h, j, n) in h.mem
  {
    if n == h.mem[h.list[j]].size then TakeAll(h, j) else TakeTail(h, j, n)
  }

  /** The memory malloc leaves behind when it takes n units of block p. */
  function TakeMem(mem: map<Addr, Header>, prevp: Addr, p: Addr, n: nat): map<Addr, Header>
    requires prevp in mem && p in mem && 0 < n <= mem[p].size && p + mem[p].size - n in mem
  {
    if mem[p].size == n then mem[prevp := mem[prevp].(ptr := mem[p].ptr)]
    else
      var q := p + mem[p].size - n;
      mem[p := mem[p].(size := mem[p].size - n)][q := mem[q].(size := n)]
  }

  lemma TakenMem(h: Heap, j: nat, n: nat)
    requires 0 < j < |h.list| && h.list[j] in h.mem && h.list[j - 1] in h.mem
    requires 0 < n <= h.mem[h.list[j]].size && TakenAt(h, j, n) in h.mem
    ensures Taken(h, j, n).mem == TakeMem(h.mem, h.list[j - 1], h.list[j], n) && h.list[j - 1] in Taken(h, j, n).list
  {
    assert Taken(h, j, n).list[j - 1] == h.list[j - 1];
  }

  /** h' handed out n units at q, from the free block a of h: every unit is
      kept and no live block is touched. */
  ghost predicate HandsOut(h: Heap, h': Heap, a: Addr, q: Addr, n: nat) {
    && q !in h.live && h'.live == h.live[q := n] && h'.owner.Keys == h.owner.Keys && h'.top == h.top
    && (forall u :: q <= u < q + n ==> u in h.owner && h.owner[u] == a) && KeepsLive(h, h', q)
  }

  lemma TakeAllKeeps(h: Heap, base: Addr, j: nat)
    requires Valid(h, base) && 0 < j < |h.list| && h.list[j] in h.mem && h.list[j - 1] in h.mem
    ensures HandsOut(h, TakeAll(h, j), h.list[j], h.list[j], h.mem[h.list[j]].size)
  {
    assert h.list[j - 1] in h.list && h.list[j] in h.list && IsBlock(h, base, h.list[j]) && BlockOk(h, base, h.list[j]);
    forall u | u in h.owner && h.owner[u] in h.live ensures u != h.list[j - 1] && u in h.mem {
      LiveUnit(h, base, u, h.list[j - 1]);
    }
  }

  lemma TakeTailFrame(h: Heap, base: Addr, j: nat, n: nat)
    requires Valid(h, base) && j < |h.list| && h.list[j] in h.mem && 0 < n < h.mem[h.list[j]].size
    requires h.list[j] + h.mem[h.list[j]].size - n in h.mem
    requires forall u :: TakenAt(h, j, n) <= u < TakenAt(h, j, n) + n ==> u in h.owner && h.owner[u] == h.list[j]
    ensures KeepsLive(h, TakeTail(h, j, n), TakenAt(h, j, n))
  {
    var a := h.list[j];
    var h' := TakeTail(h, j, n);
    forall u | u in h.owner && h.owner[u] in h.live
      ensures u in h'.owner && h'.owner[u] == h.owner[u] && u in h.mem && u in h'.mem && h'.mem[u] == h.mem[u]
    {
      LiveUnit(h, base, u, a);
    }
  }

  lemma TailUnits(h: Heap, base: Addr, j: nat, n: nat)
    requires Valid(h, base) && j < |h.list| && h.list[j] in h.mem && 0 < n < h.mem[h.list[j]].size
    ensures forall u :: TakenAt(h, j, n) <= u < TakenAt(h, j, n) + n ==> u in h.owner && h.owner[u] == h.list[j]
    ensures TakenAt(h, j, n) !in h.live
  {
    var a := h.list[j];
    assert IsBlock(h, base, a) && BlockOk(h, base, a);
    TailIsNoBlock(h, base, a, TakenAt(h, j, n));
  }

  lemma TakeTailKeeps(h: Heap, base: Addr, j: nat, n: nat)
    requires Valid(h, base) && j < |h.list| && h.list[j] in h.mem && 0 < n < h.mem[h.list[j]].size
    requires h.list[j] + h.mem[h.list[j]].size - n in h.mem
    ensures HandsOut(h, TakeTail(h, j, n), h.list[j], TakenAt(h, j, n), n)
  {
    TailUnits(h, base, j, n);
    TakeTailFrame(h, base, j, n);
    assert TakeTail(h, j, n).owner.Keys == h.owner.Keys;
  }

  lemma TakenInMem(h: Heap, base: Addr, j: nat, n: nat)
    requires Valid(h, base) && 0 < j < |h.list| && h.list[j] in h.mem && 0 < n <= h.mem[h.list[j]].size
    ensures h.list[j - 1] in h.mem && h.list[j - 1] >= base && TakenAt(h, j, n) in h.mem
  {
    assert LinkOk(h.mem, h.list, j - 1);
    if n < h.mem[h.list[j]].size {
      TakeTailValid(h, base, j, n);
    }
  }

  /** Handing out a block keeps the heap sound and coalesced ... */
  lemma TakenValid(h: Heap, base: Addr, j: nat, n: nat)
    requires Valid(h, base) && Coalesced(h) && 0 < j < |h.list| && h.list[j] in h.mem && h.list[j - 1] in h.mem
    requires 0 < n <= h.mem[h.list[j]].size && TakenAt(h, j, n) in h.mem
    ensures Valid(Taken(h, j, n), base) && Coalesced(Taken(h, j, n))
  {
    if n == h.mem[h.list[j]].size {
      TakeAllValid(h, base, j);
      TakeAllCoalesced(h, base, j);
    } else {
      TakeTailValid(h, base, j, n);
      TakeTailCoalesced(h, base, j, n);
    }
  }

  /** ... and disturbs nothing else. */
  lemma TakenKeeps(h: Heap, base: Addr, j: nat, n: nat)
    requires Valid(h, base) && 0 < j < |h.list| && h.list[j] in h.mem && h.list[j - 1] in h.mem
    requires 0 < n <= h.mem[h.list[j]].size && TakenAt(h, j, n) in h.mem
    ensures HandsOut(h, Taken(h, j, n), h.list[j], TakenAt(h, j, n), n)
  {
    if n == h.mem[h.list[j]].size {
      TakeAllKeeps(h, base, j);
    } else {
      TakeTailKeeps(h, base, j, n);
    }
  }

  // ----- free undoes malloc -----

  /** Same free list with the same headers, same live blocks, same owners. */
  ghost predicate SameHeap(h: Heap, h': Heap) {
    && h'.list == h.list && h'.live == h.live && h'.owner == h.owner && h'.top == h.top
    && forall a :: a in h.list ==> a in h.mem && a in h'.mem && h'.mem[a] == h.mem[a]
  }

  /** Nothing is adjacent, so joining does nothing. */
  lemma JoinNothing(h: Heap, base: Addr, k: nat)
    requires Valid(h, base) && k < |h.list| && h.list[k] in h.mem && Gap(h, k)
    ensures Join(h, base, k) == h
  {
  }

  /** The list with block j taken out has its place for it before entry j. */
  lemma RemovedPlace(list: seq<Addr>, j: nat)
    requires Ascending(list) && 0 < j < |list|
    ensures Between(RemoveAt(list, j), j - 1, list[j]) && InsertAt(RemoveAt(list, j), j, list[j]) == list
  {
  }

  lemma ReinsertWhole(h: Heap, base: Addr, j: nat)
    requires ListOk(h, base) && 0 < j < |h.list| && h.list[j] in h.mem && h.list[j - 1] in h.mem && h.list[j] !in h.live
    ensures h.list[j] in TakeAll(h, j).live && Between(TakeAll(h, j).list, j - 1, h.list[j])
    ensures h.list[j] in TakeAll(h, j).mem && h.list[j - 1] in TakeAll(h, j).mem
    ensures Insert(TakeAll(h, j), j - 1, h.list[j]) == h
  {
    var a, p := h.list[j], h.list[j - 1];
    RemovedPlace(h.list, j);
    var h1 := TakeAll(h, j);
    assert LinkOk(h.mem, h.list, j) && LinkOk(h.mem, h.list, j - 1);
    var h2 := Insert(h1, j - 1, a);
    assert h1.list[j - 1] == p && NextOf(h1.list, j - 1) == NextOf(h.list, j);
    assert h2.list == h.list;
    assert h2.mem == h.mem;
    assert h2.live == h.live;
  }

  lemma FreeUndoesWhole(h: Heap, base: Addr, j: nat)
    requires Valid(h, base) && Coalesced(h) && 0 < j < |h.list| && h.list[j] in h.mem && h.list[j - 1] in h.mem
    ensures var h1 := TakeAll(h, j);
            && Valid(h1, base) && h.list[j] in h1.live && Between(h1.list, j - 1, h.list[j])
            && SameHeap(h, Freed(h1, base, j - 1, h.list[j]))
  {
    TakeAllValid(h, base, j);
    assert IsBlock(h, base, h.list[j]) && BlockOk(h, base, h.list[j]);
    ReinsertWhole(h, base, j);
    FreedAlone(TakeAll(h, j), base, j - 1, h.list[j]);
    ListInMem(h, base);
  }

  /** A block with no free neighbour is only inserted. */
  lemma FreedAlone(h: Heap, base: Addr, i: nat, b: Addr)
    requires Valid(h, base) && b in h.live && Between(h.list, i, b) && b in h.mem && h.list[i] in h.mem
    requires Gap(Insert(h, i, b), i) && Gap(Insert(h, i, b), i + 1)
    ensures Freed(h, base, i, b) == Insert(h, i, b)
  {
    InsertValid(h, base, i, b);
    var h1 := Insert(h, i, b);
    assert LinkOk(h1.mem, h1.list, i + 1) && LinkOk(h1.mem, h1.list, i);
    JoinNothing(h1, base, i + 1);
    JoinNothing(h1, base, i);
  }

  /** Putting the tail back after the rest of its block and joining them. */
  lemma ReinsertTail(h: Heap, base: Addr, j: nat, n: nat)
    requires Valid(h, base) && Coalesced(h) && 0 < j < |h.list| && h.list[j] in h.mem && 0 < n < h.mem[h.list[j]].size
    requires TakenAt(h, j, n) in h.mem && TakenAt(h, j, n) !in h.list && TakenAt(h, j, n) !in h.live
    ensures var h1, q := TakeTail(h, j, n), TakenAt(h, j, n);
            && q in h1.live && q in h1.mem && h1.list[j] in h1.mem && Between(h1.list, j, q)
            && var h2 := Insert(h1, j, q);
               && h2.list[j + 1] == q && Gap(h2, j + 1) && h2.list[j] + h2.mem[h2.list[j]].size == q
  {
    var a, q := h.list[j], TakenAt(h, j, n);
    var h1 := TakeTail(h, j, n);
    if j + 1 < |h.list| {
      ListApart(h, base, j, j + 1);
    }
    var h2 := Insert(h1, j, q);
    assert h2.list[j + 1] == q;
    assert j + 2 < |h2.list| ==> h2.list[j + 2] == h.list[j + 1];
  }

  /** Joining the tail with the rest of its block restores the heap. */
  lemma RejoinTail(h: Heap, base: Addr, j: nat, n: nat)
    requires ListOk(h, base) && 0 < j < |h.list| && h.list[j] in h.mem && 0 < n < h.mem[h.list[j]].size
    requires TakenAt(h, j, n) in h.mem && TakenAt(h, j, n) !in h.list && TakenAt(h, j, n) !in h.live
    requires forall u :: TakenAt(h, j, n) <= u < TakenAt(h, j, n) + n ==> u in h.owner && h.owner[u] == h.list[j]
    requires forall u :: u in h.owner ==> h.owner[u] != TakenAt(h, j, n)
    ensures var h1, q := TakeTail(h, j, n), TakenAt(h, j, n);
            && q in h1.mem && h1.list[j] in h1.mem
            && var h2 := Insert(h1, j, q);
               j + 1 < |h2.list| && h2.list[j] in h2.mem && h2.list[j + 1] in h2.mem && SameHeap(h, Merge(h2, j))
  {
    var a, q := h.list[j], TakenAt(h, j, n);
    var h1 := TakeTail(h, j, n);
    var h2 := Insert(h1, j, q);
    assert h2.list[j] == a && h2.list[j + 1] == q;
    var h3 := Merge(h2, j);
    assert h3.list == h.list;
    assert h3.live == h.live;
    assert h3.owner == h.owner;
    assert LinkOk(h.mem, h.list, j) && h3.mem[a] == h.mem[a];
    ListInMem(h, base);
  }

  lemma ListInMem(h: Heap, base: Addr)
    requires ListOk(h, base)
    ensures forall a :: a in h.list ==> a in h.mem
  {
    forall a | a in h.list ensures a in h.mem {
      var k :| 0 <= k < |h.list| && h.list[k] == a;
      assert LinkOk(h.mem, h.list, k);
    }
  }

  lemma FreeUndoesTail(h: Heap, base: Addr, j: nat, n: nat)
    requires Valid(h, base) && Coalesced(h) && 0 < j < |h.list| && h.list[j] in h.mem && 0 < n < h.mem[h.list[j]].size
    ensures TakenAt(h, j, n) in h.mem
    ensures var h1, q := TakeTail(h, j, n), TakenAt(h, j, n);
            && Valid(h1, base) && q in h1.live && Between(h1.list, j, q) && SameHeap(h, Freed(h1, base, j, q))
  {
    var a, q := h.list[j], TakenAt(h, j, n);
    assert IsBlock(h, base, a) && BlockOk(h, base, a);
    TailIsNoBlock(h, base, a, q);
    TakeTailValid(h, base, j, n);
    ReinsertTail(h, base, j, n);
    RejoinTail(h, base, j, n);
    var h1 := TakeTail(h, j, n);
    InsertValid(h1, base, j, q);
    var h2 := Insert(h1, j, q);
    assert LinkOk(h2.mem, h2.list, j + 1) && LinkOk(h2.mem, h2.list, j);
    JoinNothing(h2, base, j + 1);
  }

  /** Freeing the block malloc has just handed out restores the free list, every
      header on it, the live blocks and the owner of every unit. */
  lemma FreeUndoesMalloc(h: Heap, base: Addr, j: nat, n: nat)
    requires Valid(h, base) && Coalesced(h) && 0 < j < |h.list| && h.list[j] in h.mem && h.list[j - 1] in h.mem
    requires 0 < n <= h.mem[h.list[j]].size && TakenAt(h, j, n) in h.mem
    ensures var h1, q := Taken(h, j, n), TakenAt(h, j, n); var i := if n == h.mem[h.list[j]].size then j - 1 else j;
            && Valid(h1, base) && q in h1.live && Between(h1.list, i, q) && SameHeap(h, Freed(h1, base, i, q))
  {
    if n == h.mem[h.list[j]].size {
      FreeUndoesWhole(h, base, j);
    } else {
      FreeUndoesTail(h, base, j, n);
    }
  }
}
