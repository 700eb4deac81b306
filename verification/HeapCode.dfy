/** malloc, free and morecore of the user-level allocator. */
module HeapCode {
  import opened Wrappers
  import opened HeapModel

  function Units(nbytes: nat): nat {
    (nbytes + 16 - 1) / 16 + 1
  }

  /** A block of Units(n) units has room for n bytes after its header. */
  lemma UnitsEnough(nbytes: nat)
    ensures (Units(nbytes) - 1) * 16 >= nbytes && (nbytes > 0 ==> (Units(nbytes) - 2) * 16 < nbytes)
  {
  }

  /** sbrk takes an int: it gets the number of bytes that morecore records
      exactly when that is below 2^31. */
  lemma SbrkGetsTheSize(nu: nat)
    ensures AsInt(nu * 16) == nu * 16 <==> nu < 0x800_0000
  {
  }

  /** The one place in the list after which an address above base belongs. */
  lemma Place(list: seq<Addr>, b: Addr) returns (i: nat)
    requires |list| > 0 && list[0] < b && b !in list
    ensures Between(list, i, b)
  {
    i := 0;
    while i + 1 < |list| && list[i + 1] < b
      invariant i < |list| && list[i] < b
    {
      i := i + 1;
    }
  }

  /** The heap's invariant, stated recursively so that it is opened (by
      SoundIs) only where its parts are needed. */
  ghost predicate Sound(h: Heap, base: Addr, d: nat) {
    if d == 0 then HeapModel.Valid(h, base) && Coalesced(h) else Sound(h, base, d - 1)
  }

  lemma {:induction false} SoundIs(h: Heap, base: Addr, d: nat)
    ensures Sound(h, base, d) <==> HeapModel.Valid(h, base) && Coalesced(h)
  {
    if d > 0 {
      SoundIs(h, base, d - 1);
    }
  }

  lemma ListFacts(h: Heap, base: Addr, bp: Addr, d: nat)
    requires Sound(h, base, 1 + d) && bp in h.live
    ensures ListOk(h, base) && bp > base && bp !in h.list && bp in h.mem
  {
    SoundIs(h, base, 1 + d);
    assert IsBlock(h, base, bp) && BlockOk(h, base, bp);
  }

  lemma TakenSound(h: Heap, base: Addr, j: nat, n: nat, d: nat)
    requires Sound(h, base, 1 + d) && 0 < j < |h.list| && h.list[j] in h.mem && 0 < n <= h.mem[h.list[j]].size
    ensures h.list[j - 1] in h.mem && h.list[j - 1] >= base && TakenAt(h, j, n) in h.mem
    ensures Sound(Taken(h, j, n), base, 1 + d) && HandsOut(h, Taken(h, j, n), h.list[j], TakenAt(h, j, n), n)
  {
    SoundIs(h, base, 1 + d);
    TakenInMem(h, base, j, n);
    TakenValid(h, base, j, n);
    TakenKeeps(h, base, j, n);
    SoundIs(Taken(h, j, n), base, 1 + d);
  }

  lemma TakenSpec(h0: Heap, h: Heap, base: Addr, j: nat, n: nat, d: nat, region: Option<Addr>) returns (h': Heap)
    requires Sound(h, base, 1 + d) && 0 < j < |h.list| && h.list[j] in h.mem && 0 < n <= h.mem[h.list[j]].size
    requires if region.None? then h == h0 else Grown(h0, h, region.value, n)
    ensures h.list[j - 1] in h.mem && h.list[j - 1] >= base && TakenAt(h, j, n) in h.mem && h.list[j - 1] in h'.list
    ensures h'.mem == TakeMem(h.mem, h.list[j - 1], h.list[j], n) && h'.top == h.top
    ensures Sound(h', base, 1 + d) && Allocated(h0, h', TakenAt(h, j, n), n, region)
    ensures TakenAt(h, j, n) in h.owner && h.owner[TakenAt(h, j, n)] == h.list[j]
  {
    TakenSound(h, base, j, n, d);
    TakenMem(h, j, n);
    h' := Taken(h, j, n);
    MallocKeeps(h0, h, h', h.list[j], TakenAt(h, j, n), n, region);
  }

  class Allocator {
    const base: Addr
    var mem: map<Addr, Header>
    var freep: Addr              // 0 until the first malloc
    ghost var h: Heap
    ghost const depth: nat

    ghost predicate Valid()
      reads this
    {
      && base > 0 && base in mem && base < h.top
      && if freep == 0 then h.live == map[] && h.owner == map[] && h.list == []
         else h.mem == mem && Sound(h, base, 1 + depth) && freep in h.list
    }

    constructor (base: Addr)
      requires base > 0
      ensures Valid() && freep == 0 && h.live == map[] && h.owner == map[] && h.top == base + 1
    {
      this.base := base;
      depth := 0;
      mem := map[base := Header(0, 0)];
      freep := 0;
      h := Heap(map[base := Header(0, 0)], [], map[], map[], base + 1);
    }

    /** free's search: where in the circular list the block goes. */
    method FindPlace(bp: Addr) returns (p: Addr, ghost i: nat)
      requires Valid() && freep != 0 && bp in h.live
      ensures Between(h.list, i, bp) && p == h.list[i] && p in mem
    {
      ListFacts(h, base, bp, depth);
      ghost var goal := Place(h.list, bp);
      p := freep;
      i :| 0 <= i < |h.list| && h.list[i] == freep;
      assert LinkOk(h.mem, h.list, i);
      while !(bp > p && bp < mem[p].ptr)
        invariant i < |h.list| && p == h.list[i] && LinkOk(h.mem, h.list, i)
        decreases if i <= goal then goal - i else goal + |h.list| - i
      {
        if p >= mem[p].ptr && (bp > p || bp < mem[p].ptr) {
          break;
        }
        p := mem[p].ptr;
        i := if i + 1 < |h.list| then i + 1 else 0;
        assert LinkOk(h.mem, h.list, i);
      }
    }

    /** Returns a block to the list, joined with its neighbours. */
    method Free(ap: Addr)
      requires Valid() && ap > 0 && ap - 1 in h.live
      modifies this`mem, this`freep, this`h
      ensures Valid() && freep != 0
      ensures h.live == old(h.live) - {ap - 1} && h.owner.Keys == old(h.owner.Keys) && h.top == old(h.top)
      ensures KeepsLive(old(h), h, ap - 1)
      ensures Fits(h, old(h.live)[ap - 1])
      ensures exists i: nat :: Between(old(h.list), i, ap - 1) && freep == old(h.list)[i]
    {
      var bp := ap - 1;
      var p: Addr;
      ghost var i: nat;
      p, i := FindPlace(bp);
      h := FreedSpec(h, base, i, bp, depth);
      Splice(p, bp);
      freep := p;
    }

    /** Gets a region from sbrk, which fails or returns an address above all
        it returned before, and frees it. */
    method Morecore(nu: nat, sbrk: Option<Addr>) returns (p: Addr)
      requires Valid() && freep != 0 && 0 < nu && nu * 16 < 0x8000_0000
      requires sbrk.Some? ==> sbrk.value >= h.top
      modifies this`mem, this`freep, this`h
      ensures Valid() && freep != 0
      ensures sbrk.None? ==> p == 0 && h == old(h) && freep == old(freep)
      ensures sbrk.Some? ==> p == freep && h.live == old(h.live) && sbrk.value !in h.live
                             && KeepsLive(old(h), h, sbrk.value) && Fits(h, nu)
                             && h.owner.Keys == old(h.owner.Keys) + Span(sbrk.value, if nu < 4096 then 4096 else nu)
    {
      var n := Ask(nu);
      if sbrk.None? {
        return 0;
      }
      var hp := sbrk.value;
      ghost var h0 := h;
      Extend(hp, n);
      ghost var h1 := h;
      Free(hp + 1);
      KeepsTwice(h0, h1, h, hp);
      FitsLess(h, n, nu);
      assert h0.live[hp := n] - {hp} == h0.live;
      return freep;
    }

    /** sbrk's region, with the header morecore writes, as a live block. */
    method Extend(hp: Addr, n: nat)
      requires Valid() && freep != 0 && n > 0 && hp >= h.top
      modifies this`mem, this`h
      ensures Valid() && h.live == old(h.live)[hp := n] && hp !in old(h.live)
      ensures KeepsLive(old(h), h, hp) && h.owner.Keys == old(h.owner.Keys) + Span(hp, n)
    {
      GrowSpec(h, base, hp, n, depth);
      mem := Extended(mem, hp, n);
      mem := mem[hp := mem[hp].(size := n)];
      h := Grow(h, hp, n);
    }

    lemma Apart(i: nat, j: nat)
      requires Valid() && freep != 0 && i < |h.list| && j < |h.list|
      ensures h.list[i] == h.list[j] ==> i == j
    {
      SoundIs(h, base, 1 + depth);
    }

    lemma At(j: nat)
      requires Valid() && freep != 0 && j < |h.list|
      ensures h.list[j] in mem && mem[h.list[j]].ptr == NextOf(h.list, j) && h.list[j] >= base
      ensures j == 0 ==> mem[h.list[j]].size == 0
    {
      SoundIs(h, base, 1 + depth);
      assert LinkOk(h.mem, h.list, j);
    }

    /** Hands out n units of free block p, whose predecessor is prevp. */
    method Take(prevp: Addr, p: Addr, n: nat, ghost j: nat, ghost h0: Heap, ghost region: Option<Addr>) returns (q: Addr)
      requires Valid() && freep != 0 && 0 < j < |h.list| && p == h.list[j] && prevp == h.list[j - 1]
      requires p in mem && 0 < n <= mem[p].size
      requires if region.None? then h == h0 else Grown(h0, h, region.value, n)
      modifies this`mem, this`freep, this`h
      ensures Valid() && freep != 0 && Allocated(h0, h, q, n, region)
      ensures q in old(h).owner && old(h).owner[q] == p && freep == prevp
    {
      h := TakenSpec(h0, h, base, j, n, depth, region);
      q := Cut(prevp, p, n);
      freep := prevp;
    }

    /** malloc's updates of headers for a block that is large enough. */
    method Cut(prevp: Addr, p: Addr, n: nat) returns (q: Addr)
      requires prevp in mem && p in mem && 0 < n <= mem[p].size && p + mem[p].size - n in mem
      modifies this`mem
      ensures q == p + old(mem)[p].size - n && mem == TakeMem(old(mem), prevp, p, n)
    {
      q := p;
      if mem[p].size == n {
        mem := mem[prevp := mem[prevp].(ptr := mem[p].ptr)];
      } else {
        mem := mem[p := mem[p].(size := mem[p].size - n)];
        q := p + mem[p].size;
        mem := mem[q := mem[q].(size := n)];
      }
    }

    /** First fit from freep on, growing the heap at most once; returns 0 when
        nothing fits and sbrk fails. */
    method Malloc(nbytes: nat, sbrk: Option<Addr>) returns (r: Addr, ghost grew: bool)
      requires Valid() && Units(nbytes) * 16 < 0x8000_0000 && (sbrk.Some? ==> sbrk.value >= h.top)
      modifies this`mem, this`freep, this`h
      ensures Valid() && freep != 0 && (grew ==> sbrk.Some?)
      ensures r == 0 ==> sbrk.None? && h.live == old(h.live) && h.owner == old(h.owner) && !Fits(old(h), Units(nbytes))
      ensures r > 0 ==> Allocated(old(h), h, r - 1, Units(nbytes), if grew then sbrk else None)
      ensures r > 0 && !grew ==> old(freep) != 0 && FirstFit(old(h), old(freep), r - 1, Units(nbytes), freep)
    {
      var nunits := Units(nbytes);
      Start();
      ghost var h0 := h;
      r, grew := Search(nunits, sbrk);
      if r > 0 && old(freep) == 0 {
        AllocatedFromStart(old(h), h0, h, r - 1, nunits, if grew then sbrk else None);
      }
    }

    /** malloc's loop. */
    method Search(nunits: nat, sbrk: Option<Addr>) returns (r: Addr, ghost grew: bool)
      requires Valid() && freep != 0 && 0 < nunits && nunits * 16 < 0x8000_0000 && (sbrk.Some? ==> sbrk.value >= h.top)
      modifies this`mem, this`freep, this`h
      ensures Valid() && freep != 0 && (grew ==> sbrk.Some?)
      ensures r == 0 ==> sbrk.None? && h == old(h) && !Fits(h, nunits)
      ensures r > 0 ==> Allocated(old(h), h, r - 1, nunits, if grew then sbrk else None)
      ensures r > 0 && !grew ==> FirstFit(old(h), old(freep), r - 1, nunits, freep)
    {
      ghost var h0 := h;
      grew := false;
      var prevp := freep;
      ghost var f: nat :| f < |h.list| && h.list[f] == freep;
      At(f);
      var p := mem[prevp].ptr;
      ghost var i: nat := f;
      ghost var j: nat := if f + 1 < |h.list| then f + 1 else 0;
      NothingPassed(h, f, nunits);
      while true
        invariant Valid() && freep != 0 && f < |h.list| && h.list[f] == freep
        invariant i < |h.list| && prevp == h.list[i] && j == (if i + 1 < |h.list| then i + 1 else 0) && p == h.list[j]
        invariant Searched(h, f, j, nunits)
        invariant if grew then sbrk.Some? && Grown(h0, h, sbrk.value, nunits) else h == h0 && freep == old(freep)
        decreases if grew then 0 else 1, ToGo(f, j, |h.list|)
      {
        At(j);
        if mem[p].size >= nunits {
          assert !TooSmall(h, j, nunits);
          var q := Take(prevp, p, nunits, j, h0, if grew then sbrk else None);
          return q + 1, grew;
        }
        Apart(f, j);
        assert TooSmall(h, j, nunits);
        if p == freep {
          RoundMeansNoFit(h, f, nunits);
          p := Morecore(nunits, sbrk);
          if p == 0 {
            return 0, false;
          }
          grew := true;
          f :| 0 <= f < |h.list| && h.list[f] == freep;
          j := f;
          NothingPassed(h, f, nunits);
        } else {
          PassedMore(h, f, j, nunits);
        }
        At(j);
        prevp := p;
        p := mem[p].ptr;
        i, j := j, if j + 1 < |h.list| then j + 1 else 0;
      }
    }

    /** malloc's set-up of the list on the first call. */
    method Start()
      requires Valid()
      modifies this`mem, this`freep, this`h
      ensures Valid() && freep != 0 && h.live == old(h.live) && h.owner == old(h.owner) && h.top == old(h.top)
      ensures if old(freep) != 0 then h == old(h) && freep == old(freep) else SameBlocks(old(h), h) && h.owner == map[]
    {
      if freep == 0 {
        freep := base;
        mem := mem[base := mem[base].(ptr := base)];
        mem := mem[base := mem[base].(size := 0)];
        h := Heap(mem, [base], map[], map[], h.top);
        SoundIs(h, base, 1 + depth);
      }
    }

    /** free's two updates of headers. */
    method Splice(p: Addr, bp: Addr)
      requires p in mem && bp in mem && mem[p].ptr in mem
      modifies this`mem
      ensures mem == FreeMem(old(mem), p, bp)
    {
      var next := mem[p].ptr;
      if bp + mem[bp].size == next {
        mem := mem[bp := Header(mem[next].ptr, mem[bp].size + mem[next].size)];
      } else {
        mem := mem[bp := mem[bp].(ptr := next)];
      }
      if p + mem[p].size == bp {
        mem := mem[p := Header(mem[bp].ptr, mem[p].size + mem[bp].size)];
      } else {
        mem := mem[p := mem[p].(ptr := bp)];
      }
    }
  }

  /** Going round the list from just after entry f to entry j passes x. */
  ghost predicate Passed(f: nat, j: nat, x: nat) {
    if f < j then f < x < j else x > f || x < j
  }

  /** Steps still to go from entry j to entry f of a list of n entries. */
  ghost function ToGo(f: nat, j: nat, n: nat): nat
    requires f < n && j < n
  {
    if j > f then f + n - j else f - j
  }

  ghost predicate TooSmall(h: Heap, x: nat, n: nat) {
    x < |h.list| && h.list[x] in h.mem ==> h.mem[h.list[x]].size < n
  }

  /** Every entry from just after f up to j has too few units. */
  ghost predicate Searched(h: Heap, f: nat, j: nat, n: nat) {
    forall x: nat :: x < |h.list| && Passed(f, j, x) ==> TooSmall(h, x, n)
  }

  /** The block at q was cut from the first block after freep, going round the
      list, that has n units, and `before` is the entry before that block. */
  ghost predicate FirstFit(h: Heap, freep: Addr, q: Addr, n: nat, before: Addr) {
    exists f: nat, j: nat ::
      && f < |h.list| && h.list[f] == freep && 0 < j < |h.list| && Searched(h, f, j, n)
      && q in h.owner && h.owner[q] == h.list[j] && !TooSmall(h, j, n) && h.list[j - 1] == before
  }

  /** A whole round without success: no free block is large enough. */
  lemma RoundMeansNoFit(h: Heap, f: nat, n: nat)
    requires f < |h.list| && TooSmall(h, f, n) && Searched(h, f, f, n)
    ensures !Fits(h, n)
  {
    forall a | a in h.list && a in h.mem ensures h.mem[a].size < n {
      var x :| 0 <= x < |h.list| && h.list[x] == a;
      assert TooSmall(h, x, n);
    }
  }

  lemma PassedMore(h: Heap, f: nat, j: nat, n: nat)
    requires f < |h.list| && j < |h.list| && j != f && TooSmall(h, j, n) && Searched(h, f, j, n)
    ensures var j' := if j + 1 < |h.list| then j + 1 else 0;
            Searched(h, f, j', n) && ToGo(f, j', |h.list|) < ToGo(f, j, |h.list|)
  {
  }

  lemma NothingPassed(h: Heap, f: nat, n: nat)
    requires f < |h.list|
    ensures Searched(h, f, if f + 1 < |h.list| then f + 1 else 0, n)
  {
  }

  /** h is h0 after morecore(n) got a region at r. */
  ghost predicate Grown(h0: Heap, h: Heap, r: Addr, n: nat) {
    && h.live == h0.live && r !in h0.live && KeepsLive(h0, h, r) && Fits(h, n) && !Fits(h0, n)
    && h.owner.Keys == h0.owner.Keys + Span(r, Ask(n))
  }

  lemma MallocKeeps(h0: Heap, h1: Heap, h2: Heap, a: Addr, q: Addr, n: nat, region: Option<Addr>)
    requires HandsOut(h1, h2, a, q, n)
    requires if region.None? then h1 == h0 else Grown(h0, h1, region.value, n)
    ensures Allocated(h0, h2, q, n, region)
  {
  }

  /** Setting up the list changes no block. */
  ghost predicate SameBlocks(h: Heap, h': Heap) {
    h.list == [] && h.live == h'.live == map[] && h.owner == h'.owner
  }

  lemma AllocatedFromStart(h: Heap, h0: Heap, h': Heap, q: Addr, n: nat, region: Option<Addr>)
    requires SameBlocks(h, h0) && Allocated(h0, h', q, n, region)
    ensures Allocated(h, h', q, n, region)
  {
  }

  /** h is h0 with a new live block of n units at q, after adding a region if
      nothing fitted. */
  ghost predicate Allocated(h0: Heap, h: Heap, q: Addr, n: nat, region: Option<Addr>) {
    && q !in h0.live && h.live == h0.live[q := n] && KeepsLive(h0, h, q)
    && h.owner.Keys == h0.owner.Keys + (if region.Some? then Span(region.value, Ask(n)) else {})
    && (region.Some? ==> !Fits(h0, n))
  }

  /** What morecore asks sbrk for, in units. */
  function Ask(nu: nat): nat {
    if nu < 4096 then 4096 else nu
  }

  /** Adding a region disturbs no live block. */
  lemma GrowKeeps(h: Heap, base: Addr, r: Addr, n: nat)
    requires HeapModel.Valid(h, base) && h.top <= r && n > 0
    ensures r !in h.live && KeepsLive(h, Grow(h, r, n), r) && Grow(h, r, n).owner.Keys == h.owner.Keys + Span(r, n)
  {
    AllBelowTop(h, base);
    forall u | u in h.owner ensures u in h.mem && h.owner[u] != r {
      assert IsBlock(h, base, h.owner[u]) && BlockOk(h, base, h.owner[u]);
    }
  }

  lemma GrowSpec(h: Heap, base: Addr, r: Addr, n: nat, d: nat)
    requires Sound(h, base, 1 + d) && h.top <= r && n > 0
    ensures Sound(Grow(h, r, n), base, 1 + d)
    ensures r !in h.live && KeepsLive(h, Grow(h, r, n), r) && Grow(h, r, n).owner.Keys == h.owner.Keys + Span(r, n)
  {
    SoundIs(h, base, 1 + d);
    SoundIs(Grow(h, r, n), base, 1 + d);
    GrowValid(h, base, r, n);
    GrowList(h, base, r, n);
    GrowKeeps(h, base, r, n);
  }

  /** The entry before the freed block stays on the list. */
  lemma FreedPlace(h: Heap, base: Addr, i: nat, b: Addr)
    requires HeapModel.Valid(h, base) && b in h.live && Between(h.list, i, b)
    ensures h.list[i] in Freed(h, base, i, b).list
  {
    InsertValid(h, base, i, b);
    var h1 := Insert(h, i, b);
    assert LinkOk(h1.mem, h1.list, i + 1);
    var h2 := Join(h1, base, i + 1);
    assert LinkOk(h2.mem, h2.list, i);
    assert h2.list[i] == h2.list[..i + 2][i] == h.list[i];
    JoinGrows(h2, base, i);
    assert Join(h2, base, i).list[i] in Join(h2, base, i).list;
  }

  /** Some free block has at least n units. */
  ghost predicate Fits(h: Heap, n: nat) {
    exists a :: a in h.list && a in h.mem && h.mem[a].size >= n
  }

  lemma FitsLess(h: Heap, n: nat, m: nat)
    requires Fits(h, n) && m <= n
    ensures Fits(h, m)
  {
    var a :| a in h.list && a in h.mem && h.mem[a].size >= n;
    assert h.mem[a].size >= m;
  }

  /** h' is h with block b freed, its predecessor on the list being p. */
  ghost predicate FreedAs(h: Heap, h': Heap, p: Addr, b: Addr) {
    && p in h'.list && p in h.mem && b in h.mem && h.mem[p].ptr in h.mem && h'.mem == FreeMem(h.mem, p, b)
    && h'.live == h.live - {b} && h'.owner.Keys == h.owner.Keys && h'.top == h.top && KeepsLive(h, h', b)
    && b in h.live && Fits(h', h.live[b])
  }

  lemma FreedSpec(h: Heap, base: Addr, i: nat, b: Addr, d: nat) returns (h': Heap)
    requires Sound(h, base, 1 + d) && b in h.live && Between(h.list, i, b)
    ensures Sound(h', base, 1 + d) && FreedAs(h, h', h.list[i], b) && h.list[i] >= base
  {
    SoundIs(h, base, 1 + d);
    h' := Freed(h, base, i, b);
    assert IsBlock(h, base, b) && BlockOk(h, base, b);
    FreedMem(h, base, i, b);
    FreedCoalesced(h, base, i, b);
    FreedKeeps(h, base, i, b);
    FreedCovers(h, base, i, b);
    FreedPlace(h, base, i, b);
    SoundIs(h', base, 1 + d);
  }
}
