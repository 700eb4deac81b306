/** The page allocator and the virtual-memory functions as code over physical
    memory.  Every allocatable page is at any time on the free list, a table
    page (`node`), a data page mapped at one place (`owner`), or in the hands
    of a caller (`other`). */
module VmCode {
  import opened Sv39

  /** The words that memset(pa, 1, PGSIZE) and memset(pa, 5, PGSIZE) leave. */
  const JUNK_FREE := Word(0x0101_0101_0101_0101 / 1024, 0x101)
  const JUNK_ALLOC := Word(0x0505_0505_0505_0505 / 1024, 0x105)

  /** r->next: the address of a page, or null. */
  function Pointer(p: nat): Word { Word(4 * p, 0) }

  function Filled(w: Word): (r: Page)
    ensures forall i :: 0 <= i < ENTRIES ==> r[i] == w
  {
    seq(ENTRIES, _ => w)
  }

  ghost function PagesFrom(a: nat, b: nat): (s: set<nat>)
    ensures forall p :: p in s <==> a <= p < b
    decreases b - a
  {
    if a >= b then {} else {a} + PagesFrom(a + 1, b)
  }

  type Owner = map<nat, (nat, nat)>

  /** The free list runs through the first word of each free page. */
  ghost predicate FreeOk(mem: Mem, kstart: nat, head: nat, free: seq<nat>) {
    && (forall i :: 0 <= i < |free| ==> kstart <= free[i] < |mem|)
    && (forall i, j :: 0 <= i < j < |free| ==> free[i] != free[j])
    && head == (if free == [] then 0 else free[0])
    && (forall i :: 0 <= i < |free| ==> Link(mem, free, i))
  }

  ghost predicate Link(mem: Mem, free: seq<nat>, i: nat)
    requires i < |free| && free[i] < |mem|
  {
    mem[free[i]][0] == Pointer(if i + 1 < |free| then free[i + 1] else 0)
  }

  ghost predicate Partition(kstart: nat, npages: nat, free: seq<nat>, node: Nodes, owner: Owner, other: set<nat>) {
    && (forall p :: p in node.Values ==> kstart <= p < npages && p !in free && p !in owner && p !in other)
    && (forall p :: p in owner ==> kstart <= p < npages && p !in free && p !in other)
    && (forall p :: p in other ==> kstart <= p < npages && p !in free)
    && (forall p :: kstart <= p < npages ==> p in free || p in node.Values || p in owner || p in other)
  }

  /** The finite map the page tables stand for: (page table, page number) to
      the valid last-level entry. */
  type View = map<(nat, nat), Word>

  ghost predicate ViewOk(mem: Mem, node: Nodes, view: View) {
    forall r: nat, v: nat {:trigger Leaf(mem, node, r, v)} ::
      && (V(Leaf(mem, node, r, v)) <==> (r, v) in view)
      && (V(Leaf(mem, node, r, v)) ==> view[(r, v)] == Leaf(mem, node, r, v))
  }

  /** A data page is mapped at the place its owner entry says. */
  ghost predicate DataOk(view: View, owner: Owner) {
    forall p :: p in owner ==> owner[p] in view && view[owner[p]].hi == p && IsLeaf(view[owner[p]])
  }

  /** The contents of data pages and of the caller's pages are as before. */
  ghost predicate SameData(mem: Mem, mem1: Mem, owner: Owner, other: set<nat>) {
    |mem1| == |mem| && forall p :: 0 <= p < |mem| && (p in owner || p in other) ==> mem1[p] == mem[p]
  }

  /** Tables have only been added, and only to page table `root`. */
  ghost predicate Grown(node0: Nodes, node: Nodes, root: nat) {
    && (forall p :: p in node0 ==> p in node && node[p] == node0[p])
    && (forall p :: p in node && p !in node0 ==> p.root == root && p.level < 2)
  }

  // ----- how many pages a mapping takes -----

  ghost function Lacks(node: Nodes, root: nat, level: nat, prefix: nat): nat {
    if Pos(root, level, prefix) in node then 0 else 1
  }

  /** The tables of one level, lo up to hi, that page table `root` lacks. */
  ghost function LackCount(node: Nodes, root: nat, level: nat, lo: nat, hi: nat): nat
    decreases hi - lo
  {
    if lo >= hi then 0 else LackCount(node, root, level, lo, hi - 1) + Lacks(node, root, level, hi - 1)
  }

  /** The tables that page table `root` lacks for mapping pages a up to b. */
  ghost function Missing(node: Nodes, root: nat, a: nat, b: nat): nat {
    if a >= b then 0
    else LackCount(node, root, 1, Prefix(1, a), Prefix(1, b - 1) + 1)
         + LackCount(node, root, 0, Prefix(0, a), Prefix(0, b - 1) + 1)
  }

  predicate InSpan(level: nat, prefix: nat, a: nat, b: nat) {
    level < 2 && a < b && Prefix(level, a) <= prefix <= Prefix(level, b - 1)
  }

  /** The tables for pages a up to b have been added, and no others of that page table. */
  ghost predicate Spanned(node0: Nodes, node: Nodes, root: nat, a: nat, b: nat) {
    forall level: nat, prefix: nat ::
      Pos(root, level, prefix) in node <==> Pos(root, level, prefix) in node0 || InSpan(level, prefix, a, b)
  }

  /** Of n0 free pages, `data` pages and the missing tables for pages a up to b are taken. */
  ghost predicate Taken(n0: nat, node0: Nodes, n: nat, node: Nodes, root: nat, a: nat, b: nat, data: nat) {
    Spanned(node0, node, root, a, b) && n + data + Missing(node0, root, a, b) == n0
  }

  lemma PrefixMono(level: nat, a: nat, b: nat)
    requires level < 2 && a <= b
    ensures Prefix(level, a) <= Prefix(level, b) <= Prefix(level, b + 1) <= Prefix(level, b) + 1
  {
  }

  lemma MissingAt(node: Nodes, root: nat, v: nat)
    ensures Missing(node, root, v, v + 1) == Lacks(node, root, 1, Prefix(1, v)) + Lacks(node, root, 0, Prefix(0, v))
  {
    LackOne(node, root, 1, Prefix(1, v));
    LackOne(node, root, 0, Prefix(0, v));
  }

  lemma LackOne(node: Nodes, root: nat, level: nat, prefix: nat)
    ensures LackCount(node, root, level, prefix, prefix + 1) == Lacks(node, root, level, prefix)
  {
    assert LackCount(node, root, level, prefix, prefix) == 0;
  }

  /** One level of the next page: its table is there already, or is lacking as at the start. */
  lemma LackStep(node0: Nodes, node: Nodes, root: nat, level: nat, a: nat, v: nat)
    requires level < 2 && a <= v && Spanned(node0, node, root, a, v)
    ensures LackCount(node0, root, level, Prefix(level, a), Prefix(level, v) + 1)
            == (if a == v then 0 else LackCount(node0, root, level, Prefix(level, a), Prefix(level, v - 1) + 1))
               + Lacks(node, root, level, Prefix(level, v))
  {
    assert Pos(root, level, Prefix(level, v)) in node
      <==> Pos(root, level, Prefix(level, v)) in node0 || InSpan(level, Prefix(level, v), a, v);
    if a < v {
      PrefixMono(level, a, v - 1);
    }
  }

  lemma MissingStep(node0: Nodes, node: Nodes, root: nat, a: nat, v: nat)
    requires a <= v && Spanned(node0, node, root, a, v)
    ensures Missing(node0, root, a, v + 1) == Missing(node0, root, a, v) + Missing(node, root, v, v + 1)
  {
    LackStep(node0, node, root, 1, a, v);
    LackStep(node0, node, root, 0, a, v);
    MissingAt(node, root, v);
  }

  lemma SpannedStep(node0: Nodes, node1: Nodes, node: Nodes, root: nat, a: nat, v: nat)
    requires a <= v && Spanned(node0, node1, root, a, v) && Spanned(node1, node, root, v, v + 1)
    ensures Spanned(node0, node, root, a, v + 1)
  {
    forall level: nat, prefix: nat
      ensures Pos(root, level, prefix) in node <==> Pos(root, level, prefix) in node0 || InSpan(level, prefix, a, v + 1)
    {
      assert Pos(root, level, prefix) in node1 <==> Pos(root, level, prefix) in node0 || InSpan(level, prefix, a, v);
      if level < 2 && a < v {
        PrefixMono(level, a, v - 1);
      }
    }
  }

  lemma TakenMore(n0: nat, node0: Nodes, n1: nat, node1: Nodes, n: nat, node: Nodes, root: nat, a: nat, v: nat,
                  d: nat, e: nat)
    requires a <= v && Taken(n0, node0, n1, node1, root, a, v, d) && Taken(n1, node1, n, node, root, v, v + 1, e)
    ensures Taken(n0, node0, n, node, root, a, v + 1, d + e)
  {
    MissingStep(node0, node1, root, a, v);
    SpannedStep(node0, node1, node, root, a, v);
  }

  lemma {:induction false} LackMono(node: Nodes, root: nat, level: nat, lo: nat, mid: nat, hi: nat)
    requires mid <= hi
    ensures LackCount(node, root, level, lo, mid) <= LackCount(node, root, level, lo, hi)
  {
    if mid < hi && lo < hi {
      LackMono(node, root, level, lo, mid, hi - 1);
    }
  }

  lemma MissingMono(node: Nodes, root: nat, a: nat, b: nat, c: nat)
    requires a <= b <= c
    ensures Missing(node, root, a, b) <= Missing(node, root, a, c)
  {
    if a < b {
      assert Prefix(1, b - 1) <= Prefix(1, c - 1) && Prefix(0, b - 1) <= Prefix(0, c - 1);
      LackMono(node, root, 1, Prefix(1, a), Prefix(1, b - 1) + 1, Prefix(1, c - 1) + 1);
      LackMono(node, root, 0, Prefix(0, a), Prefix(0, b - 1) + 1, Prefix(0, c - 1) + 1);
    }
  }

  lemma {:induction false} LackBound(node: Nodes, root: nat, level: nat, lo: nat, hi: nat)
    requires lo <= hi
    ensures LackCount(node, root, level, lo, hi) <= hi - lo
  {
    if lo < hi {
      LackBound(node, root, level, lo, hi - 1);
    }
  }

  /** A page takes at most two tables, so three free pages per page suffice. */
  lemma MissingBound(node: Nodes, root: nat, a: nat, b: nat)
    requires a <= b
    ensures Missing(node, root, a, b) <= 2 * (b - a)
  {
    if a < b {
      assert Prefix(1, b - 1) - Prefix(1, a) <= b - 1 - a && Prefix(0, b - 1) - Prefix(0, a) <= b - 1 - a;
      PrefixMono(1, a, b - 1);
      PrefixMono(0, a, b - 1);
      LackBound(node, root, 1, Prefix(1, a), Prefix(1, b - 1) + 1);
      LackBound(node, root, 0, Prefix(0, a), Prefix(0, b - 1) + 1);
    }
  }

  /** The walk to page v has come down to `level`. */
  ghost predicate OnPath(node0: Nodes, node: Nodes, root: nat, v: nat, level: nat) {
    forall l: nat, prefix: nat ::
      Pos(root, l, prefix) in node <==> Pos(root, l, prefix) in node0 || (level <= l < 2 && prefix == Prefix(l, v))
  }

  /** The tables made on the way down. */
  ghost function MadeTo(node: Nodes, root: nat, v: nat, level: nat): nat {
    (if level <= 1 then Lacks(node, root, 1, Prefix(1, v)) else 0)
    + (if level == 0 then Lacks(node, root, 0, Prefix(0, v)) else 0)
  }

  /** One level further: the table is there, or has been made. */
  lemma PathStep(node0: Nodes, node1: Nodes, node: Nodes, root: nat, v: nat, level: nat)
    requires 1 <= level <= 2 && OnPath(node0, node1, root, v, level)
    requires var q := Pos(root, level - 1, Prefix(level - 1, v));
             node.Keys == node1.Keys + {q}
    ensures OnPath(node0, node, root, v, level - 1)
    ensures MadeTo(node0, root, v, level - 1)
            == MadeTo(node0, root, v, level) + Lacks(node1, root, level - 1, Prefix(level - 1, v))
  {
    var q := Pos(root, level - 1, Prefix(level - 1, v));
    assert q in node1 <==> q in node0;
    forall l: nat, prefix: nat
      ensures Pos(root, l, prefix) in node
              <==> Pos(root, l, prefix) in node0 || (level - 1 <= l < 2 && prefix == Prefix(l, v))
    {
      assert Pos(root, l, prefix) in node <==> Pos(root, l, prefix) in node1 || Pos(root, l, prefix) == q;
    }
  }

  lemma PathEnds(n0: nat, node0: Nodes, n: nat, node: Nodes, root: nat, v: nat)
    requires OnPath(node0, node, root, v, 0) && n + MadeTo(node0, root, v, 0) == n0
    ensures Taken(n0, node0, n, node, root, v, v + 1, 0)
  {
    MissingAt(node0, root, v);
    forall level: nat, prefix: nat
      ensures Pos(root, level, prefix) in node <==> Pos(root, level, prefix) in node0 || InSpan(level, prefix, v, v + 1)
    {
      assert Pos(root, level, prefix) in node
        <==> Pos(root, level, prefix) in node0 || (0 <= level < 2 && prefix == Prefix(level, v));
    }
  }

  /** A walk that stops for want of a table had too few pages for the whole path. */
  lemma PathShort(node0: Nodes, node1: Nodes, root: nat, v: nat, level: nat)
    requires OnPath(node0, node1, root, v, level) && 1 <= level <= 2
    requires Pos(root, level - 1, Prefix(level - 1, v)) !in node1
    ensures MadeTo(node0, root, v, level) < Missing(node0, root, v, v + 1)
  {
    MissingAt(node0, root, v);
    assert Pos(root, level - 1, Prefix(level - 1, v)) !in node0;
  }

  lemma SameView(mem: Mem, node: Nodes, mem1: Mem, node1: Nodes, view: View)
    requires ViewOk(mem, node, view)
    requires forall r: nat, v: nat :: Leaf(mem1, node1, r, v) == Leaf(mem, node, r, v)
    ensures ViewOk(mem1, node1, view)
  {
  }

  /** What was there before; n is the number of free pages. */
  datatype Snap = Snap(mem: Mem, node: Nodes, view: View, owner: Owner, n: nat)

  class Vm {
    const kstart: nat
    var mem: Mem
    var freelist: nat
    ghost var free: seq<nat>
    ghost var node: Nodes
    ghost var view: View
    ghost var owner: Owner
    ghost var other: set<nat>

    ghost predicate Valid()
      reads this
    {
      ValidBut({})
    }

    /** The invariant, but for entries in `ex`.  It is stated through Folded so
        that methods which only hand it on do not have it unfolded under them;
        Open and Close convert. */
    ghost predicate ValidBut(ex: set<(Pos, nat)>)
      reads this
    {
      Folded(1 + depth, ex)
    }

    ghost const depth: nat

    ghost predicate Folded(d: nat, ex: set<(Pos, nat)>)
      reads this
      decreases d
    {
      if d == 0 then Inv(ex) else Folded(d - 1, ex)
    }

    lemma {:induction false} Fold(d: nat, ex: set<(Pos, nat)>)
      ensures Folded(d, ex) <==> Inv(ex)
      decreases d
    {
      if d > 0 {
        Fold(d - 1, ex);
      }
    }

    lemma Open(ex: set<(Pos, nat)>)
      requires ValidBut(ex)
      ensures Inv(ex)
    {
      Fold(1 + depth, ex);
    }

    lemma Close(ex: set<(Pos, nat)>)
      requires Inv(ex)
      ensures ValidBut(ex)
    {
      Fold(1 + depth, ex);
    }

    ghost predicate Inv(ex: set<(Pos, nat)>)
      reads this
    {
      && 0 < kstart
      && FreeOk(mem, kstart, freelist, free)
      && Partition(kstart, |mem|, free, node, owner, other)
      && TreeOk(mem, node, ex)
      && ViewOk(mem, node, view)
      && DataOk(view, owner)
    }

    /** Missing, folded like the invariant. */
    ghost function Need(node: Nodes, root: nat, a: nat, b: nat): nat { NeedIn(1 + depth, node, root, a, b) }

    ghost function NeedIn(d: nat, node: Nodes, root: nat, a: nat, b: nat): nat
      decreases d
    {
      if d == 0 then Missing(node, root, a, b) else NeedIn(d - 1, node, root, a, b)
    }

    lemma {:induction false} NeedAt(d: nat, node: Nodes, root: nat, a: nat, b: nat)
      ensures NeedIn(d, node, root, a, b) == Missing(node, root, a, b)
      decreases d
    {
      if d > 0 {
        NeedAt(d - 1, node, root, a, b);
      }
    }

    lemma NeedIs(node: Nodes, root: nat, a: nat, b: nat)
      ensures Need(node, root, a, b) == Missing(node, root, a, b)
    {
      NeedAt(1 + depth, node, root, a, b);
    }

    lemma NeedMono(node: Nodes, root: nat, a: nat, b: nat, c: nat)
      requires a <= b <= c
      ensures Need(node, root, a, b) <= Need(node, root, a, c)
    {
      MissingMono(node, root, a, b, c);
      NeedIs(node, root, a, b);
      NeedIs(node, root, a, c);
    }

    /** Taken, folded likewise. */
    ghost predicate Charged(n0: nat, node0: Nodes, n: nat, node: Nodes, root: nat, a: nat, b: nat, data: nat) {
      Counted(1 + depth, n0, node0, n, node, root, a, b, data)
    }

    ghost predicate Counted(d: nat, n0: nat, node0: Nodes, n: nat, node: Nodes, root: nat, a: nat, b: nat, data: nat)
      decreases d
    {
      if d == 0 then Taken(n0, node0, n, node, root, a, b, data) else Counted(d - 1, n0, node0, n, node, root, a, b, data)
    }

    lemma {:induction false} Count(d: nat, n0: nat, node0: Nodes, n: nat, node: Nodes, root: nat, a: nat, b: nat, data: nat)
      ensures Counted(d, n0, node0, n, node, root, a, b, data) <==> Taken(n0, node0, n, node, root, a, b, data)
      decreases d
    {
      if d > 0 {
        Count(d - 1, n0, node0, n, node, root, a, b, data);
      }
    }

    lemma ChargedIs(n0: nat, node0: Nodes, n: nat, node: Nodes, root: nat, a: nat, b: nat, data: nat)
      ensures Charged(n0, node0, n, node, root, a, b, data) <==> Taken(n0, node0, n, node, root, a, b, data)
    {
      Count(1 + depth, n0, node0, n, node, root, a, b, data);
    }

    lemma ChargedNothing(n: nat, node: Nodes, root: nat, a: nat)
      ensures Charged(n, node, n, node, root, a, a, 0)
    {
      ChargedIs(n, node, n, node, root, a, a, 0);
    }

    /** One page more. */
    lemma ChargedMore(n0: nat, node0: Nodes, n1: nat, node1: Nodes, n: nat, node: Nodes, root: nat, a: nat, v: nat,
                      d: nat, e: nat)
      requires a <= v && Charged(n0, node0, n1, node1, root, a, v, d) && Charged(n1, node1, n, node, root, v, v + 1, e)
      ensures Charged(n0, node0, n, node, root, a, v + 1, d + e)
      ensures d + e + Need(node0, root, a, v + 1) <= n0
    {
      ChargedIs(n0, node0, n1, node1, root, a, v, d);
      ChargedIs(n1, node1, n, node, root, v, v + 1, e);
      TakenMore(n0, node0, n1, node1, n, node, root, a, v, d, e);
      ChargedIs(n0, node0, n, node, root, a, v + 1, d + e);
      NeedIs(node0, root, a, v + 1);
    }

    /** Where fewer pages are left than the next page takes, they were too few for the whole range. */
    lemma ChargedShort(n0: nat, node0: Nodes, n1: nat, node1: Nodes, root: nat, a: nat, v: nat, b: nat, d: nat, e: nat)
      requires a <= v < b && Charged(n0, node0, n1, node1, root, a, v, d) && n1 < e + Need(node1, root, v, v + 1)
      ensures n0 < d + e + Need(node0, root, a, v + 1) <= d + e + Need(node0, root, a, b)
    {
      ChargedIs(n0, node0, n1, node1, root, a, v, d);
      MissingStep(node0, node1, root, a, v);
      NeedIs(node1, root, v, v + 1);
      NeedIs(node0, root, a, v + 1);
      NeedMono(node0, root, a, v + 1, b);
    }

    /** What is charged was there. */
    lemma ChargedFits(n0: nat, node0: Nodes, n: nat, node: Nodes, root: nat, a: nat, b: nat, d: nat)
      requires Charged(n0, node0, n, node, root, a, b, d)
      ensures n + d + Need(node0, root, a, b) == n0
    {
      NeedIs(node0, root, a, b);
      ChargedIs(n0, node0, n, node, root, a, b, d);
    }

    /** A page taken before the tables. */
    lemma ChargedData(n0: nat, node0: Nodes, n: nat, node: Nodes, root: nat, a: nat, b: nat, d: nat)
      requires Charged(n0, node0, n, node, root, a, b, d)
      ensures Charged(n0 + 1, node0, n, node, root, a, b, d + 1)
    {
      ChargedIs(n0, node0, n, node, root, a, b, d);
      ChargedIs(n0 + 1, node0, n, node, root, a, b, d + 1);
    }

    /** A walk that has reached the last level. */
    lemma ChargedWalk(n0: nat, node0: Nodes, n: nat, node: Nodes, root: nat, v: nat)
      requires OnPath(node0, node, root, v, 0) && n + MadeTo(node0, root, v, 0) == n0
      ensures Charged(n0, node0, n, node, root, v, v + 1, 0)
    {
      PathEnds(n0, node0, n, node, root, v);
      ChargedIs(n0, node0, n, node, root, v, v + 1, 0);
    }

    /** The page-table refinement: what the hardware finds by walking the three
        levels is what the finite map holds. */
    lemma ViewIsTranslation(root: nat, vpn: nat)
      requires Valid() && Pos(root, 2, 0) in node && vpn < 0x800_0000
      ensures V(Translate(mem, root, vpn)) <==> (root, vpn) in view
      ensures (root, vpn) in view ==> Translate(mem, root, vpn) == view[(root, vpn)]
    {
      Open({});
      TranslateIsLeaf(mem, node, root, vpn);
    }

    /** kinit: every page from the end of the kernel up is freed in turn. */
    constructor (mem: Mem, kstart: nat)
      requires 0 < kstart <= |mem|
      ensures Valid() && this.kstart == kstart && |this.mem| == |mem|
      ensures node == map[] && view == map[] && owner == map[] && other == {}
      ensures forall p :: p in free <==> kstart <= p < |mem|
    {
      this.kstart := kstart;
      this.mem := mem;
      freelist, free := 0, [];
      node, view, owner := map[], map[], map[];
      other := PagesFrom(kstart, |mem|);
      depth := 0;
      new;
      Close({});
      var p := kstart;
      while p < |this.mem|
        invariant kstart <= p <= |this.mem| == |mem| && this.kstart == kstart && Valid()
        invariant node == map[] && view == map[] && owner == map[] && other == PagesFrom(p, |mem|)
      {
        var ok := Kfree(p, {});
        p := p + 1;
      }
      Open({});
    }

    /** The page at the head of the free list, filled with junk; 0 if none. */
    method Kalloc() returns (p: nat)
      requires Valid()
      modifies this`mem, this`freelist, this`free, this`other
      ensures Valid() && SameData(old(mem), mem, owner, old(other))
      ensures p == 0 <==> old(free) == []
      ensures p == 0 ==> mem == old(mem) && free == old(free) && other == old(other)
      ensures p != 0 ==> p == old(free)[0] && free == old(free)[1..] && other == old(other) + {p}
      ensures p != 0 ==> p !in old(other) && p !in owner && kstart <= p < |old(mem)|
      ensures p != 0 ==> p < |old(mem)| && mem == old(mem)[p := Filled(JUNK_ALLOC)]
    {
      Open({});
      p := freelist;
      if p != 0 {
        TakeFree(mem, kstart, freelist, free, node, owner, other);
        OtherPage(mem, node, {}, p, Filled(JUNK_ALLOC));
        freelist := mem[p][0].hi / 4;
        free := free[1..];
        other := other + {p};
        mem := mem[p := Filled(JUNK_ALLOC)];
        SameView(old(mem), node, mem, node, view);
        Close({});
      }
    }

    /** Gives a page back.  False stands for the panic on a bad address. */
    method Kfree(p: nat, ghost ex: set<(Pos, nat)>) returns (ok: bool)
      requires ValidBut(ex) && (kstart <= p < |mem| ==> p in other)
      modifies this`mem, this`freelist, this`free, this`other
      ensures ValidBut(ex) && SameData(old(mem), mem, owner, other)
      ensures ok <==> kstart <= p < |old(mem)|
      ensures ok ==> free == [p] + old(free) && other == old(other) - {p}
      ensures ok ==> forall q :: 0 <= q < |mem| && q != p ==> mem[q] == old(mem)[q]
      ensures ok ==> p < |mem| && forall i :: 1 <= i < ENTRIES ==> mem[p][i] == JUNK_FREE
      ensures !ok ==> mem == old(mem) && free == old(free) && other == old(other)
    {
      if p < kstart || p >= |mem| {
        return false;
      }
      Open(ex);
      var page := Filled(JUNK_FREE)[0 := Pointer(freelist)];
      GiveFree(mem, kstart, freelist, free, node, owner, other, p, page);
      OtherPage(mem, node, ex, p, page);
      mem := mem[p := page];
      freelist := p;
      free := [p] + free;
      other := other - {p};
      SameView(old(mem), node, mem, node, view);
      Close(ex);
      ok := true;
    }

    /** The table page that holds the entry for vpn (its index is vpn % 512), or
        0.  With `alloc`, missing tables are created while memory lasts. */
    method Walk(root: nat, vpn: nat, alloc: bool) returns (t: nat)
      requires Valid() && Pos(root, 2, 0) in node && vpn < MAXVPN
      modifies this`mem, this`freelist, this`free, this`other, this`node
      ensures Valid() && SameData(old(mem), mem, owner, other) && Grown(old(node), node, root)
      ensures other == old(other)
      ensures t != 0 ==> LeafPos(root, vpn) in node && node[LeafPos(root, vpn)] == t
      ensures t == 0 ==> LeafPos(root, vpn) !in node && (alloc ==> free == [])
      ensures !alloc ==> mem == old(mem) && node == old(node) && free == old(free)
      ensures t != 0 ==> Charged(|old(free)|, old(node), |free|, node, root, vpn, vpn + 1, 0)
      ensures t == 0 && alloc ==> |old(free)| < Need(old(node), root, vpn, vpn + 1)
    {
      assert node[Pos(root, 2, 0)] == root && root != 0 by { Open({}); }
      t := root;
      var level := 2;
      while level > 0
        invariant 0 <= level <= 2 && t != 0 && Valid() && other == old(other)
        invariant SameData(old(mem), mem, owner, other) && Grown(old(node), node, root)
        invariant Pos(root, level, Prefix(level, vpn)) in node && node[Pos(root, level, Prefix(level, vpn))] == t
        invariant !alloc ==> mem == old(mem) && node == old(node) && free == old(free)
        invariant OnPath(old(node), node, root, vpn, level)
        invariant |free| + MadeTo(old(node), root, vpn, level) == |old(free)|
      {
        ghost var node1 := node;
        t := WalkDown(root, vpn, level, t, alloc);
        if t == 0 {
          PathShort(old(node), node1, root, vpn, level);
          NeedIs(old(node), root, vpn, vpn + 1);
          return 0;
        }
        PathStep(old(node), node1, node, root, vpn, level);
        level := level - 1;
      }
      ChargedWalk(|old(free)|, old(node), |free|, node, root, vpn);
    }

    /** One level of walk. */
    method WalkDown(root: nat, vpn: nat, level: nat, t: nat, alloc: bool) returns (t1: nat)
      requires Valid() && 1 <= level <= 2 && vpn < MAXVPN
      requires Pos(root, level, Prefix(level, vpn)) in node && node[Pos(root, level, Prefix(level, vpn))] == t
      modifies this`mem, this`freelist, this`free, this`other, this`node
      ensures Valid() && SameData(old(mem), mem, owner, other) && Grown(old(node), node, root) && other == old(other)
      ensures t1 != 0 ==> Pos(root, level - 1, Prefix(level - 1, vpn)) in node
                          && node[Pos(root, level - 1, Prefix(level - 1, vpn))] == t1
      ensures t1 == 0 ==> LeafPos(root, vpn) !in node && (alloc ==> free == [])
      ensures !alloc ==> mem == old(mem) && node == old(node) && free == old(free)
      ensures t1 != 0 ==> node.Keys == old(node).Keys + {Pos(root, level - 1, Prefix(level - 1, vpn))}
                          && |free| + Lacks(old(node), root, level - 1, Prefix(level - 1, vpn)) == |old(free)|
      ensures t1 == 0 ==> Pos(root, level - 1, Prefix(level - 1, vpn)) !in old(node) && (alloc ==> old(free) == [])
    {
      ghost var p := Pos(root, level, Prefix(level, vpn));
      var i := Px(level, vpn);
      PrefixStep(root, level, vpn);
      Open({});
      assert EntryOk(mem, node, p, i);
      var pte := mem[t][i];
      if V(pte) {
        t1 := pte.hi;
      } else {
        NoLeafTable(mem, node, root, vpn, level);
        t1 := 0;
        if alloc {
          t1 := NewTable(t, i, p);
        }
      }
    }

    /** kalloc, memset and the new entry; 0 when memory is out. */
    method NewTable(parent: nat, i: nat, ghost p: Pos) returns (t: nat)
      requires Valid() && p in node && p.level > 0 && i < ENTRIES && node[p] == parent
      requires parent < |mem| && !V(mem[parent][i]) && InRange(Child(p, i))
      modifies this`mem, this`freelist, this`free, this`other, this`node
      ensures Valid() && SameData(old(mem), mem, owner, other) && other == old(other)
      ensures t == 0 ==> free == old(free) == [] && node == old(node)
      ensures t != 0 ==> node == old(node)[Child(p, i) := t] && |free| + 1 == |old(free)|
    {
      assert parent !in free by {
        Open({});
        assert parent in node.Values;
      }
      t := Kalloc();
      if t != 0 {
        Open({});
        HangTable(mem, kstart, freelist, free, node, view, owner, other, p, i, t);
        mem := mem[t := ZeroPage()];
        mem := mem[parent := mem[parent][i := MakePte(t, 0)]];
        node := node[Child(p, i) := t];
        other := other - {t};
        Close({});
      }
    }

    /** *pte = ... in the table page that walk returned. */
    method SetEntry(t: nat, root: nat, vpn: nat, pte: Word)
      requires Valid() && LeafPos(root, vpn) in node && node[LeafPos(root, vpn)] == t
      requires V(pte) || pte == Zero
      requires forall p :: p in owner ==> owner[p] != (root, vpn)
      modifies this`mem, this`view
      ensures Valid() && SameData(old(mem), mem, owner, other)
      ensures view == if V(pte) then old(view)[(root, vpn) := pte] else old(view) - {(root, vpn)}
    {
      Open({});
      SetLeafValid(mem, kstart, freelist, free, node, view, owner, other, root, vpn, pte);
      mem := mem[t := mem[t][vpn % 512 := pte]];
      view := if V(pte) then view[(root, vpn) := pte] else view - {(root, vpn)};
      Close({});
    }

    /** One round of mappages's loop. */
    method MapOne(root: nat, vpn: nat, pte: Word) returns (r: MapResult)
      requires Valid() && Pos(root, 2, 0) in node && vpn < MAXVPN && V(pte)
      modifies this`mem, this`freelist, this`free, this`other, this`node, this`view
      ensures Valid() && other == old(other) && SameData(old(mem), mem, owner, other)
      ensures Grown(old(node), node, root) && !r.BadArgs?
      ensures r.Remap? <==> (root, vpn) in old(view)
      ensures r.NoMemory? ==> free == [] && |old(free)| < Need(old(node), root, vpn, vpn + 1)
      ensures r.Mapped? ==> Charged(|old(free)|, old(node), |free|, node, root, vpn, vpn + 1, 0)
      ensures view == if r.Mapped? then old(view)[(root, vpn) := pte] else old(view)
    {
      var t := Walk(root, vpn, true);
      Open({});
      assert t != 0 ==> Leaf(mem, node, root, vpn) == mem[t][vpn % 512];
      assert t == 0 ==> Leaf(mem, node, root, vpn) == Zero;
      if t == 0 {
        return NoMemory(0);
      }
      if V(mem[t][vpn % 512]) {
        return Remap(0);
      }
      assert (root, vpn) !in view;
      SetEntry(t, root, vpn, pte);
      r := Mapped;
    }

    /** Maps [va, va + size) to consecutive pages from pa.  When memory runs out
        or an entry is already valid, the pages before it stay mapped. */
    method Mappages(root: nat, va: nat, size: nat, pa: nat, perm: Flags) returns (r: MapResult)
      requires Valid() && Pos(root, 2, 0) in node && va / PGSIZE + size / PGSIZE <= MAXVPN
      modifies this`mem, this`freelist, this`free, this`other, this`node, this`view
      ensures Valid() && other == old(other) && SameData(old(mem), mem, owner, other) && Grown(old(node), node, root)
      ensures r.BadArgs? <==> va % PGSIZE != 0 || size % PGSIZE != 0 || size == 0
      ensures r.BadArgs? ==> mem == old(mem) && node == old(node) && view == old(view)
      ensures r.Mapped? ==> view == MapRange(old(view), root, va / PGSIZE, size / PGSIZE, pa / PGSIZE, perm)
      ensures r.NoMemory? || r.Remap? ==>
                r.k < size / PGSIZE && view == MapRange(old(view), root, va / PGSIZE, r.k, pa / PGSIZE, perm)
      ensures r.NoMemory? ==> free == []
      ensures r.Remap? ==> (root, va / PGSIZE + r.k) in old(view)
      ensures r.Mapped? ==> forall v :: va / PGSIZE <= v < va / PGSIZE + size / PGSIZE ==> (root, v) !in old(view)
      ensures r.NoMemory? ==> |old(free)| < Missing(old(node), root, va / PGSIZE, va / PGSIZE + size / PGSIZE)
      ensures r.Mapped? ==>
                |free| + Missing(old(node), root, va / PGSIZE, va / PGSIZE + size / PGSIZE) == |old(free)|
      ensures r.Mapped? ==>
                Charged(|old(free)|, old(node), |free|, node, root, va / PGSIZE, va / PGSIZE + size / PGSIZE, 0)
    {
      if va % PGSIZE != 0 || size % PGSIZE != 0 || size == 0 {
        return BadArgs;
      }
      NeedIs(node, root, va / PGSIZE, va / PGSIZE + size / PGSIZE);
      r := MapLoop(root, va / PGSIZE, size / PGSIZE, pa / PGSIZE, perm);
      if r.Mapped? {
        ChargedFits(|old(free)|, old(node), |free|, node, root, va / PGSIZE, va / PGSIZE + size / PGSIZE, 0);
      }
    }

    /** mappages's loop, in pages. */
    method MapLoop(root: nat, vpn: nat, n: nat, ppn: nat, perm: Flags) returns (r: MapResult)
      requires Valid() && Pos(root, 2, 0) in node && vpn + n <= MAXVPN
      modifies this`mem, this`freelist, this`free, this`other, this`node, this`view
      ensures Valid() && other == old(other) && SameData(old(mem), mem, owner, other) && Grown(old(node), node, root)
      ensures !r.BadArgs? && (!r.Mapped? ==> r.k < n)
      ensures view == MapRange(old(view), root, vpn, if r.Mapped? then n else r.k, ppn, perm)
      ensures r.NoMemory? ==> free == []
      ensures r.Remap? ==> (root, vpn + r.k) in old(view)
      ensures r.Mapped? ==> forall v :: vpn <= v < vpn + n ==> (root, v) !in old(view)
      ensures r.NoMemory? ==> |old(free)| < Need(old(node), root, vpn, vpn + n)
      ensures r.Mapped? ==> Charged(|old(free)|, old(node), |free|, node, root, vpn, vpn + n, 0)
    {
      ChargedNothing(|free|, node, root, vpn);
      var k := 0;
      while k < n
        invariant 0 <= k <= n && Valid() && other == old(other)
        invariant SameData(old(mem), mem, owner, other) && Grown(old(node), node, root)
        invariant view == MapRange(old(view), root, vpn, k, ppn, perm)
        invariant forall v :: vpn <= v < vpn + k ==> (root, v) !in old(view)
        invariant Charged(|old(free)|, old(node), |free|, node, root, vpn, vpn + k, 0)
      {
        var one := MapNext(root, vpn, k, n, ppn, perm, old(view), |old(free)|, old(node));
        if !one.Mapped? {
          return if one.NoMemory? then NoMemory(k) else Remap(k);
        }
        k := k + 1;
      }
      r := Mapped;
    }

    /** One round of the loop in the middle of a range. */
    method MapNext(root: nat, vpn: nat, k: nat, ghost n: nat, ppn: nat, perm: Flags, ghost view0: View, ghost n0: nat,
                   ghost node0: Nodes) returns (r: MapResult)
      requires Valid() && Pos(root, 2, 0) in node && k < n && vpn + n <= MAXVPN
      requires view == MapRange(view0, root, vpn, k, ppn, perm)
      requires Charged(n0, node0, |free|, node, root, vpn, vpn + k, 0)
      modifies this`mem, this`freelist, this`free, this`other, this`node, this`view
      ensures Valid() && other == old(other) && SameData(old(mem), mem, owner, other) && Grown(old(node), node, root)
      ensures !r.BadArgs? && (r.Remap? <==> (root, vpn + k) in view0)
      ensures r.NoMemory? ==> free == [] && n0 < Need(node0, root, vpn, vpn + n)
      ensures view == MapRange(view0, root, vpn, if r.Mapped? then k + 1 else k, ppn, perm)
      ensures r.Mapped? ==> Charged(n0, node0, |free|, node, root, vpn, vpn + k + 1, 0)
    {
      MapRangeAt(view0, root, vpn, k, ppn, perm, (root, vpn + k));
      r := MapOne(root, vpn + k, MakePte(ppn + k, perm));
      if r.NoMemory? {
        ChargedShort(n0, node0, |old(free)|, old(node), root, vpn, vpn + k, vpn + n, 0, 0);
      } else if r.Mapped? {
        ChargedMore(n0, node0, |old(free)|, old(node), |free|, node, root, vpn, vpn + k, 0, 0);
      }
    }

    /** mappages of one page. */
    method MapPage(root: nat, vpn: nat, p: nat, perm: Flags) returns (ok: bool)
      requires Valid() && Pos(root, 2, 0) in node && vpn < MAXVPN && (root, vpn) !in view
      modifies this`mem, this`freelist, this`free, this`other, this`node, this`view
      ensures Valid() && other == old(other) && SameData(old(mem), mem, owner, other) && Grown(old(node), node, root)
      ensures view == if ok then old(view)[(root, vpn) := MakePte(p, perm)] else old(view)
      ensures ok <==> Need(old(node), root, vpn, vpn + 1) <= |old(free)|
      ensures ok ==> Charged(|old(free)|, old(node), |free|, node, root, vpn, vpn + 1, 0)
    {
      NeedIs(node, root, vpn, vpn + 1);
      var r := Mappages(root, vpn * PGSIZE, PGSIZE, p * PGSIZE, perm);
      assert MapRange(old(view), root, vpn, 0, p, perm) == old(view);
      assert MapRange(old(view), root, vpn, 1, p, perm) == old(view)[(root, vpn) := MakePte(p, perm)];
      ok := r.Mapped?;
      if ok {
        ChargedFits(|old(free)|, old(node), |free|, node, root, vpn, vpn + 1, 0);
      }
    }

    // ----- unmapping -----

    /** A data page leaves its place in the page tables for the caller's hands. */
    ghost method Disown(p: nat)
      requires Valid() && p in owner
      modifies this`owner, this`other
      ensures Valid() && owner == old(owner) - {p} && other == old(other) + {p}
      ensures kstart <= p < |mem| && p !in old(other)
    {
      Open({});
      owner := owner - {p};
      other := other + {p};
      Close({});
    }

    /** A page in the caller's hands that is mapped at `at` becomes a data page. */
    ghost method Adopt(p: nat, at: (nat, nat))
      requires Valid() && p in other && at in view && view[at].hi == p && IsLeaf(view[at])
      modifies this`owner, this`other
      ensures Valid() && owner == old(owner)[p := at] && other == old(other) - {p} && p !in old(owner)
    {
      Open({});
      owner := owner[p := at];
      other := other - {p};
      Close({});
    }

    /** One round of uvmunmap's loop; false stands for one of its panics. */
    method UnmapOne(root: nat, vpn: nat, doFree: bool) returns (ok: bool)
      requires Valid() && Pos(root, 2, 0) in node && vpn < MAXVPN
      requires doFree && (root, vpn) in view ==> OwnedAt(view, owner, (root, vpn))
      modifies this`mem, this`freelist, this`free, this`node, this`view, this`owner, this`other
      ensures Valid() && SameData(old(mem), mem, owner, other)
      ensures node == old(node)
      ensures ok <==> (root, vpn) in old(view) && old(view)[(root, vpn)].lo != 1
      ensures !ok ==> view == old(view) && owner == old(owner) && other == old(other)
      ensures ok ==> view == old(view) - {(root, vpn)} && owner == OwnerLess(old(owner), root, vpn, 1)
      ensures ok && doFree ==> other == old(other)
      ensures other <= old(other) + old(owner).Keys
    {
      assert LeafPos(root, vpn) in node ==>
          node[LeafPos(root, vpn)] < |mem| && Leaf(mem, node, root, vpn) == mem[node[LeafPos(root, vpn)]][vpn % 512] by {
        Open({});
      }
      assert (root, vpn) in view <==> V(Leaf(mem, node, root, vpn)) by { Open({}); }
      assert (root, vpn) in view ==> view[(root, vpn)] == Leaf(mem, node, root, vpn) by { Open({}); }
      var t := Walk(root, vpn, false);
      if t == 0 {
        return false;
      }
      var pte := mem[t][vpn % 512];
      if !V(pte) {
        return false;
      }
      if pte.lo == 1 {
        return false;
      }
      OwnersAt(root, vpn);
      ghost var p := pte.hi;
      if OwnedAt(view, owner, (root, vpn)) {
        Disown(p);
      }
      if doFree {
        ok := Kfree(pte.hi, {});
      }
      SetEntry(t, root, vpn, Zero);
      ok := true;
    }

    /** At most one data page is owned at a place: the one mapped there. */
    lemma OwnersAt(root: nat, vpn: nat)
      requires Valid()
      ensures forall p :: p in owner && owner[p] == (root, vpn) ==> (root, vpn) in view && view[(root, vpn)].hi == p
      ensures OwnedAt(view, owner, (root, vpn)) ==> OwnerLess(owner, root, vpn, 1) == owner - {view[(root, vpn)].hi}
      ensures !OwnedAt(view, owner, (root, vpn)) ==> OwnerLess(owner, root, vpn, 1) == owner
    {
      Open({});
    }

    /** Removes npages mappings from va on; false stands for one of its panics. */
    method Uvmunmap(root: nat, va: nat, npages: nat, doFree: bool) returns (ok: bool)
      requires Valid() && Pos(root, 2, 0) in node && va / PGSIZE + npages <= MAXVPN
      requires doFree ==> OwnedRange(view, owner, root, va / PGSIZE, npages)
      modifies this`mem, this`freelist, this`free, this`node, this`view, this`owner, this`other
      ensures Valid() && node == old(node) && SameData(old(mem), mem, owner, other)
      ensures ok <==> va % PGSIZE == 0 && LeafRange(old(view), root, va / PGSIZE, npages)
      ensures ok ==> view == ViewLess(old(view), root, va / PGSIZE, npages)
                     && owner == OwnerLess(old(owner), root, va / PGSIZE, npages)
      ensures ok && doFree ==> other == old(other)
    {
      if va % PGSIZE != 0 {
        return false;
      }
      var vpn := va / PGSIZE;
      LessNothing(view, owner, root, vpn);
      var k := 0;
      while k < npages
        invariant 0 <= k <= npages && Valid() && node == old(node) && SameData(old(mem), mem, owner, other)
        invariant view == ViewLess(old(view), root, vpn, k) && owner == OwnerLess(old(owner), root, vpn, k)
        invariant doFree ==> other == old(other)
        invariant LeafRange(old(view), root, vpn, k)
      {
        ok := UnmapNext(root, vpn, k, doFree, old(mem), old(view), old(owner));
        if !ok {
          return;
        }
        k := k + 1;
      }
      ok := true;
    }

    method UnmapNext(root: nat, vpn: nat, k: nat, doFree: bool, ghost mem0: Mem, ghost view0: View, ghost owner0: Owner)
      returns (ok: bool)
      requires Valid() && Pos(root, 2, 0) in node && vpn + k < MAXVPN && SameData(mem0, mem, owner, other)
      requires view == ViewLess(view0, root, vpn, k) && owner == OwnerLess(owner0, root, vpn, k)
      requires doFree && (root, vpn + k) in view0 ==> OwnedAt(view0, owner0, (root, vpn + k))
      modifies this`mem, this`freelist, this`free, this`node, this`view, this`owner, this`other
      ensures Valid() && node == old(node) && SameData(mem0, mem, owner, other)
      ensures ok <==> (root, vpn + k) in view0 && view0[(root, vpn + k)].lo != 1
      ensures ok ==> view == ViewLess(view0, root, vpn, k + 1) && owner == OwnerLess(owner0, root, vpn, k + 1)
      ensures ok && doFree ==> other == old(other)
    {
      LessOneMore(view0, owner0, root, vpn, k);
      ok := UnmapOne(root, vpn + k, doFree);
    }

    /** Shrinks the process from oldsz to newsz bytes. */
    method Uvmdealloc(root: nat, oldsz: nat, newsz: nat) returns (sz: nat)
      requires Valid() && Pos(root, 2, 0) in node && PgUp(oldsz) <= MAXVPN
      requires newsz < oldsz ==> DataRange(view, owner, root, PgUp(newsz), PgUp(oldsz))
      modifies this`mem, this`freelist, this`free, this`node, this`view, this`owner, this`other
      ensures Valid() && node == old(node) && other == old(other) && SameData(old(mem), mem, owner, other)
      ensures sz == if newsz >= oldsz then oldsz else newsz
      ensures newsz >= oldsz ==> view == old(view) && owner == old(owner)
      ensures newsz < oldsz ==> view == ViewLess(old(view), root, PgUp(newsz), PgUp(oldsz) - PgUp(newsz))
                                && owner == OwnerLess(old(owner), root, PgUp(newsz), PgUp(oldsz) - PgUp(newsz))
    {
      if newsz >= oldsz {
        return oldsz;
      }
      LessNothing(view, owner, root, PgUp(newsz));
      if PgUp(newsz) < PgUp(oldsz) {
        var ok := Uvmunmap(root, PgUp(newsz) * PGSIZE, PgUp(oldsz) - PgUp(newsz), true);
      }
      sz := newsz;
    }

    /** Grows the process from oldsz to newsz bytes with zeroed pages.  When
        memory runs out every page taken is given back and false is returned. */
    method Uvmalloc(root: nat, oldsz: nat, newsz: nat, xperm: Flags) returns (ok: bool)
      requires Valid() && Pos(root, 2, 0) in node && PgUp(newsz) <= MAXVPN
      requires forall v :: PgUp(oldsz) <= v < PgUp(newsz) ==> (root, v) !in view
      modifies this`mem, this`freelist, this`free, this`node, this`view, this`owner, this`other
      ensures Valid() && Grown(old(node), node, root) && other == old(other)
      ensures SameData(old(mem), mem, old(owner), other)
      ensures !ok || newsz < oldsz ==> view == old(view) && owner == old(owner)
      ensures newsz < oldsz ==> ok
      ensures ok && newsz >= oldsz ==>
                Extended(old(view), old(owner), view, owner, root, PgUp(oldsz), PgUp(newsz))
                && ZeroPages(mem, view, root, PgUp(oldsz), PgUp(newsz), UserPage(xperm))
      ensures newsz >= oldsz ==>
                var n, missing := PgUp(newsz) - PgUp(oldsz), Missing(old(node), root, PgUp(oldsz), PgUp(newsz));
                && (ok <==> n + missing <= |old(free)|) && (ok ==> |free| == |old(free)| - n - missing)
    {
      if newsz < oldsz {
        return true;
      }
      UserPageIsLeaf(xperm);
      NeedIs(node, root, PgUp(oldsz), PgUp(newsz));
      ok := GrowLoop(root, PgUp(oldsz), PgUp(newsz), UserPage(xperm));
    }

    /** uvmalloc's loop, in pages. */
    method GrowLoop(root: nat, first: nat, last: nat, perm: Flags) returns (ok: bool)
      requires Valid() && Pos(root, 2, 0) in node && first <= last <= MAXVPN && IsLeaf(Word(0, WithV(perm)))
      requires forall v :: first <= v < last ==> (root, v) !in view
      modifies this`mem, this`freelist, this`free, this`node, this`view, this`owner, this`other
      ensures Valid() && Grown(old(node), node, root) && other == old(other)
      ensures SameData(old(mem), mem, old(owner), other)
      ensures !ok ==> view == old(view) && owner == old(owner)
      ensures ok ==> Extended(old(view), old(owner), view, owner, root, first, last)
                     && ZeroPages(mem, view, root, first, last, perm)
      ensures ok <==> last - first + Need(old(node), root, first, last) <= |old(free)|
      ensures ok ==> |free| == |old(free)| - (last - first) - Need(old(node), root, first, last)
    {
      ghost var was := Now();
      var a := first;
      StartGrowing(root, first, perm);
      while a < last
        invariant first <= a <= last && Valid() && other == old(other) && Growing(1 + depth, was, root, first, a, perm)
      {
        ok := GrowOne(root, first, a, perm, was);
        if !ok {
          NeedMono(was.node, root, first, a + 1, last);
          return false;
        }
        a := a + 1;
      }
      GrowFold(1 + depth, was, root, first, a, perm);
      ChargedFits(was.n, was.node, |free|, node, root, first, a, a - first);
      ok := true;
    }

    ghost function Now(): Snap
      reads this
    {
      Snap(mem, node, view, owner, |free|)
    }

    /** Pages first up to a have been added to what was there, and paid for. */
    ghost predicate Grew(was: Snap, root: nat, first: nat, a: nat, perm: Flags)
      reads this
    {
      && first <= a && Grown(was.node, node, root) && SameData(was.mem, mem, was.owner, other)
      && Extended(was.view, was.owner, view, owner, root, first, a) && DataOk(was.view, was.owner)
      && ZeroPages(mem, view, root, first, a, perm)
      && Charged(was.n, was.node, |free|, node, root, first, a, a - first)
    }

    /** Grew, folded like the invariant. */
    ghost predicate Growing(d: nat, was: Snap, root: nat, first: nat, a: nat, perm: Flags)
      reads this
      decreases d
    {
      if d == 0 then Grew(was, root, first, a, perm) else Growing(d - 1, was, root, first, a, perm)
    }

    lemma {:induction false} GrowFold(d: nat, was: Snap, root: nat, first: nat, a: nat, perm: Flags)
      ensures Growing(d, was, root, first, a, perm) <==> Grew(was, root, first, a, perm)
      decreases d
    {
      if d > 0 {
        GrowFold(d - 1, was, root, first, a, perm);
      }
    }

    lemma StartGrowing(root: nat, first: nat, perm: Flags)
      requires Valid()
      ensures Growing(1 + depth, Now(), root, first, first, perm)
    {
      assert DataOk(view, owner) by { Open({}); }
      ExtendedNothing(view, owner, root, first);
      ChargedNothing(|free|, node, root, first);
      GrowFold(1 + depth, Now(), root, first, first, perm);
    }

    /** One round of uvmalloc's loop: one more zeroed page, or everything undone. */
    method GrowOne(root: nat, first: nat, a: nat, perm: Flags, ghost was: Snap) returns (ok: bool)
      requires Valid() && Pos(root, 2, 0) in was.node && first <= a < MAXVPN && IsLeaf(Word(0, WithV(perm)))
      requires forall v :: first <= v <= a ==> (root, v) !in was.view
      requires Growing(1 + depth, was, root, first, a, perm)
      modifies this`mem, this`freelist, this`free, this`node, this`view, this`owner, this`other
      ensures Valid() && other == old(other)
      ensures ok ==> Growing(1 + depth, was, root, first, a + 1, perm)
      ensures !ok ==> view == was.view && owner == was.owner
      ensures !ok ==> Grown(was.node, node, root) && SameData(was.mem, mem, was.owner, other)
      ensures ok <==> a + 1 - first + Need(was.node, root, first, a + 1) <= was.n
    {
      GrowFold(1 + depth, was, root, first, a, perm);
      assert (root, a) !in view;
      ok := MapFresh(root, a, perm, ZeroPage());
      GrownTrans(was.node, old(node), node, root);
      SameDataTrans(was.mem, old(mem), mem, was.owner, old(owner), other);
      if ok {
        ChargedMore(was.n, was.node, |old(free)|, old(node), |free|, node, root, first, a, a - first, 1);
        ExtendOne(was.view, was.owner, mem, old(view), old(owner), view, owner, root, first, a, WithV(perm), ZeroPage());
        ZeroOneMore(old(mem), mem, old(view), old(owner), view, owner, root, first, a, perm);
        GrowFold(1 + depth, was, root, first, a + 1, perm);
      } else {
        ChargedShort(was.n, was.node, |old(free)|, old(node), root, first, a, a + 1, a - first, 1);
        ghost var mem2 := mem;
        Shrink(root, first, a, was.view, was.owner);
        SameDataTrans(was.mem, mem2, mem, was.owner, was.owner, other);
      }
    }

    /** Growing and shrinking back restores every mapping and the owner of every
        data page; only table pages may have been added. */
    method GrowThenShrink(root: nat, oldsz: nat, newsz: nat, xperm: Flags) returns (ok: bool)
      requires Valid() && Pos(root, 2, 0) in node && PgUp(newsz) <= MAXVPN
      requires oldsz < newsz && forall v :: PgUp(oldsz) <= v < PgUp(newsz) ==> (root, v) !in view
      modifies this`mem, this`freelist, this`free, this`node, this`view, this`owner, this`other
      ensures Valid() && Grown(old(node), node, root) && other == old(other)
      ensures view == old(view) && owner == old(owner) && SameData(old(mem), mem, owner, other)
    {
      ok := Uvmalloc(root, oldsz, newsz, xperm);
      if ok {
        UndoExtended(old(view), old(owner), view, owner, root, PgUp(oldsz), PgUp(newsz));
        ghost var mem1 := mem;
        var sz := Uvmdealloc(root, newsz, oldsz);
        SameDataTrans(old(mem), mem1, mem, old(owner), owner, other);
      }
    }

    /** The error path: give the pages from first up to a back. */
    method Shrink(root: nat, first: nat, a: nat, ghost view0: View, ghost owner0: Owner)
      requires Valid() && Pos(root, 2, 0) in node && a <= MAXVPN && Extended(view0, owner0, view, owner, root, first, a)
      modifies this`mem, this`freelist, this`free, this`node, this`view, this`owner, this`other
      ensures Valid() && node == old(node) && other == old(other) && SameData(old(mem), mem, owner0, other)
      ensures view == view0 && owner == owner0
    {
      UndoExtended(view0, owner0, view, owner, root, first, a);
      var r := Uvmdealloc(root, a * PGSIZE, first * PGSIZE);
    }

    /** memset or memmove into a page in the caller's hands. */
    method WritePage(p: nat, page: Page)
      requires Valid() && p in other
      modifies this`mem
      ensures Valid() && p < |old(mem)| && mem == old(mem)[p := page] && p !in owner
    {
      Open({});
      OtherPage(mem, node, {}, p, page);
      FreeStays(mem, mem[p := page], kstart, freelist, free);
      mem := mem[p := page];
      SameView(old(mem), node, mem, node, view);
      Close({});
    }

    /** kalloc, fill and mappages of one page; false when memory is out. */
    method MapFresh(root: nat, vpn: nat, perm: Flags, page: Page) returns (ok: bool)
      requires Valid() && Pos(root, 2, 0) in node && vpn < MAXVPN && IsLeaf(Word(0, WithV(perm))) && (root, vpn) !in view
      modifies this`mem, this`freelist, this`free, this`node, this`view, this`owner, this`other
      ensures Valid() && Grown(old(node), node, root) && other == old(other)
      ensures SameData(old(mem), mem, old(owner), other)
      ensures !ok ==> view == old(view) && owner == old(owner)
      ensures ok <==> |old(free)| >= 1 + Need(old(node), root, vpn, vpn + 1)
      ensures ok ==> Charged(|old(free)|, old(node), |free|, node, root, vpn, vpn + 1, 1)
      ensures ok ==> FreshAt(old(view), old(owner), mem, view, owner, (root, vpn), WithV(perm), page)
    {
      var p := Kalloc();
      if p == 0 {
        return false;
      }
      WritePage(p, page);
      ok := MapPage(root, vpn, p, perm);
      if !ok {
        ok := Kfree(p, {});
        assert old(other) + {p} - {p} == old(other);
        return false;
      }
      ChargedData(|old(free)| - 1, old(node), |free|, node, root, vpn, vpn + 1, 0);
      Adopt(p, (root, vpn));
      ok := true;
    }

    /** An empty user page table; 0 when memory is out. */
    method Uvmcreate() returns (root: nat)
      requires Valid()
      modifies this`mem, this`freelist, this`free, this`node, this`other
      ensures Valid() && other == old(other) && SameData(old(mem), mem, owner, other)
      ensures root == 0 <==> old(free) == []
      ensures root == 0 ==> node == old(node) && mem == old(mem)
      ensures root != 0 ==> free == old(free)[1..] && root == old(free)[0]
      ensures root != 0 ==> Pos(root, 2, 0) !in old(node) && node == old(node)[Pos(root, 2, 0) := root]
      ensures root != 0 ==> forall v: nat :: (root, v) !in view
    {
      root := Kalloc();
      if root != 0 {
        Open({});
        AddRoot(mem, node, root);
        NoOrphans(mem, node, root);
        TablePartition(kstart, |mem|, free, node, owner, other, Pos(root, 2, 0), root);
        FreeStays(mem, mem[root := ZeroPage()], kstart, freelist, free);
        ghost var mem1, node1 := mem, node;
        mem := mem[root := ZeroPage()];
        node := node[Pos(root, 2, 0) := root];
        other := other - {root};
        SameView(mem1, node1, mem, node, view);
        NoLeaves(mem, node, view, root);
        Close({});
      }
    }

    /** The last-level entry for a page, as the error tests of the callers see it. */
    method GetPte(root: nat, vpn: nat) returns (pte: Word)
      requires Valid() && Pos(root, 2, 0) in node && vpn < MAXVPN
      modifies this`mem, this`freelist, this`free, this`node, this`other
      ensures Valid() && mem == old(mem) && node == old(node) && free == old(free) && other == old(other)
      ensures V(pte) <==> (root, vpn) in view
      ensures V(pte) ==> pte == view[(root, vpn)]
    {
      var t := Walk(root, vpn, false);
      Open({});
      assert Leaf(mem, node, root, vpn) == if t == 0 then Zero else mem[t][vpn % 512];
      pte := if t == 0 then Zero else mem[t][vpn % 512];
    }

    /** Copies pages 0 up to sz of one table, contents and permissions, into
        fresh pages of another.  When memory runs out everything is undone. */
    method Uvmcopy(from: nat, to: nat, sz: nat) returns (ok: bool)
      requires Valid() && Pos(from, 2, 0) in node && Pos(to, 2, 0) in node && from != to && PgUp(sz) <= MAXVPN
      requires DataRange(view, owner, from, 0, PgUp(sz))
      requires forall v :: 0 <= v < PgUp(sz) ==> (to, v) !in view
      modifies this`mem, this`freelist, this`free, this`node, this`view, this`owner, this`other
      ensures Valid() && Grown(old(node), node, to) && other == old(other)
      ensures SameData(old(mem), mem, old(owner), other)
      ensures !ok ==> view == old(view) && owner == old(owner)
      ensures ok ==> Extended(old(view), old(owner), view, owner, to, 0, PgUp(sz))
                     && Copied(old(mem), old(view), mem, view, from, to, PgUp(sz))
      ensures ok <==> PgUp(sz) + Missing(old(node), to, 0, PgUp(sz)) <= |old(free)|
      ensures ok ==> |free| == |old(free)| - PgUp(sz) - Missing(old(node), to, 0, PgUp(sz))
    {
      NeedIs(node, to, 0, PgUp(sz));
      ghost var was := Now();
      StartCopying(from, to);
      var i := 0;
      while i * PGSIZE < sz
        invariant 0 <= i <= PgUp(sz) && Valid() && other == old(other) && Copying(1 + depth, was, from, to, i)
        decreases PgUp(sz) - i
      {
        ok := CopyOne(from, to, i, was);
        if !ok {
          NeedMono(was.node, to, 0, i + 1, PgUp(sz));
          UndoCopy(from, to, i, was);
          return false;
        }
        i := i + 1;
      }
      CopyFold(1 + depth, was, from, to, i);
      ChargedFits(was.n, was.node, |free|, node, to, 0, i, i);
      ok := true;
    }

    /** uvmcopy's error path. */
    method UndoCopy(from: nat, to: nat, i: nat, ghost was: Snap)
      requires Valid() && Pos(to, 2, 0) in was.node && i <= MAXVPN && Copying(1 + depth, was, from, to, i, false)
      modifies this`mem, this`freelist, this`free, this`node, this`view, this`owner, this`other
      ensures Valid() && other == old(other) && view == was.view && owner == was.owner
      ensures Grown(was.node, node, to) && SameData(was.mem, mem, was.owner, other)
    {
      CopyFold(1 + depth, was, from, to, i, false);
      Shrink(to, 0, i, was.view, was.owner);
      SameDataTrans(was.mem, old(mem), mem, was.owner, was.owner, other);
    }

    /** Pages 0 up to i have been added to what was there; `good` while none has
        failed, and then they are copies and paid for. */
    ghost predicate Copy(was: Snap, from: nat, to: nat, i: nat, good: bool)
      reads this
    {
      && Grown(was.node, node, to) && SameData(was.mem, mem, was.owner, other) && DataOk(was.view, was.owner)
      && Extended(was.view, was.owner, view, owner, to, 0, i)
      && (good ==> Copied(was.mem, was.view, mem, view, from, to, i)
                   && Charged(was.n, was.node, |free|, node, to, 0, i, i))
    }

    /** Copy, folded like the invariant. */
    ghost predicate Copying(d: nat, was: Snap, from: nat, to: nat, i: nat, good: bool := true)
      reads this
      decreases d
    {
      if d == 0 then Copy(was, from, to, i, good) else Copying(d - 1, was, from, to, i, good)
    }

    lemma {:induction false} CopyFold(d: nat, was: Snap, from: nat, to: nat, i: nat, good: bool := true)
      ensures Copying(d, was, from, to, i, good) <==> Copy(was, from, to, i, good)
      decreases d
    {
      if d > 0 {
        CopyFold(d - 1, was, from, to, i, good);
      }
    }

    lemma StartCopying(from: nat, to: nat)
      requires Valid()
      ensures Copying(1 + depth, Now(), from, to, 0)
    {
      assert DataOk(view, owner) by { Open({}); }
      ExtendedNothing(view, owner, to, 0);
      ChargedNothing(|free|, node, to, 0);
      CopyFold(1 + depth, Now(), from, to, 0);
    }

    /** One round of uvmcopy's loop. */
    method CopyOne(from: nat, to: nat, i: nat, ghost was: Snap) returns (ok: bool)
      requires Valid() && Pos(from, 2, 0) in was.node && Pos(to, 2, 0) in was.node && from != to && i < MAXVPN
      requires OwnedAt(was.view, was.owner, (from, i)) && was.view[(from, i)].lo != 1 && (to, i) !in was.view
      requires Copying(1 + depth, was, from, to, i)
      modifies this`mem, this`freelist, this`free, this`node, this`view, this`owner, this`other
      ensures Valid() && other == old(other)
      ensures Copying(1 + depth, was, from, to, if ok then i + 1 else i, ok)
      ensures ok <==> i + 1 + Need(was.node, to, 0, i + 1) <= was.n
    {
      var page, flags := CopySource(from, to, i, was);
      ok := PutCopy(from, to, i, page, flags, was);
    }

    /** kalloc, memmove and mappages of one page. */
    method PutCopy(from: nat, to: nat, i: nat, page: Page, flags: Flags, ghost was: Snap) returns (ok: bool)
      requires Valid() && Pos(to, 2, 0) in was.node && i < MAXVPN && (to, i) !in was.view
      requires (from, i) in was.view && flags == was.view[(from, i)].lo && WithV(flags) == flags && flags != 1
      requires IsLeaf(Word(0, flags)) && was.view[(from, i)].hi < |was.mem| && page == was.mem[was.view[(from, i)].hi]
      requires Copying(1 + depth, was, from, to, i)
      modifies this`mem, this`freelist, this`free, this`node, this`view, this`owner, this`other
      ensures Valid() && other == old(other)
      ensures Copying(1 + depth, was, from, to, if ok then i + 1 else i, ok)
      ensures ok <==> i + 1 + Need(was.node, to, 0, i + 1) <= was.n
    {
      CopyFold(1 + depth, was, from, to, i);
      assert (to, i) !in view;
      ok := MapFresh(to, i, flags, page);
      GrownTrans(was.node, old(node), node, to);
      SameDataTrans(was.mem, old(mem), mem, was.owner, old(owner), other);
      if ok {
        ChargedMore(was.n, was.node, |old(free)|, old(node), |free|, node, to, 0, i, i, 1);
        ExtendOne(was.view, was.owner, mem, old(view), old(owner), view, owner, to, 0, i, flags, page);
        CopyOneMore(was.mem, was.view, old(mem), mem, old(view), old(owner), view, owner, from, to, i, flags, page);
        CopyFold(1 + depth, was, from, to, i + 1);
      } else {
        ChargedShort(was.n, was.node, |old(free)|, old(node), to, 0, i, i + 1, i, 1);
        CopyFold(1 + depth, was, from, to, i, false);
      }
    }

    /** The page and flags that uvmcopy reads for page i of the old table. */
    method CopySource(from: nat, to: nat, i: nat, ghost was: Snap) returns (page: Page, flags: Flags)
      requires Valid() && Pos(from, 2, 0) in was.node && i < MAXVPN && from != to
      requires OwnedAt(was.view, was.owner, (from, i)) && was.view[(from, i)].lo != 1
      requires Copying(1 + depth, was, from, to, i)
      modifies this`mem, this`freelist, this`free, this`node, this`other
      ensures Valid() && other == old(other) && Copying(1 + depth, was, from, to, i)
      ensures flags == was.view[(from, i)].lo && WithV(flags) == flags && flags != 1 && IsLeaf(Word(0, flags))
      ensures was.view[(from, i)].hi < |was.mem| && page == was.mem[was.view[(from, i)].hi]
    {
      CopyFold(1 + depth, was, from, to, i);
      var pte := GetPte(from, i);
      CopyFold(1 + depth, was, from, to, i);
      assert pte == was.view[(from, i)];
      assert pte.hi < |mem| by { Open({}); }
      page, flags := mem[pte.hi], pte.lo;
    }

    // ----- taking a page table down -----

    /** kfree of a table page that has no subtrees left. */
    method FreeTable(t: nat, ghost p: Pos) returns (ok: bool)
      requires Valid() && p in node && node[p] == t && forall v: nat :: (p.root, v) !in view
      requires p.level > 0 ==> forall i :: 0 <= i < ENTRIES ==> Child(p, i) !in node
      modifies this`mem, this`freelist, this`free, this`node, this`other
      ensures ok && ValidBut(if p.level < 2 then {(Parent(p), p.prefix % 512)} else {})
      ensures node == old(node) - {p} && other == old(other) && SameData(old(mem), mem, owner, other)
      ensures p.level < 2 ==> |mem| == |old(mem)|
    {
      ghost var ex := if p.level < 2 then {(Parent(p), p.prefix % 512)} else {};
      assert t !in other by {
        Open({});
        assert t in node.Values;
      }
      assert kstart <= t < |mem| by {
        Open({});
        assert t in node.Values;
      }
      Detach(t, p);
      ok := Kfree(t, ex);
      assert old(other) + {t} - {t} == old(other);
    }

    /** A table page without subtrees passes from the tree to the caller's hands. */
    ghost method Detach(t: nat, p: Pos)
      requires Valid() && p in node && node[p] == t && forall v: nat :: (p.root, v) !in view
      requires p.level > 0 ==> forall i :: 0 <= i < ENTRIES ==> Child(p, i) !in node
      modifies this`node, this`other
      ensures ValidBut(if p.level < 2 then {(Parent(p), p.prefix % 512)} else {})
      ensures node == old(node) - {p} && other == old(other) + {t}
    {
      Open({});
      RemoveTable(mem, node, p);
      DetachPartition(kstart, |mem|, free, node, owner, other, p);
      DetachView(mem, node, view, p);
      node := node - {p};
      other := other + {t};
      Close(if p.level < 2 then {(Parent(p), p.prefix % 512)} else {});
    }

    /** pagetable[i] = 0 after the subtree below it has been freed. */
    method ClearPointer(t: nat, i: nat, ghost p: Pos)
      requires ValidBut({(p, i)}) && p in node && node[p] == t && p.level > 0 && i < ENTRIES && Child(p, i) !in node
      modifies this`mem
      ensures Valid() && SameData(old(mem), mem, owner, other)
    {
      Open({(p, i)});
      ClearEntry(mem, node, p, i);
      assert t in node.Values;
      FreeStays(mem, mem[t := mem[t][i := Zero]], kstart, freelist, free);
      mem := mem[t := mem[t][i := Zero]];
      ClearKeepsLeaves(old(mem), node, p, i);
      SameView(old(mem), node, mem, node, view);
      Close({});
    }

    /** Frees the table page at p and every table page below it.  False stands
        for the panic on a last-level entry that is still valid. */
    method Freewalk(t: nat, ghost p: Pos) returns (ok: bool)
      requires Valid() && p in node && node[p] == t && p.level <= 2
      requires forall v: nat :: (p.root, v) !in view
      modifies this`mem, this`freelist, this`free, this`node, this`other
      ensures ok && ValidBut(if p.level < 2 then {(Parent(p), p.prefix % 512)} else {})
      ensures other == old(other) && SameData(old(mem), mem, owner, other)
      ensures forall q :: q in node <==> q in old(node) && !Under(p, q)
      ensures forall q :: q in node ==> node[q] == old(node)[q]
      decreases p.level
    {
      var i := 0;
      while i < ENTRIES
        invariant 0 <= i <= ENTRIES && Valid() && other == old(other) && SameData(old(mem), mem, owner, other)
        invariant Pruned(old(node), node, p, i)
      {
        assert t < |mem| && EntryMeans(mem, node, view, p, i) && Rooted(node) by {
          Open({});
          EntryCases(mem, node, view, p, i);
        }
        var pte := mem[t][i];
        if V(pte) && !IsLeaf(pte) {
          PrunedChild(old(node), node, p, i);
          ghost var node1 := node;
          ok := Freewalk(pte.hi, Child(p, i));
          PrunedMore(old(node), node1, node, p, i);
          ParentOfChild(p, i);
          ClearPointer(t, i, p);
        } else {
          if V(pte) {
            return false;
          }
          PrunedSkip(old(node), node, p, i);
        }
        i := i + 1;
      }
      PrunedAll(old(node), node, p);
      ok := FreeTable(t, p);
    }

    /** Frees the user memory below sz and then the page table itself.  If the
        table maps nothing else, all its data and table pages are back on the
        free list and no trace of it is left. */
    method Uvmfree(root: nat, sz: nat) returns (ok: bool)
      requires Valid() && Pos(root, 2, 0) in node && PgUp(sz) <= MAXVPN
      requires DataRange(view, owner, root, 0, PgUp(sz))
      requires forall v: nat :: v >= PgUp(sz) ==> (root, v) !in view
      modifies this`mem, this`freelist, this`free, this`node, this`view, this`owner, this`other
      ensures ok && Valid() && other == old(other) && SameData(old(mem), mem, owner, other)
      ensures forall q :: q in node <==> q in old(node) && q.root != root
      ensures forall a :: a in view <==> a in old(view) && a.0 != root
      ensures forall p :: p in owner <==> p in old(owner) && old(owner)[p].0 != root
      ensures forall q :: q in node ==> node[q] == old(node)[q]
      ensures forall p :: p in free <==> p in old(free) || WasTable(old(node), root, p)
                                         || (p in old(owner) && old(owner)[p].0 == root)
    {
      ghost var npages, free0, node0, owner0 := |mem|, free, node, owner;
      assert node[Pos(root, 2, 0)] == root && Settled(kstart, npages, free0, node0, owner0, other) by { Open({}); }
      FreeData(root, sz);
      ok := Freewalk(root, Pos(root, 2, 0));
      forall q | q in node0 ensures Under(Pos(root, 2, 0), q) <==> q.root == root {
        UnderRoot(root, q);
      }
      assert Settled(kstart, npages, free, node, owner, other) by { Open({}); }
      Returned(kstart, npages, free0, node0, owner0, free, node, owner, other, root);
    }

    /** The first half of uvmfree: the user pages. */
    method FreeData(root: nat, sz: nat)
      requires Valid() && Pos(root, 2, 0) in node && PgUp(sz) <= MAXVPN
      requires DataRange(view, owner, root, 0, PgUp(sz))
      requires forall v: nat :: v >= PgUp(sz) ==> (root, v) !in view
      modifies this`mem, this`freelist, this`free, this`node, this`view, this`owner, this`other
      ensures Valid() && node == old(node) && other == old(other) && SameData(old(mem), mem, owner, other)
      ensures forall p :: p in owner <==> p in old(owner) && old(owner)[p].0 != root
      ensures forall a :: a in view <==> a in old(view) && a.0 != root
    {
      assert forall p :: p in owner ==> owner[p] in view by { Open({}); }
      LessNothing(view, owner, root, 0);
      if sz > 0 {
        var ok := Uvmunmap(root, 0, PgUp(sz), true);
      }
      NoneLeft(view, owner, old(view), old(owner), root, PgUp(sz));
    }
  }

  /** Every page has its place, and the free list and the tree are in range. */
  ghost predicate Settled(kstart: nat, npages: nat, free: seq<nat>, node: Nodes, owner: Owner, other: set<nat>) {
    && Partition(kstart, npages, free, node, owner, other) && Injective(node)
    && (forall p :: p in free ==> kstart <= p < npages) && (forall q :: q in node ==> InRange(q))
  }

  /** p was a page of page table `root`. */
  ghost predicate WasTable(node: Nodes, root: nat, p: nat) {
    exists q :: q in node && q.root == root && node[q] == p
  }

  lemma UnderRoot(root: nat, q: Pos)
    requires InRange(q)
    ensures Under(Pos(root, 2, 0), q) <==> q.root == root
  {
  }

  lemma NoneLeft(view: View, owner: Owner, view0: View, owner0: Owner, root: nat, n: nat)
    requires forall v: nat :: v >= n ==> (root, v) !in view0
    requires view == ViewLess(view0, root, 0, n) && owner == OwnerLess(owner0, root, 0, n)
    requires forall p :: p in owner0 ==> owner0[p] in view0
    ensures forall p :: p in owner <==> p in owner0 && owner0[p].0 != root
    ensures forall a :: a in view <==> a in view0 && a.0 != root
  {
    forall p | p in owner0 && owner0[p].0 == root ensures owner0[p].1 < n {
      assert owner0[p] == (root, owner0[p].1);
    }
    forall a | a in view0 && a.0 == root ensures a.1 < n {
      assert a == (root, a.1);
    }
  }

  /** Conservation: with the same pages in other hands, the pages that left the
      tables and the owners are exactly the ones that came back to the list. */
  lemma Returned(kstart: nat, npages: nat, free0: seq<nat>, node0: Nodes, owner0: Owner,
                 free: seq<nat>, node: Nodes, owner: Owner, other: set<nat>, root: nat)
    requires Settled(kstart, npages, free0, node0, owner0, other) && Settled(kstart, npages, free, node, owner, other)
    requires forall q :: q in node <==> q in node0 && q.root != root
    requires forall q :: q in node ==> node[q] == node0[q]
    requires forall p :: p in owner <==> p in owner0 && owner0[p].0 != root
    ensures forall p :: p in free <==> p in free0 || WasTable(node0, root, p) || (p in owner0 && owner0[p].0 == root)
  {
    forall p ensures p in node0.Values <==> p in node.Values || WasTable(node0, root, p) {
      if p in node0.Values {
        var q :| q in node0 && node0[q] == p;
        if q.root != root {
          assert q in node && node[q] == p;
        }
      }
      if p in node.Values {
        var q :| q in node && node[q] == p;
        assert q in node0;
      }
    }
    forall p | WasTable(node0, root, p) ensures p !in node.Values {
      var q :| q in node0 && q.root == root && node0[q] == p;
      assert forall q' :: q' in node ==> q' != q;
    }
  }

  const PGSIZE: nat := 4096

  datatype MapResult = Mapped | NoMemory(k: nat) | Remap(k: nat) | BadArgs

  /** The view with k pages from vpn on mapped to consecutive pages from ppn on. */
  ghost function MapRange(view: View, root: nat, vpn: nat, k: nat, ppn: nat, perm: Flags): View {
    if k == 0 then view
    else MapRange(view, root, vpn, k - 1, ppn, perm)[(root, vpn + k - 1) := MakePte(ppn + k - 1, perm)]
  }

  lemma {:induction false} MapRangeAt(view: View, root: nat, vpn: nat, k: nat, ppn: nat, perm: Flags, at: (nat, nat))
    ensures var w := MapRange(view, root, vpn, k, ppn, perm);
            if at.0 == root && vpn <= at.1 < vpn + k
            then at in w && w[at] == MakePte(ppn + (at.1 - vpn), perm)
            else (at in w <==> at in view) && (at in view ==> w[at] == view[at])
  {
    if k > 0 {
      MapRangeAt(view, root, vpn, k - 1, ppn, perm, at);
    }
  }

  /** The page mapped at `at` is a data page owned there. */
  predicate OwnedAt(view: View, owner: Owner, at: (nat, nat)) {
    at in view && view[at].hi in owner && owner[view[at].hi] == at
  }

  predicate Within(at: (nat, nat), root: nat, lo: nat, hi: nat) { at.0 == root && lo <= at.1 < hi }

  /** Without the k places from vpn on. */
  ghost function ViewLess(view: View, root: nat, vpn: nat, k: nat): View {
    map a | a in view && !Within(a, root, vpn, vpn + k) :: view[a]
  }

  ghost function OwnerLess(owner: Owner, root: nat, vpn: nat, k: nat): Owner {
    map p | p in owner && !Within(owner[p], root, vpn, vpn + k) :: owner[p]
  }

  /** PGROUNDUP(sz) / PGSIZE */
  function PgUp(sz: nat): nat { (sz + PGSIZE - 1) / PGSIZE }

  ghost predicate OwnedRange(view: View, owner: Owner, root: nat, vpn: nat, n: nat) {
    forall v :: vpn <= v < vpn + n && (root, v) in view ==> OwnedAt(view, owner, (root, v))
  }

  ghost predicate LeafRange(view: View, root: nat, vpn: nat, n: nat) {
    forall v :: vpn <= v < vpn + n ==> (root, v) in view && view[(root, v)].lo != 1
  }

  /** Every page from lo up to hi is a data page of this table. */
  ghost predicate DataRange(view: View, owner: Owner, root: nat, lo: nat, hi: nat) {
    forall v :: lo <= v < hi ==> OwnedAt(view, owner, (root, v)) && view[(root, v)].lo != 1
  }

  lemma LessNothing(view: View, owner: Owner, root: nat, vpn: nat)
    ensures ViewLess(view, root, vpn, 0) == view && OwnerLess(owner, root, vpn, 0) == owner
  {
  }

  lemma LessOneMore(view: View, owner: Owner, root: nat, vpn: nat, k: nat)
    ensures ViewLess(view, root, vpn, k) - {(root, vpn + k)} == ViewLess(view, root, vpn, k + 1)
    ensures OwnerLess(OwnerLess(owner, root, vpn, k), root, vpn + k, 1) == OwnerLess(owner, root, vpn, k + 1)
    ensures (root, vpn + k) in ViewLess(view, root, vpn, k) <==> (root, vpn + k) in view
    ensures OwnedAt(view, owner, (root, vpn + k)) ==>
              OwnedAt(ViewLess(view, root, vpn, k), OwnerLess(owner, root, vpn, k), (root, vpn + k))
  {
  }

  /** A fresh page holding `page` has been mapped at `at` and is owned there. */
  ghost predicate FreshAt(view0: View, owner0: Owner, mem: Mem, view: View, owner: Owner,
                          at: (nat, nat), lo: Flags, page: Page) {
    && at !in view0 && at in view && view == view0[at := view[at]] && view[at].lo == lo
    && view[at].hi !in owner0 && owner == owner0[view[at].hi := at]
    && view[at].hi < |mem| && mem[view[at].hi] == page
  }

  /** Pages lo up to hi of one table have been added, each a data page. */
  ghost predicate Extended(view0: View, owner0: Owner, view: View, owner: Owner, root: nat, lo: nat, hi: nat) {
    && lo <= hi && DataRange(view, owner, root, lo, hi)
    && (forall a :: a in view0 ==> a in view && view[a] == view0[a])
    && (forall a :: a in view ==> (a in view0 <==> !Within(a, root, lo, hi)))
    && (forall p :: p in owner0 ==> p in owner && owner[p] == owner0[p])
    && (forall p :: p in owner ==> (p in owner0 <==> !Within(owner[p], root, lo, hi)))
  }

  lemma ExtendedNothing(view: View, owner: Owner, root: nat, lo: nat)
    ensures Extended(view, owner, view, owner, root, lo, lo)
  {
  }

  lemma ExtendOne(view0: View, owner0: Owner, mem: Mem, view1: View, owner1: Owner, view: View, owner: Owner,
                  root: nat, lo: nat, hi: nat, flags: Flags, page: Page)
    requires Extended(view0, owner0, view1, owner1, root, lo, hi) && DataOk(view0, owner0)
    requires FreshAt(view1, owner1, mem, view, owner, (root, hi), flags, page) && flags != 1
    ensures Extended(view0, owner0, view, owner, root, lo, hi + 1)
  {
    forall v | lo <= v < hi + 1 ensures OwnedAt(view, owner, (root, v)) && view[(root, v)].lo != 1 {
      if v < hi {
        assert OwnedAt(view1, owner1, (root, v));
      }
    }
  }

  predicate AllZero(page: Page) { forall i :: 0 <= i < ENTRIES ==> page[i] == Zero }

  /** Pages lo up to hi are mapped with these permissions and hold zeroes. */
  /** PTE_R|PTE_U|xperm */
  function UserPage(xperm: Flags): Flags { 0x12 | xperm }

  lemma UserPageIsLeaf(xperm: Flags)
    ensures IsLeaf(Word(0, WithV(UserPage(xperm))))
  {
  }

  ghost predicate ZeroPages(mem: Mem, view: View, root: nat, lo: nat, hi: nat, perm: Flags) {
    forall v :: lo <= v < hi ==> ZeroAt(mem, view, (root, v), perm)
  }

  ghost predicate ZeroAt(mem: Mem, view: View, at: (nat, nat), perm: Flags) {
    at in view && view[at].lo == WithV(perm) && view[at].hi < |mem| && AllZero(mem[view[at].hi])
  }

  lemma ZeroOneMore(mem1: Mem, mem: Mem, view1: View, owner1: Owner, view: View, owner: Owner,
                    root: nat, lo: nat, hi: nat, perm: Flags)
    requires ZeroPages(mem1, view1, root, lo, hi, perm) && DataRange(view1, owner1, root, lo, hi)
    requires SameData(mem1, mem, owner1, {})
    requires FreshAt(view1, owner1, mem, view, owner, (root, hi), WithV(perm), ZeroPage())
    ensures ZeroPages(mem, view, root, lo, hi + 1, perm)
  {
    forall v | lo <= v < hi ensures ZeroAt(mem, view, (root, v), perm) {
      assert ZeroAt(mem1, view1, (root, v), perm) && OwnedAt(view1, owner1, (root, v));
    }
  }

  lemma SameDataTrans(mem0: Mem, mem1: Mem, mem: Mem, owner0: Owner, owner1: Owner, other: set<nat>)
    requires SameData(mem0, mem1, owner0, other) && SameData(mem1, mem, owner1, other)
    requires owner0.Keys <= owner1.Keys
    ensures SameData(mem0, mem, owner0, other)
  {
  }

  lemma GrownTrans(node0: Nodes, node1: Nodes, node: Nodes, root: nat)
    requires Grown(node0, node1, root) && Grown(node1, node, root)
    ensures Grown(node0, node, root)
  {
  }

  /** Pages 0 up to n of `to` have the permissions and contents that those of
      `from` had at the start. */
  ghost predicate Copied(mem0: Mem, view0: View, mem: Mem, view: View, from: nat, to: nat, n: nat) {
    forall v :: 0 <= v < n ==> CopiedAt(mem0, view0, mem, view, (from, v), (to, v))
  }

  ghost predicate CopiedAt(mem0: Mem, view0: View, mem: Mem, view: View, a: (nat, nat), b: (nat, nat)) {
    && a in view0 && b in view && view[b].lo == view0[a].lo
    && view0[a].hi < |mem0| && view[b].hi < |mem| && mem[view[b].hi] == mem0[view0[a].hi]
  }

  lemma CopyOneMore(mem0: Mem, view0: View, mem1: Mem, mem: Mem, view1: View, owner1: Owner, view: View, owner: Owner,
                    from: nat, to: nat, i: nat, flags: Flags, page: Page)
    requires Copied(mem0, view0, mem1, view1, from, to, i) && DataRange(view1, owner1, to, 0, i)
    requires SameData(mem1, mem, owner1, {})
    requires FreshAt(view1, owner1, mem, view, owner, (to, i), flags, page)
    requires (from, i) in view0 && view0[(from, i)].hi < |mem0| && page == mem0[view0[(from, i)].hi]
    requires flags == view0[(from, i)].lo
    ensures Copied(mem0, view0, mem, view, from, to, i + 1)
  {
    forall v | 0 <= v < i + 1 ensures CopiedAt(mem0, view0, mem, view, (from, v), (to, v)) {
      if v < i {
        assert OwnedAt(view1, owner1, (to, v));
        assert CopiedAt(mem0, view0, mem1, view1, (from, v), (to, v));
      }
    }
  }

  /** A table without any last-level page has no entries. */
  lemma NoLeaves(mem: Mem, node: Nodes, view: View, root: nat)
    requires ViewOk(mem, node, view) && forall p :: p in node && p.root == root ==> p.level == 2
    ensures forall v: nat :: (root, v) !in view
  {
    forall v: nat ensures (root, v) !in view {
      assert Leaf(mem, node, root, v) == Zero;
    }
  }

  /** What freewalk can find in entry i of the table at p when its page table
      has no last-level entries: a bare pointer to a subtree, or nothing. */
  ghost predicate EntryMeans(mem: Mem, node: Nodes, view: View, p: Pos, i: nat)
    requires p in node && node[p] < |mem| && i < ENTRIES
  {
    var pte := mem[node[p]][i];
    if V(pte) then p.level > 0 && !IsLeaf(pte) && Child(p, i) in node && node[Child(p, i)] == pte.hi
    else p.level > 0 ==> Child(p, i) !in node
  }

  lemma EntryCases(mem: Mem, node: Nodes, view: View, p: Pos, i: nat)
    requires TreeOk(mem, node, {}) && ViewOk(mem, node, view) && p in node && i < ENTRIES
    requires forall v: nat :: (p.root, v) !in view
    ensures node[p] < |mem| && EntryMeans(mem, node, view, p, i)
  {
    if p.level > 0 {
      assert EntryOk(mem, node, p, i);
    } else {
      var vpn := p.prefix * 512 + i;
      assert LeafPos(p.root, vpn) == p && vpn % 512 == i;
      assert Leaf(mem, node, p.root, vpn) == mem[node[p]][i];
      assert (p.root, vpn) !in view;
    }
  }

  /** The subtrees below the first i entries of p are gone, and nothing else. */
  ghost predicate Pruned(node0: Nodes, node: Nodes, p: Pos, i: nat) {
    && (forall q :: q in node ==> q in node0 && node[q] == node0[q])
    && (forall q :: q in node0 ==> (q in node <==> !(Under(p, q) && q != p && EntryOf(p, q) < i)))
  }

  lemma PrunedChild(node0: Nodes, node: Nodes, p: Pos, i: nat)
    requires Pruned(node0, node, p, i) && p.level <= 2 && i < ENTRIES && p in node0
    ensures p in node && node[p] == node0[p]
  {
  }

  lemma PrunedMore(node0: Nodes, node1: Nodes, node: Nodes, p: Pos, i: nat)
    requires Pruned(node0, node1, p, i) && 1 <= p.level <= 2 && i < ENTRIES
    requires forall q :: q in node <==> q in node1 && !Under(Child(p, i), q)
    requires forall q :: q in node ==> node[q] == node1[q]
    ensures Pruned(node0, node, p, i + 1) && Child(p, i) !in node
  {
    UnderChild(p, i, Child(p, i));
    forall q | q in node0 ensures q in node <==> !(Under(p, q) && q != p && EntryOf(p, q) < i + 1) {
      UnderChild(p, i, q);
    }
    assert Under(Child(p, i), Child(p, i));
  }

  lemma PrunedSkip(node0: Nodes, node: Nodes, p: Pos, i: nat)
    requires Pruned(node0, node, p, i) && p.level <= 2 && i < ENTRIES
    requires Rooted(node) && (p.level > 0 ==> Child(p, i) !in node)
    ensures Pruned(node0, node, p, i + 1)
  {
    forall q | q in node ensures !(Under(p, q) && q != p && EntryOf(p, q) == i) {
      if p.level > 0 {
        UnderChild(p, i, q);
        UnderIsNear(Child(p, i), q);
        assert q.level < 2 ==> Parent(q) in node;
      }
    }
  }

  lemma PrunedAll(node0: Nodes, node: Nodes, p: Pos)
    requires Pruned(node0, node, p, ENTRIES) && p.level <= 2 && p in node0
    ensures p in node && node[p] == node0[p]
    ensures p.level > 0 ==> forall i :: 0 <= i < ENTRIES ==> Child(p, i) !in node
    ensures forall q :: q in node - {p} <==> q in node0 && !Under(p, q)
  {
  }

  lemma DetachPartition(kstart: nat, npages: nat, free: seq<nat>, node: Nodes, owner: Owner, other: set<nat>, p: Pos)
    requires Partition(kstart, npages, free, node, owner, other) && Injective(node) && p in node
    ensures Partition(kstart, npages, free, node - {p}, owner, other + {node[p]})
  {
    assert node[p] in node.Values;
    var node1 := node - {p};
    forall x ensures x in node1.Values <==> x in node.Values && x != node[p] {
      if x in node.Values && x != node[p] {
        var q :| q in node && node[q] == x;
        assert q in node1 && node1[q] == x;
      }
      if x in node1.Values {
        var q :| q in node1 && node1[q] == x;
        assert q in node && node[q] == x;
      }
    }
  }

  lemma DetachView(mem: Mem, node: Nodes, view: View, p: Pos)
    requires ViewOk(mem, node, view) && p in node && forall v: nat :: (p.root, v) !in view
    ensures ViewOk(mem, node - {p}, view)
  {
    forall r: nat, v: nat
      ensures V(Leaf(mem, node - {p}, r, v)) <==> (r, v) in view
      ensures V(Leaf(mem, node - {p}, r, v)) ==> view[(r, v)] == Leaf(mem, node - {p}, r, v)
    {
      assert r == p.root ==> (p.root, v) !in view;
      assert V(Leaf(mem, node, r, v)) <==> (r, v) in view;
    }
  }

  lemma ClearKeepsLeaves(mem: Mem, node: Nodes, p: Pos, i: nat)
    requires Placed(mem, node) && Injective(node) && p in node && p.level > 0 && i < ENTRIES
    ensures forall r: nat, v: nat ::
              Leaf(mem[node[p] := mem[node[p]][i := Zero]], node, r, v) == Leaf(mem, node, r, v)
  {
    forall r: nat, v: nat ensures Leaf(mem[node[p] := mem[node[p]][i := Zero]], node, r, v) == Leaf(mem, node, r, v) {
      assert LeafPos(r, v) != p;
    }
  }

  lemma UndoExtended(view0: View, owner0: Owner, view: View, owner: Owner, root: nat, lo: nat, hi: nat)
    requires Extended(view0, owner0, view, owner, root, lo, hi)
    ensures ViewLess(view, root, lo, hi - lo) == view0 && OwnerLess(owner, root, lo, hi - lo) == owner0
    ensures PgUp(lo * PGSIZE) == lo && PgUp(hi * PGSIZE) == hi
    ensures lo == hi ==> view == view0 && owner == owner0
  {
    LessNothing(view, owner, root, lo);
    var w, o := ViewLess(view, root, lo, hi - lo), OwnerLess(owner, root, lo, hi - lo);
    assert w == view0;
    assert o == owner0;
  }

  lemma SetLeafValid(mem: Mem, kstart: nat, head: nat, free: seq<nat>, node: Nodes, view: View, owner: Owner,
                     other: set<nat>, root: nat, vpn: nat, pte: Word)
    requires FreeOk(mem, kstart, head, free) && Partition(kstart, |mem|, free, node, owner, other)
    requires TreeOk(mem, node, {}) && ViewOk(mem, node, view) && LeafPos(root, vpn) in node
    requires V(pte) || pte == Zero
    ensures var t := node[LeafPos(root, vpn)];
            && t < |mem|
            && var mem1 := mem[t := mem[t][vpn % 512 := pte]];
               && FreeOk(mem1, kstart, head, free) && TreeOk(mem1, node, {})
               && ViewOk(mem1, node, if V(pte) then view[(root, vpn) := pte] else view - {(root, vpn)})
               && SameData(mem, mem1, owner, other)
  {
    var t := node[LeafPos(root, vpn)];
    var mem1 := mem[t := mem[t][vpn % 512 := pte]];
    assert t in node.Values;
    SetLeafTree(mem, node, root, vpn, pte);
    forall r: nat, v: nat ensures Leaf(mem1, node, r, v) == if r == root && v == vpn then pte else Leaf(mem, node, r, v) {
      SetLeaf(mem, node, root, vpn, pte, r, v);
    }
    FreeStays(mem, mem1, kstart, head, free);
  }

  /** The part of a page number above a level. */
  function Prefix(level: nat, vpn: nat): nat
    requires level <= 2
  {
    if level == 2 then 0 else if level == 1 then vpn / 0x4_0000 else vpn / 512
  }

  lemma PrefixStep(root: nat, level: nat, vpn: nat)
    requires 1 <= level <= 2 && vpn < MAXVPN
    ensures Child(Pos(root, level, Prefix(level, vpn)), Px(level, vpn)) == Pos(root, level - 1, Prefix(level - 1, vpn))
    ensures InRange(Pos(root, level - 1, Prefix(level - 1, vpn)))
  {
  }

  /** Where the walk stops, nothing hangs below. */
  lemma NoLeafTable(mem: Mem, node: Nodes, root: nat, vpn: nat, level: nat)
    requires Placed(mem, node) && Rooted(node) && 1 <= level <= 2 && vpn < MAXVPN
    requires Pos(root, level - 1, Prefix(level - 1, vpn)) !in node
    ensures LeafPos(root, vpn) !in node
  {
    Ancestors(mem, node, root, vpn);
  }

  /** A page the caller holds becomes a table page. */
  lemma HangTable(mem: Mem, kstart: nat, head: nat, free: seq<nat>, node: Nodes, view: View, owner: Owner,
                  other: set<nat>, p: Pos, i: nat, t: nat)
    requires FreeOk(mem, kstart, head, free) && Partition(kstart, |mem|, free, node, owner, other)
    requires TreeOk(mem, node, {}) && ViewOk(mem, node, view) && t in other && 0 < kstart
    requires p in node && p.level > 0 && i < ENTRIES && !V(mem[node[p]][i]) && InRange(Child(p, i))
    ensures var mem1 := mem[t := ZeroPage()][node[p] := mem[node[p]][i := MakePte(t, 0)]];
            var node1 := node[Child(p, i) := t];
            && FreeOk(mem1, kstart, head, free) && Partition(kstart, |mem1|, free, node1, owner, other - {t})
            && TreeOk(mem1, node1, {}) && ViewOk(mem1, node1, view) && SameData(mem, mem1, owner, other - {t})
  {
    var mem1 := mem[t := ZeroPage()][node[p] := mem[node[p]][i := MakePte(t, 0)]];
    var node1 := node[Child(p, i) := t];
    assert EntryOk(mem, node, p, i);
    assert node[p] in node.Values;
    AddTable(mem, node, p, i, t);
    SameView(mem, node, mem1, node1, view);
    TablePartition(kstart, |mem|, free, node, owner, other, Child(p, i), t);
    FreeStays(mem, mem1, kstart, head, free);
  }

  lemma TablePartition(kstart: nat, npages: nat, free: seq<nat>, node: Nodes, owner: Owner, other: set<nat>,
                       p: Pos, t: nat)
    requires Partition(kstart, npages, free, node, owner, other) && p !in node && t in other
    ensures Partition(kstart, npages, free, node[p := t], owner, other - {t})
  {
    var node1 := node[p := t];
    assert node1.Values == node.Values + {t} by {
      assert forall q :: q in node ==> node1[q] == node[q];
      assert node1[p] == t;
    }
  }

  /** Writes outside the free pages leave the list intact. */
  lemma FreeStays(mem: Mem, mem1: Mem, kstart: nat, head: nat, free: seq<nat>)
    requires FreeOk(mem, kstart, head, free) && |mem1| == |mem|
    requires forall q :: q in free ==> mem1[q] == mem[q]
    ensures FreeOk(mem1, kstart, head, free)
  {
    forall i | 0 <= i < |free| ensures Link(mem1, free, i) {
      assert Link(mem, free, i) && free[i] in free;
    }
  }

  lemma TakeFree(mem: Mem, kstart: nat, head: nat, free: seq<nat>, node: Nodes, owner: Owner, other: set<nat>)
    requires 0 < kstart && FreeOk(mem, kstart, head, free) && head != 0
    requires Partition(kstart, |mem|, free, node, owner, other)
    ensures free != [] && kstart <= head < |mem| && head == free[0] && head !in node.Values
    ensures head !in owner && head !in other
    ensures FreeOk(mem[head := Filled(JUNK_ALLOC)], kstart, mem[head][0].hi / 4, free[1..])
    ensures Partition(kstart, |mem|, free[1..], node, owner, other + {head})
  {
    PopFree(mem, kstart, head, free, Filled(JUNK_ALLOC));
    PopPartition(kstart, |mem|, free, node, owner, other);
  }

  lemma PopFree(mem: Mem, kstart: nat, head: nat, free: seq<nat>, page: Page)
    requires 0 < kstart && FreeOk(mem, kstart, head, free) && head != 0
    ensures free != [] && kstart <= head < |mem| && head == free[0]
    ensures FreeOk(mem[head := page], kstart, mem[head][0].hi / 4, free[1..])
  {
    var mem1, rest := mem[head := page], free[1..];
    forall i | 0 <= i < |rest| ensures Link(mem1, rest, i) {
      assert rest[i] == free[i + 1] && Link(mem, free, i + 1);
      assert free[i + 1] != free[0];
    }
    assert Link(mem, free, 0);
  }

  lemma PopPartition(kstart: nat, npages: nat, free: seq<nat>, node: Nodes, owner: Owner, other: set<nat>)
    requires Partition(kstart, npages, free, node, owner, other) && free != []
    requires kstart <= free[0] < npages && forall i, j :: 0 <= i < j < |free| ==> free[i] != free[j]
    ensures free[0] !in node.Values && free[0] !in owner && free[0] !in other
    ensures Partition(kstart, npages, free[1..], node, owner, other + {free[0]})
  {
    assert free[0] in free;
    assert forall p :: p in free <==> p == free[0] || p in free[1..];
    assert free[0] !in free[1..];
  }

  lemma GiveFree(mem: Mem, kstart: nat, head: nat, free: seq<nat>, node: Nodes, owner: Owner, other: set<nat>,
                 p: nat, page: Page)
    requires 0 < kstart && FreeOk(mem, kstart, head, free) && p in other && kstart <= p < |mem|
    requires Partition(kstart, |mem|, free, node, owner, other) && page[0] == Pointer(head)
    ensures p !in node.Values && p !in owner
    ensures FreeOk(mem[p := page], kstart, p, [p] + free)
    ensures Partition(kstart, |mem|, [p] + free, node, owner, other - {p})
  {
    PushFree(mem, kstart, head, free, p, page);
    var free1 := [p] + free;
    assert forall q :: q in free1 <==> q == p || q in free;
  }

  lemma PushFree(mem: Mem, kstart: nat, head: nat, free: seq<nat>, p: nat, page: Page)
    requires 0 < kstart && FreeOk(mem, kstart, head, free) && kstart <= p < |mem| && p !in free && page[0] == Pointer(head)
    ensures FreeOk(mem[p := page], kstart, p, [p] + free)
  {
    var mem1, free1 := mem[p := page], [p] + free;
    forall i | 0 <= i < |free1| ensures Link(mem1, free1, i) {
      if i > 0 {
        assert free1[i] == free[i - 1] && free[i - 1] in free;
        assert Link(mem, free, i - 1);
      }
    }
  }
}
