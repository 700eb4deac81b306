/** Three-level page tables as a tree of pages inside physical memory (section
    4.4, Sv39, of the RISC-V Privileged Architecture), and the finite map from
    virtual page number to page-table entry that they stand for.

    Pages are named by page number; a page-table page is 512 words. */
module Sv39 {

  const MAXVPN: nat := 0x400_0000      // MAXVA / PGSIZE
  const ENTRIES: nat := 512

  /** A 64-bit word as its top 54 and its low 10 bits: for a page-table entry,
      the physical page number and the flags. */
  datatype Word = Word(hi: nat, lo: Flags)

  type Flags = bv10

  type Page = p: seq<Word> | |p| == ENTRIES witness seq(ENTRIES, _ => Word(0, 0))
  type Mem = seq<Page>

  const Zero := Word(0, 0)

  function ZeroPage(): (r: Page)
    ensures forall i :: 0 <= i < ENTRIES ==> r[i] == Zero
  {
    seq(ENTRIES, _ => Zero)
  }

  // ----- page-table entries -----

  predicate V(pte: Word) { pte.lo & 1 != 0 }

  /** (pte & (PTE_R|PTE_W|PTE_X)) != 0 */
  predicate IsLeaf(pte: Word) { pte.lo & 0xE != 0 }

  /** perm | PTE_V */
  function WithV(perm: Flags): Flags { perm | 1 }

  /** PA2PTE(pa) | perm | PTE_V for the page at pa. */
  function MakePte(ppn: nat, perm: Flags): Word { Word(ppn, WithV(perm)) }

  // The macros on 64-bit words.

  function Pa2Pte(pa: bv64): bv64 { (pa >> 12) << 10 }

  function Pte2Pa(pte: bv64): bv64 { (pte >> 10) << 12 }

  function PteFlags(pte: bv64): bv64 { pte & 0x3FF }

  function Number(page: bv64): nat { page as nat }

  /** A 64-bit word taken apart. */
  function WordOf(pte: bv64): Word { Word(Number(pte >> 10), (pte & 0x3FF) as Flags) }

  lemma PteShift(pa: bv64, flags: bv64)
    requires flags & 0x3FF == flags
    ensures (Pa2Pte(pa) | flags) >> 10 == pa >> 12
  {
  }

  lemma SameNumber(x: bv64, y: bv64)
    requires x == y
    ensures Number(x) == Number(y)
  {
  }

  lemma PteNumber(pa: bv64, flags: bv64)
    requires flags & 0x3FF == flags
    ensures Number((Pa2Pte(pa) | flags) >> 10) == Number(pa >> 12)
  {
    PteShift(pa, flags);
    SameNumber((Pa2Pte(pa) | flags) >> 10, pa >> 12);
  }

  lemma PteHigh(pa: bv64, flags: bv64)
    requires flags & 0x3FF == flags
    ensures WordOf(Pa2Pte(pa) | flags).hi == Number(pa >> 12)
  {
    PteNumber(pa, flags);
  }

  lemma PteLow(pa: bv64, perm: Flags)
    ensures WordOf(Pa2Pte(pa) | ((perm as bv64) | 1)).lo == WithV(perm)
  {
  }

  lemma FlagBits(perm: Flags)
    ensures ((perm as bv64) | 1) & 0x3FF == (perm as bv64) | 1
  {
  }

  /** The macros give back address and flags of an entry made for a
      page-aligned address. */
  lemma PteBits(pa: bv64, perm: Flags)
    requires pa & 0xFFF == 0
    ensures var pte := Pa2Pte(pa) | ((perm as bv64) | 1);
            Pte2Pa(pte) == pa && PteFlags(pte) == (perm as bv64) | 1
  {
  }

  /** Such an entry, taken apart, is the entry the model makes for the page. */
  lemma PteWord(pa: bv64, perm: Flags)
    ensures WordOf(Pa2Pte(pa) | ((perm as bv64) | 1)) == MakePte(Number(pa >> 12), perm)
  {
    FlagBits(perm);
    PteHigh(pa, (perm as bv64) | 1);
    PteLow(pa, perm);
  }

  /** On every 64-bit word the code's tests for PTE_V, for a leaf and for a
      pointer to a table are those of the word taken apart. */
  lemma PteTests(pte: bv64)
    ensures V(WordOf(pte)) <==> pte & 1 != 0
    ensures IsLeaf(WordOf(pte)) <==> pte & (2 | 4 | 8) != 0
    ensures WordOf(pte).lo == 1 <==> PteFlags(pte) == 1
  {
  }

  /** PX(level, va) */
  function Px(level: nat, vpn: nat): (r: nat)
    requires level <= 2
    ensures r < ENTRIES
  {
    if level == 0 then vpn % 512 else if level == 1 then vpn / 512 % 512 else vpn / 0x4_0000 % 512
  }

  /** The three indices determine the page number. */
  lemma PxInjective(a: nat, b: nat)
    requires a < 0x800_0000 && b < 0x800_0000
    requires Px(0, a) == Px(0, b) && Px(1, a) == Px(1, b) && Px(2, a) == Px(2, b)
    ensures a == b
  {
    assert a / 0x4_0000 == a / 512 / 512 && b / 0x4_0000 == b / 512 / 512;
  }

  /** What the hardware finds for a page number: the entry in the last-level
      table, or zero when the walk stops early. */
  function Translate(mem: Mem, root: nat, vpn: nat): Word {
    if root >= |mem| then Zero
    else
      var e2 := mem[root][Px(2, vpn)];
      if !V(e2) || e2.hi >= |mem| then Zero
      else
        var e1 := mem[e2.hi][Px(1, vpn)];
        if !V(e1) || e1.hi >= |mem| then Zero
        else mem[e1.hi][Px(0, vpn)]
  }

  // ----- the tree -----

  /** A place for a table page: which page table, which level, and the part of
      the page number above that level. */
  datatype Pos = Pos(root: nat, level: nat, prefix: nat)

  function Child(p: Pos, i: nat): Pos
    requires p.level > 0
  {
    Pos(p.root, p.level - 1, p.prefix * 512 + i)
  }

  function Parent(p: Pos): Pos { Pos(p.root, p.level + 1, p.prefix / 512) }

  predicate InRange(p: Pos) {
    (p.level == 2 && p.prefix == 0) || (p.level == 1 && p.prefix < 512) || (p.level == 0 && p.prefix < 0x4_0000)
  }

  type Nodes = map<Pos, nat>

  ghost predicate Injective(node: Nodes) {
    forall p, q :: p in node && q in node && p != q ==> node[p] != node[q]
  }

  ghost predicate Placed(mem: Mem, node: Nodes) {
    forall p :: p in node ==>
      && InRange(p) && 0 < node[p] < |mem|
      && (p.level == 2 ==> node[p] == p.root)
  }

  ghost predicate Rooted(node: Nodes) {
    forall p {:trigger Parent(p)} :: p in node && p.level < 2 ==> Parent(p) in node
  }

  /** An entry above the last level is valid exactly when its subtree exists,
      and then it is a bare pointer to it; `ex` is an entry being cleared. */
  ghost predicate EntryOk(mem: Mem, node: Nodes, p: Pos, i: nat)
    requires p in node && node[p] < |mem| && i < ENTRIES && p.level > 0
  {
    var pte := mem[node[p]][i];
    && (V(pte) <==> Child(p, i) in node)
    && (V(pte) ==> pte == MakePte(node[Child(p, i)], 0))
  }

  ghost predicate EntriesOk(mem: Mem, node: Nodes, ex: set<(Pos, nat)>)
    requires Placed(mem, node)
  {
    forall p, i :: p in node && p.level > 0 && 0 <= i < ENTRIES && (p, i) !in ex ==> EntryOk(mem, node, p, i)
  }

  ghost predicate TreeOk(mem: Mem, node: Nodes, ex: set<(Pos, nat)>) {
    Placed(mem, node) && Rooted(node) && Injective(node) && EntriesOk(mem, node, ex)
  }

  function LeafPos(root: nat, vpn: nat): Pos { Pos(root, 0, vpn / 512) }

  /** The last-level entry for a page number, by position. */
  ghost function Leaf(mem: Mem, node: Nodes, root: nat, vpn: nat): Word {
    if LeafPos(root, vpn) in node && node[LeafPos(root, vpn)] < |mem|
    then mem[node[LeafPos(root, vpn)]][vpn % 512] else Zero
  }

  lemma Ancestors(mem: Mem, node: Nodes, root: nat, vpn: nat)
    requires Placed(mem, node) && Rooted(node) && vpn < 0x800_0000
    ensures LeafPos(root, vpn) in node ==> Pos(root, 1, vpn / 0x4_0000) in node
    ensures Pos(root, 1, vpn / 0x4_0000) in node ==> Pos(root, 2, 0) in node
  {
    assert Parent(LeafPos(root, vpn)) == Pos(root, 1, vpn / 0x4_0000);
    assert Parent(Pos(root, 1, vpn / 0x4_0000)) == Pos(root, 2, 0);
  }

  /** The page-table refinement: walking the tree is looking up the position. */
  lemma TranslateIsLeaf(mem: Mem, node: Nodes, root: nat, vpn: nat)
    requires TreeOk(mem, node, {}) && Pos(root, 2, 0) in node && vpn < 0x800_0000
    ensures Translate(mem, root, vpn) == Leaf(mem, node, root, vpn)
  {
    Ancestors(mem, node, root, vpn);
    var p2, p1 := Pos(root, 2, 0), Pos(root, 1, vpn / 0x4_0000);
    assert Child(p2, Px(2, vpn)) == p1;
    assert EntryOk(mem, node, p2, Px(2, vpn));
    if p1 in node {
      assert Child(p1, Px(1, vpn)) == LeafPos(root, vpn) by {
        assert vpn / 512 == vpn / 0x4_0000 * 512 + vpn / 512 % 512;
      }
      assert EntryOk(mem, node, p1, Px(1, vpn));
    }
  }

  // ----- changing one entry -----

  /** Writing a last-level entry changes that entry and no other. */
  lemma SetLeaf(mem: Mem, node: Nodes, root: nat, vpn: nat, pte: Word, root': nat, vpn': nat)
    requires TreeOk(mem, node, {}) && LeafPos(root, vpn) in node
    ensures node[LeafPos(root, vpn)] < |mem|
    ensures var t := node[LeafPos(root, vpn)];
            Leaf(mem[t := mem[t][vpn % 512 := pte]], node, root', vpn')
            == if root' == root && vpn' == vpn then pte else Leaf(mem, node, root', vpn')
  {
    var p, p' := LeafPos(root, vpn), LeafPos(root', vpn');
    if root' == root && vpn' != vpn && vpn' / 512 == vpn / 512 {
      assert vpn' % 512 != vpn % 512;
    }
  }

  lemma SetLeafTree(mem: Mem, node: Nodes, root: nat, vpn: nat, pte: Word)
    requires TreeOk(mem, node, {}) && LeafPos(root, vpn) in node
    ensures var t := node[LeafPos(root, vpn)];
            t < |mem| && TreeOk(mem[t := mem[t][vpn % 512 := pte]], node, {})
  {
    var t := node[LeafPos(root, vpn)];
    var mem1 := mem[t := mem[t][vpn % 512 := pte]];
    forall p, i | p in node && p.level > 0 && 0 <= i < ENTRIES ensures EntryOk(mem1, node, p, i) {
      assert EntryOk(mem, node, p, i);
      assert p != LeafPos(root, vpn);
    }
  }

  /** A page that is not a table may change freely. */
  lemma OtherPage(mem: Mem, node: Nodes, ex: set<(Pos, nat)>, t: nat, page: Page)
    requires TreeOk(mem, node, ex) && t < |mem| && t !in node.Values
    ensures TreeOk(mem[t := page], node, ex)
    ensures forall root, vpn: nat :: Leaf(mem[t := page], node, root, vpn) == Leaf(mem, node, root, vpn)
  {
    var mem1 := mem[t := page];
    assert forall p :: p in node ==> node[p] in node.Values;
    forall p, i | p in node && p.level > 0 && 0 <= i < ENTRIES && (p, i) !in ex ensures EntryOk(mem1, node, p, i) {
      assert EntryOk(mem, node, p, i);
    }
  }

  /** walk hangs a zeroed page t under an empty entry. */
  lemma AddTable(mem: Mem, node: Nodes, p: Pos, i: nat, t: nat)
    requires TreeOk(mem, node, {}) && p in node && p.level > 0 && i < ENTRIES && !V(mem[node[p]][i])
    requires 0 < t < |mem| && t !in node.Values && InRange(Child(p, i))
    ensures var mem1 := mem[t := ZeroPage()][node[p] := mem[node[p]][i := MakePte(t, 0)]];
            TreeOk(mem1, node[Child(p, i) := t], {})
    ensures var mem1 := mem[t := ZeroPage()][node[p] := mem[node[p]][i := MakePte(t, 0)]];
            forall root, vpn: nat :: Leaf(mem1, node[Child(p, i) := t], root, vpn) == Leaf(mem, node, root, vpn)
  {
    var c := Child(p, i);
    var mem1, node1 := mem[t := ZeroPage()][node[p] := mem[node[p]][i := MakePte(t, 0)]], node[c := t];
    assert EntryOk(mem, node, p, i);
    assert forall q :: q in node ==> node[q] in node.Values;
    assert Parent(c) == p;
    forall q, j | q in node1 && q.level > 0 && 0 <= j < ENTRIES ensures EntryOk(mem1, node1, q, j) {
      AddedEntry(mem, node, p, i, t, q, j);
    }
    forall root, vpn: nat ensures Leaf(mem1, node1, root, vpn) == Leaf(mem, node, root, vpn) {
      assert LeafPos(root, vpn) != p;
    }
  }

  lemma AddedEntry(mem: Mem, node: Nodes, p: Pos, i: nat, t: nat, q: Pos, j: nat)
    requires TreeOk(mem, node, {}) && p in node && p.level > 0 && i < ENTRIES && !V(mem[node[p]][i])
    requires 0 < t < |mem| && t !in node.Values && InRange(Child(p, i)) && Child(p, i) !in node
    requires q in node[Child(p, i) := t] && q.level > 0 && j < ENTRIES
    ensures var mem1 := mem[t := ZeroPage()][node[p] := mem[node[p]][i := MakePte(t, 0)]];
            node[Child(p, i) := t][q] < |mem1| && EntryOk(mem1, node[Child(p, i) := t], q, j)
  {
    var c := Child(p, i);
    if q == c {
      // the children of a table that did not exist did not exist either
      assert Parent(Child(c, j)) == c by { assert (c.prefix * 512 + j) / 512 == c.prefix; }
      assert Child(c, j) !in node;
      assert node[p] in node.Values;
    } else {
      assert EntryOk(mem, node, q, j);
      assert node[q] in node.Values && node[p] in node.Values;
      assert Child(q, j) == c ==> q == p && j == i by { ChildInjective(q, j, p, i); }
    }
  }

  lemma ParentOfChild(p: Pos, i: nat)
    requires p.level > 0 && i < ENTRIES
    ensures Parent(Child(p, i)) == p && Child(p, i).prefix % 512 == i
  {
  }

  lemma ChildOfParent(p: Pos)
    ensures Child(Parent(p), p.prefix % 512) == p
  {
  }

  lemma ChildInjective(p: Pos, i: nat, q: Pos, j: nat)
    requires p.level > 0 && q.level > 0 && i < ENTRIES && j < ENTRIES
    ensures Child(p, i) == Child(q, j) ==> p == q && i == j
  {
  }

  // ----- taking the tree apart -----

  /** freewalk frees a table that has no subtrees left; its parent's entry is
      then the one entry out of order. */
  lemma RemoveTable(mem: Mem, node: Nodes, p: Pos)
    requires TreeOk(mem, node, {}) && p in node
    requires p.level > 0 ==> forall i :: 0 <= i < ENTRIES ==> Child(p, i) !in node
    ensures TreeOk(mem, node - {p}, if p.level < 2 then {(Parent(p), p.prefix % 512)} else {})
  {
    var node1 := node - {p};
    var ex := if p.level < 2 then {(Parent(p), p.prefix % 512)} else {};
    forall q | q in node1 && q.level < 2 ensures Parent(q) in node1 {
      ChildOfParent(q);
    }
    forall q, j | q in node1 && q.level > 0 && 0 <= j < ENTRIES && (q, j) !in ex ensures EntryOk(mem, node1, q, j) {
      assert EntryOk(mem, node, q, j);
      ParentOfChild(q, j);
    }
  }

  /** Clearing the entry of a subtree that is gone. */
  lemma ClearEntry(mem: Mem, node: Nodes, p: Pos, i: nat)
    requires TreeOk(mem, node, {(p, i)}) && p in node && p.level > 0 && i < ENTRIES && Child(p, i) !in node
    ensures TreeOk(mem[node[p] := mem[node[p]][i := Zero]], node, {})
  {
    var mem1 := mem[node[p] := mem[node[p]][i := Zero]];
    forall q, j | q in node && q.level > 0 && 0 <= j < ENTRIES ensures EntryOk(mem1, node, q, j) {
      if (q, j) != (p, i) {
        assert EntryOk(mem, node, q, j);
      }
    }
  }

  /** Every table page hangs below the root of its table. */
  lemma RootOf(mem: Mem, node: Nodes, p: Pos)
    requires Placed(mem, node) && Rooted(node) && p in node
    ensures Pos(p.root, 2, 0) in node
  {
    assert InRange(p);
    if p.level == 0 {
      assert Parent(p) in node && InRange(Parent(p));
      assert Parent(Parent(p)) == Pos(p.root, 2, 0);
    } else if p.level == 1 {
      assert Parent(p) == Pos(p.root, 2, 0);
    }
  }

  lemma NoOrphans(mem: Mem, node: Nodes, root: nat)
    requires Placed(mem, node) && Rooted(node) && Pos(root, 2, 0) !in node
    ensures forall p :: p in node ==> p.root != root
  {
    forall p | p in node ensures p.root != root {
      RootOf(mem, node, p);
    }
  }

  /** uvmcreate makes a zeroed page the root of a table of its own. */
  lemma AddRoot(mem: Mem, node: Nodes, t: nat)
    requires TreeOk(mem, node, {}) && 0 < t < |mem| && t !in node.Values
    ensures Pos(t, 2, 0) !in node
    ensures TreeOk(mem[t := ZeroPage()], node[Pos(t, 2, 0) := t], {})
    ensures forall root, vpn: nat ::
              Leaf(mem[t := ZeroPage()], node[Pos(t, 2, 0) := t], root, vpn) == Leaf(mem, node, root, vpn)
  {
    var r := Pos(t, 2, 0);
    assert r in node ==> node[r] in node.Values;
    var mem1, node1 := mem[t := ZeroPage()], node[r := t];
    OtherPage(mem, node, {}, t, ZeroPage());
    forall q, j | q in node1 && q.level > 0 && 0 <= j < ENTRIES ensures EntryOk(mem1, node1, q, j) {
      if q == r {
        ParentOfChild(r, j);
      } else {
        assert EntryOk(mem1, node, q, j);
      }
    }
    assert forall p :: p in node ==> node[p] in node.Values;
  }

  // ----- subtrees -----

  /** q is p or lies below it. */
  predicate Under(p: Pos, q: Pos) {
    && q.root == p.root && q.level <= p.level <= 2
    && p.prefix == (if p.level == q.level then q.prefix
                    else if p.level == q.level + 1 then q.prefix / 512 else q.prefix / 0x4_0000)
  }

  /** Which entry of p the position q lies below. */
  function EntryOf(p: Pos, q: Pos): nat {
    if p.level == q.level + 1 then q.prefix % 512 else q.prefix / 512 % 512
  }

  lemma UnderChild(p: Pos, i: nat, q: Pos)
    requires 1 <= p.level <= 2 && i < ENTRIES
    ensures Under(Child(p, i), q) <==> Under(p, q) && q != p && EntryOf(p, q) == i
  {
  }

  lemma UnderIsNear(c: Pos, q: Pos)
    requires c.level <= 1
    ensures Under(c, q) ==> q == c || Parent(q) == c
  {
  }
}
