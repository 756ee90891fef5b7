/**
 Sv39 page tables in physical memory, and the flat map they stand for (section 4.4 of the
 RISC-V Privileged Architecture, version 20211203).

 Physical memory is a sequence of pages; a page holds either 512 page-table entries or 4096
 bytes. `Space` is the flat view of one address space: the table pages of each level by the
 part of the page number they serve, and the leaf entries by virtual page number. Represents
 ties it to memory. Virtual addresses are page numbers below MAXVPN = MAXVA / 4096.
 */
module Sv39 {

  import opened Modular
  import opened Params

  const PGSIZE := 4096
  const ENTRIES := 512
  const MAXVPN := 0x400_0000
  const ROOT_USED := 256  // entries of a root page that addresses below MAXVA use

  const PTE_V := 1
  const PTE_R := 2
  const PTE_W := 4
  const PTE_X := 8
  const PTE_U := 16


  datatype Page = Table(ptes: seq<nat>) | Data(bytes: seq<Byte>)

  type Memory = seq<Page>

  // ---------- entries ----------

  function MakePte(ppn: nat, flags: nat): nat {
    ppn * 1024 + flags
  }

  function PpnOf(pte: nat): nat {
    pte / 1024
  }

  function FlagsOf(pte: nat): nat {
    pte % 1024
  }

  predicate IsValid(pte: nat) {
    pte % 2 == 1
  }

  /** One of R, W, X is set. */
  predicate IsLeaf(pte: nat) {
    pte / 2 % 8 != 0
  }

  predicate IsUser(pte: nat) {
    pte / 16 % 2 == 1
  }

  /** flags | PTE_V */
  function WithValid(flags: nat): nat {
    if flags % 2 == 1 then flags else flags + 1
  }

  /** An entry gives back the page and the flags it was made of. */
  lemma EntryRoundTrip(ppn: nat, flags: nat)
    requires flags < 1024
    ensures PpnOf(MakePte(ppn, flags)) == ppn && FlagsOf(MakePte(ppn, flags)) == flags
    ensures IsValid(MakePte(ppn, flags)) <==> flags % 2 == 1
    ensures IsLeaf(MakePte(ppn, flags)) <==> flags / 2 % 8 != 0
    ensures IsUser(MakePte(ppn, flags)) <==> flags / 16 % 2 == 1
  {
    var pte := MakePte(ppn, flags);
    assert pte / 2 == 512 * ppn + flags / 2;
    assert pte / 16 == 64 * ppn + flags / 16;
    AddMultiple(64 * ppn, 8, flags / 2);
    AddMultiple(32 * ppn, 2, flags / 16);
    AddMultiple(512 * ppn, 2, flags);
  }

  // ---------- page numbers ----------

  /** The key of a table and an index in it make the key of one level below. */
  function Join(k: nat, i: nat): nat {
    k * ENTRIES + i
  }

  function Up(k: nat): nat {
    k / ENTRIES
  }

  function Idx(k: nat): (i: nat)
    ensures i < ENTRIES
  {
    k % ENTRIES
  }

  lemma Joins()
    ensures forall k: nat, i: nat {:trigger Join(k, i)} :: i < ENTRIES ==> Up(Join(k, i)) == k && Idx(Join(k, i)) == i
    ensures forall k: nat {:trigger Up(k)} {:trigger Idx(k)} :: Join(Up(k), Idx(k)) == k
  {
  }

  /** PX(level, va) in terms of the page number. */
  function Px(level: nat, v: nat): (i: nat)
    requires level <= 2
    ensures i < ENTRIES
  {
    (if level == 2 then v / 0x4_0000 else if level == 1 then v / 0x200 else v) % ENTRIES
  }

  /** The page number v without its lowest 9 * level bits. */
  function Prefix(level: nat, v: nat): nat {
    if level == 0 then v else Up(Prefix(level - 1, v))
  }

  lemma PxSplits(level: nat, v: nat)
    requires v < MAXVPN && level <= 2
    ensures Px(level, v) == Idx(Prefix(level, v)) && Prefix(2, v) < ROOT_USED && Prefix(3, v) == 0
  {
    assert Prefix(0, v) == v && Prefix(1, v) == Up(v) && Prefix(2, v) == Up(Up(v)) && Prefix(3, v) == Up(Up(Up(v)));
    assert Up(v) == v / 0x200 && Up(Up(v)) == v / 0x4_0000 < 0x100;
  }

  // ---------- the hardware walk ----------

  predicate TableAt(m: Memory, p: nat) {
    p < |m| && m[p].Table? && |m[p].ptes| == ENTRIES
  }

  /** The entry of page v found from the table p of the given level, or 0 if a table on the way is missing. */
  function HardwareWalk(m: Memory, p: nat, level: nat, v: nat): nat
    requires level <= 2
    decreases level
  {
    if !TableAt(m, p) then 0
    else
      var pte := m[p].ptes[Px(level, v)];
      if level == 0 then pte
      else if IsValid(pte) then HardwareWalk(m, PpnOf(pte), level - 1, v)
      else 0
  }

  // ---------- the flat view ----------

  /** A table: its level (2 is the root's) and the part of the page number all its pages share. */
  datatype Node = Node(level: nat, key: nat)

  const ROOT := Node(2, 0)

  /** The pages that hold the tables, and the leaf entries by page number. */
  datatype Space = Space(tables: map<Node, nat>, leaf: map<nat, nat>)

  function Parent(n: Node): Node {
    Node(n.level + 1, Up(n.key))
  }

  /** The node of the given level on the way to page v. */
  function OnPath(level: nat, v: nat): Node {
    Node(level, Prefix(level + 1, v))
  }

  lemma PathEnds(v: nat)
    requires v < MAXVPN
    ensures OnPath(2, v) == ROOT && OnPath(0, v) == Node(0, Up(v))
  {
    PxSplits(2, v);
    assert Prefix(1, v) == Up(Prefix(0, v));
  }

  function LeafAt(t: Space, v: nat): nat {
    if v in t.leaf then t.leaf[v] else 0
  }

  /** What the entry of key k holds in a table of the given level. */
  function EntryFor(t: Space, level: nat, k: nat): nat {
    if level == 0 then LeafAt(t, k)
    else if Node(level - 1, k) in t.tables then MakePte(t.tables[Node(level - 1, k)], PTE_V)
    else 0
  }

  ghost predicate NodeOk(m: Memory, t: Space, n: Node)
    requires n in t.tables
    ensures NodeOk(m, t, n) ==> TableAt(m, t.tables[n])
  {
    && TableAt(m, t.tables[n])
    && forall i: nat :: i < ENTRIES ==> m[t.tables[n]].ptes[i] == EntryFor(t, n.level, Join(n.key, i))
  }

  ghost predicate InPlace(t: Space, n: Node) {
    && n.level <= 2 && (n.level == 2 ==> n.key == 0) && (n.level == 1 ==> n.key < ROOT_USED)
    && (n.level < 2 ==> Parent(n) in t.tables)
  }

  /** There is a root, every other table hangs below a table, every leaf entry stands in one. */
  ghost predicate Nested(t: Space)
    ensures Nested(t) ==> ROOT in t.tables
  {
    && ROOT in t.tables
    && (forall n :: n in t.tables ==> InPlace(t, n))
    && (forall v :: v in t.leaf ==> Node(0, Up(v)) in t.tables && IsValid(t.leaf[v]) && IsLeaf(t.leaf[v]))
  }

  /** No page serves as two tables. */
  ghost predicate Distinct(t: Space) {
    forall n, o :: n in t.tables && o in t.tables && t.tables[n] == t.tables[o] ==> n == o
  }

  ghost predicate Represents(m: Memory, t: Space)
    ensures Represents(m, t) ==> Nested(t) && Distinct(t) && ROOT in t.tables && TableAt(m, t.tables[ROOT])
  {
    Nested(t) && Distinct(t) && (forall n :: n in t.tables ==> NodeOk(m, t, n)) && NodeOk(m, t, ROOT)
  }

  ghost predicate IsTable(t: Space, p: nat) {
    exists n :: n in t.tables && t.tables[n] == p
  }

  /** One step of the walk: the table on the way holds the entry of the prefix of v. */
  lemma PathEntry(m: Memory, t: Space, level: nat, v: nat)
    requires Represents(m, t) && v < MAXVPN && level <= 2 && OnPath(level, v) in t.tables
    ensures TableAt(m, t.tables[OnPath(level, v)])
    ensures m[t.tables[OnPath(level, v)]].ptes[Px(level, v)] == EntryFor(t, level, Prefix(level, v))
  {
    hide MakePte, IsValid, IsLeaf, Px, Up, Idx, Join, Distinct;
    PxSplits(level, v);
    Joins();
    assert NodeOk(m, t, OnPath(level, v));
  }

  /** The entry of v in its lowest table, valid exactly if v is mapped. */
  lemma LeafEntry(m: Memory, t: Space, v: nat)
    requires Represents(m, t) && v < MAXVPN && Node(0, Up(v)) in t.tables
    ensures TableAt(m, t.tables[Node(0, Up(v))]) && Px(0, v) == Idx(v)
    ensures m[t.tables[Node(0, Up(v))]].ptes[Px(0, v)] == LeafAt(t, v)
    ensures IsValid(LeafAt(t, v)) <==> v in t.leaf
    ensures v in t.leaf ==> FlagsOf(t.leaf[v]) != PTE_V
  {
    hide Represents, Px, Up, Idx;
    PathEnds(v);
    PxSplits(0, v);
    PathEntry(m, t, 0, v);
  }

  lemma LeafBound(t: Space, v: nat)
    requires Nested(t) && v in t.leaf
    ensures v < MAXVPN
  {
    assert InPlace(t, Node(0, Up(v)));
    assert InPlace(t, Node(1, Up(Up(v))));
  }

  /** What the hardware finds is the flat map. */
  lemma {:induction false} WalkRefinesFrom(m: Memory, t: Space, level: nat, v: nat)
    requires Represents(m, t) && v < MAXVPN && level <= 2 && OnPath(level, v) in t.tables
    ensures HardwareWalk(m, t.tables[OnPath(level, v)], level, v) == LeafAt(t, v)
  {
    hide MakePte, PpnOf, IsValid, IsLeaf, Px, Up, Distinct, NodeOk;
    PathEntry(m, t, level, v);
    NullEntry();
    if level == 0 {
    } else if OnPath(level - 1, v) in t.tables {
      EntryRoundTrip(t.tables[OnPath(level - 1, v)], PTE_V);
      WalkRefinesFrom(m, t, level - 1, v);
    } else {
      Unreached(t, level - 1, v);
    }
  }

  lemma WalkRefines(m: Memory, t: Space, v: nat)
    requires Represents(m, t) && v < MAXVPN
    ensures HardwareWalk(m, t.tables[ROOT], 2, v) == LeafAt(t, v)
  {
    PxSplits(2, v);
    WalkRefinesFrom(m, t, 2, v);
  }

  /** A page below a missing table is not mapped. */
  lemma {:induction false} Unreached(t: Space, level: nat, v: nat)
    requires Nested(t) && level < 2 && OnPath(level, v) !in t.tables
    ensures v !in t.leaf
  {
    if level > 0 {
      var below := OnPath(level - 1, v);
      assert below in t.tables ==> InPlace(t, below);
      Unreached(t, level - 1, v);
    } else {
      assert Prefix(1, v) == Up(Prefix(0, v)) == Up(v);
    }
  }

  lemma NullEntry()
    ensures !IsValid(0)
  {
  }

  // ---------- changing memory and the view together ----------

  function ZeroTable(): (p: Page)
    ensures p.Table? && |p.ptes| == ENTRIES && forall i :: 0 <= i < ENTRIES ==> p.ptes[i] == 0
  {
    Table(seq(ENTRIES, i => 0))
  }

  function SetEntry(m: Memory, p: nat, i: nat, pte: nat): Memory
    requires TableAt(m, p) && i < ENTRIES
  {
    m[p := Table(m[p].ptes[i := pte])]
  }

  /** Memory that differs only outside the tables stands for the same space. */
  lemma FrameTables(m: Memory, m': Memory, t: Space)
    requires Represents(m, t) && |m'| == |m|
    requires forall p :: 0 <= p < |m| && IsTable(t, p) ==> m'[p] == m[p]
    ensures Represents(m', t)
  {
    forall n | n in t.tables ensures NodeOk(m', t, n) {
      assert NodeOk(m, t, n) && IsTable(t, t.tables[n]);
    }
  }

  /** A zeroed page that is no table yet becomes the table of node n. */
  lemma AddTable(m: Memory, t: Space, n: Node, p: nat)
    requires Represents(m, t) && n !in t.tables && n.level < 2 && InPlace(t, n) && p < |m| && !IsTable(t, p)
    requires m[p] == ZeroTable()
    ensures NodeOk(m, t, Parent(n))
    ensures Represents(SetEntry(m, t.tables[Parent(n)], Idx(n.key), MakePte(p, PTE_V)), t.(tables := t.tables[n := p]))
  {
    hide MakePte, Join, Up, Idx, IsValid, IsLeaf, NodeOk, InPlace;
    AddedShape(t, n, p);
    assert NodeOk(m, t, Parent(n));
    var m', t' := SetEntry(m, t.tables[Parent(n)], Idx(n.key), MakePte(p, PTE_V)), t.(tables := t.tables[n := p]);
    forall o | o in t'.tables ensures NodeOk(m', t', o) {
      AddedNode(m, t, n, p, o);
    }
  }

  lemma AddedShape(t: Space, n: Node, p: nat)
    requires Nested(t) && Distinct(t) && n !in t.tables && n.level < 2 && InPlace(t, n) && !IsTable(t, p)
    ensures Parent(n) in t.tables && Nested(t.(tables := t.tables[n := p])) && Distinct(t.(tables := t.tables[n := p]))
  {
    hide Up, IsValid, IsLeaf;
    var t' := t.(tables := t.tables[n := p]);
    forall o | o in t'.tables ensures InPlace(t', o) {
      assert o == n || InPlace(t, o);
    }
  }

  lemma AddedNode(m: Memory, t: Space, n: Node, p: nat, o: Node)
    requires Represents(m, t) && n !in t.tables && n.level < 2 && Parent(n) in t.tables && p < |m| && !IsTable(t, p)
    requires m[p] == ZeroTable() && (o == n || o in t.tables)
    ensures NodeOk(m, t, Parent(n))
    ensures NodeOk(SetEntry(m, t.tables[Parent(n)], Idx(n.key), MakePte(p, PTE_V)), t.(tables := t.tables[n := p]), o)
  {
    hide MakePte, Join, Up, Idx, Nested;
    Joins();
    assert NodeOk(m, t, Parent(n));
    if o == n {
      EmptyBelow(t, n);
    } else {
      assert NodeOk(m, t, o);
    }
  }

  /** Below a missing table there are neither tables nor leaf entries. */
  lemma EmptyBelow(t: Space, n: Node)
    requires Nested(t) && n !in t.tables && n.level < 2
    ensures forall i: nat :: i < ENTRIES ==> EntryFor(t, n.level, Join(n.key, i)) == 0
  {
    hide Join, Up, Idx, IsValid, IsLeaf;
    Joins();
    forall i: nat | i < ENTRIES ensures EntryFor(t, n.level, Join(n.key, i)) == 0 {
      if n.level == 1 {
        var below := Node(0, Join(n.key, i));
        assert below in t.tables ==> InPlace(t, below);
      }
    }
  }

  /** Writing a leaf entry changes one page of the flat map and no other. */
  lemma SetLeaf(m: Memory, t: Space, v: nat, pte: nat)
    requires Represents(m, t) && Node(0, Up(v)) in t.tables && (pte == 0 || (IsValid(pte) && IsLeaf(pte)))
    ensures NodeOk(m, t, Node(0, Up(v)))
    ensures
      var m' := SetEntry(m, t.tables[Node(0, Up(v))], Idx(v), pte);
      Represents(m', t.(leaf := if pte == 0 then t.leaf - {v} else t.leaf[v := pte]))
  {
    hide MakePte, Join, Up, Idx, IsValid, IsLeaf, InPlace;
    Joins();
    var k: nat := Up(v);
    assert NodeOk(m, t, Node(0, k));
    var m' := SetEntry(m, t.tables[Node(0, k)], Idx(v), pte);
    var t' := t.(leaf := if pte == 0 then t.leaf - {v} else t.leaf[v := pte]);
    assert Nested(t') by {
      assert forall o :: o in t'.tables ==> InPlace(t, o);
      SameTables(t, t');
    }
    forall o | o in t'.tables ensures NodeOk(m', t', o) {
      assert NodeOk(m, t, o);
    }
  }

  lemma SameTables(t: Space, t': Space)
    requires t'.tables == t.tables
    ensures forall n :: InPlace(t', n) <==> InPlace(t, n)
  {
  }
}
