/**
 Freeing a page table. Freewalk visits a table's entries in order and frees each subtree
 before it clears the entry; Trimmed describes memory and free list after i entries, and
 FreedBelow after the whole subtree.
 */
module Teardown {

  import opened Sv39
  import opened PageOwnership

  /** o is n or a node below it. */
  predicate Below(o: Node, n: Node) {
    o.level <= n.level && Prefix(n.level - o.level, o.key) == n.key
  }

  function Child(n: Node, i: nat): Node
    requires n.level > 0
  {
    Node(n.level - 1, Join(n.key, i))
  }

  /** The index in n's table of the branch that leads to o. */
  function Branch(n: Node, o: Node): (i: nat)
    requires o.level < n.level
    ensures i < ENTRIES
  {
    Idx(Prefix(n.level - 1 - o.level, o.key))
  }

  predicate LeafBelow(v: nat, n: Node) {
    Prefix(n.level + 1, v) == n.key
  }

  lemma BelowChild(n: Node, o: Node, i: nat)
    requires n.level > 0 && i < ENTRIES
    ensures Below(o, Child(n, i)) <==> o.level < n.level && Below(o, n) && Branch(n, o) == i
  {
    hide Join, Up, Idx;
    Joins();
  }

  lemma LeafBelowChild(n: Node, v: nat, i: nat)
    requires n.level > 0 && i < ENTRIES
    ensures LeafBelow(v, Child(n, i)) <==> LeafBelow(v, n) && Idx(Prefix(n.level, v)) == i
  {
    hide Join, Up, Idx;
    Joins();
  }

  /** Every node between a table and the root is a table. */
  lemma {:induction false} AncestorIn(t: Space, o: Node, n: Node)
    requires Nested(t) && o in t.tables && Below(o, n) && n.level <= 2
    ensures n in t.tables
    decreases n.level
  {
    if o.level < n.level {
      var below := Node(n.level - 1, Prefix(n.level - 1 - o.level, o.key));
      AncestorIn(t, o, below);
      assert InPlace(t, below);
    } else {
      assert n == o;
    }
  }

  ghost predicate IsBelow(t: Space, n: Node, q: nat) {
    exists o :: o in t.tables && Below(o, n) && t.tables[o] == q
  }

  /** The subtree of n is intact in memory. */
  ghost predicate Intact(m: Memory, lo: nat, free: seq<nat>, t: Space, n: Node) {
    && Nested(t) && Distinct(t) && FreeOk(m, lo, free) && n in t.tables && n.level <= 2
    && forall o :: o in t.tables && Below(o, n) ==> NodeOk(m, t, o) && lo <= t.tables[o] && t.tables[o] !in free
  }

  /** The subtree's table pages were put on the free list; no other page changed. */
  ghost predicate FreedBelow(m0: Memory, free0: seq<nat>, m: Memory, free: seq<nat>, lo: nat, t: Space, n: Node) {
    && |m| == |m0| && FreeOk(m, lo, free)
    && (forall q :: q in free <==> q in free0 || IsBelow(t, n, q))
    && (forall q :: 0 <= q < |m| && !IsBelow(t, n, q) ==> m[q] == m0[q])
  }

  predicate Gone(n: Node, i: nat, o: Node) {
    o.level < n.level && Below(o, n) && Branch(n, o) < i
  }

  ghost predicate IsGone(t: Space, n: Node, i: nat, q: nat) {
    exists o :: o in t.tables && Gone(n, i, o) && t.tables[o] == q
  }

  /** The first i branches of n are freed, its later entries are as they were. */
  ghost predicate Trimmed(m0: Memory, free0: seq<nat>, m: Memory, free: seq<nat>, lo: nat, t: Space, n: Node, i: nat)
    requires n in t.tables
    ensures Trimmed(m0, free0, m, free, lo, t, n, i) ==> TableAt(m, t.tables[n]) && TableAt(m0, t.tables[n])
  {
    && |m| == |m0| && FreeOk(m, lo, free) && TableAt(m, t.tables[n]) && TableAt(m0, t.tables[n])
    && (forall q :: q in free <==> q in free0 || IsGone(t, n, i, q))
    && (forall q :: 0 <= q < |m| && q != t.tables[n] && !IsGone(t, n, i, q) ==> m[q] == m0[q])
    && (forall j: nat :: i <= j < ENTRIES ==> m[t.tables[n]].ptes[j] == m0[t.tables[n]].ptes[j])
  }

  lemma TrimStart(m: Memory, lo: nat, free: seq<nat>, t: Space, n: Node)
    requires Intact(m, lo, free, t, n)
    ensures Nested(t) && Distinct(t) && n in t.tables && n.level <= 2 && lo <= t.tables[n]
    ensures TableAt(m, t.tables[n]) && Trimmed(m, free, m, free, lo, t, n, 0)
  {
    assert Below(n, n) && NodeOk(m, t, n);
  }

  /** An entry without a table below it changes nothing. */
  lemma TrimSkip(m0: Memory, free0: seq<nat>, m: Memory, free: seq<nat>, lo: nat, t: Space, n: Node, i: nat)
    requires Nested(t) && n in t.tables && n.level <= 2 && i < ENTRIES && (n.level > 0 ==> Child(n, i) !in t.tables)
    requires Trimmed(m0, free0, m, free, lo, t, n, i)
    ensures Trimmed(m0, free0, m, free, lo, t, n, i + 1)
  {
    hide Below, Branch, Nested;
    forall o | o in t.tables ensures Gone(n, i + 1, o) <==> Gone(n, i, o) {
      if n.level > 0 {
        BelowChild(n, o, i);
        if Below(o, Child(n, i)) {
          AncestorIn(t, o, Child(n, i));
        }
      }
    }
  }

  /** The branch about to be visited is still intact. */
  lemma TrimNext(m0: Memory, free0: seq<nat>, m: Memory, free: seq<nat>, lo: nat, t: Space, n: Node, i: nat)
    requires Intact(m0, lo, free0, t, n) && Trimmed(m0, free0, m, free, lo, t, n, i)
    requires n.level > 0 && i < ENTRIES && Child(n, i) in t.tables
    ensures Intact(m, lo, free, t, Child(n, i))
  {
    hide Below, Branch, Nested, Join;
    forall o | o in t.tables && Below(o, Child(n, i))
      ensures NodeOk(m, t, o) && lo <= t.tables[o] && t.tables[o] !in free
    {
      BelowChild(n, o, i);
      assert NodeOk(m0, t, o) && o != n;
      assert !IsGone(t, n, i, t.tables[o]);
    }
  }

  /** Freeing branch i and clearing its entry. */
  lemma TrimBranch(m0: Memory, free0: seq<nat>, m: Memory, free: seq<nat>, lo: nat, t: Space, n: Node, i: nat,
                   m1: Memory, free1: seq<nat>)
    requires Intact(m0, lo, free0, t, n) && Trimmed(m0, free0, m, free, lo, t, n, i)
    requires n.level > 0 && i < ENTRIES && Child(n, i) in t.tables && FreedBelow(m, free, m1, free1, lo, t, Child(n, i))
    ensures TableAt(m1, t.tables[n]) && Trimmed(m0, free0, SetEntry(m1, t.tables[n], i, 0), free1, lo, t, n, i + 1)
  {
    hide Below, Branch, Nested, Join, NodeOk;
    BelowChild(n, n, i);
    assert !IsBelow(t, Child(n, i), t.tables[n]);
    var m2 := SetEntry(m1, t.tables[n], i, 0);
    forall q ensures IsGone(t, n, i + 1, q) <==> IsGone(t, n, i, q) || IsBelow(t, Child(n, i), q) {
      GoneStep(t, n, i, q);
    }
  }

  lemma GoneStep(t: Space, n: Node, i: nat, q: nat)
    requires n.level > 0 && i < ENTRIES
    ensures IsGone(t, n, i + 1, q) <==> IsGone(t, n, i, q) || IsBelow(t, Child(n, i), q)
  {
    hide Below, Branch, Join;
    forall o ensures Gone(n, i + 1, o) <==> Gone(n, i, o) || Below(o, Child(n, i)) {
      BelowChild(n, o, i);
    }
  }

  /** After the last entry, only n's own page is left to free. */
  lemma TrimEnd(m0: Memory, free0: seq<nat>, m: Memory, free: seq<nat>, lo: nat, t: Space, n: Node, junk: Page)
    requires Intact(m0, lo, free0, t, n) && Trimmed(m0, free0, m, free, lo, t, n, ENTRIES)
    ensures t.tables[n] < |m| && FreedBelow(m0, free0, m[t.tables[n] := junk], [t.tables[n]] + free, lo, t, n)
  {
    hide Branch, Nested, NodeOk;
    var p := t.tables[n];
    forall q ensures IsBelow(t, n, q) <==> IsGone(t, n, ENTRIES, q) || q == p {
      assert Below(n, n);
      if o :| o in t.tables && Below(o, n) && t.tables[o] == q {
        assert o == n || Gone(n, ENTRIES, o);
      }
    }
    assert !IsGone(t, n, ENTRIES, p);
    PushOk(m, lo, free, p, junk);
  }

  /** The entry i of table n: what it says about tables and leaves below. */
  lemma EntryCases(m: Memory, lo: nat, free: seq<nat>, t: Space, n: Node, i: nat)
    requires Intact(m, lo, free, t, n) && i < ENTRIES
    ensures TableAt(m, t.tables[n])
    ensures
      var pte := m[t.tables[n]].ptes[i];
      && (IsValid(pte) && !IsLeaf(pte) <==> n.level > 0 && Child(n, i) in t.tables)
      && (IsValid(pte) && !IsLeaf(pte) ==> PpnOf(pte) == t.tables[Child(n, i)])
      && (IsValid(pte) && IsLeaf(pte) <==> n.level == 0 && Join(n.key, i) in t.leaf)
  {
    hide Join, MakePte, IsValid, IsLeaf, PpnOf, Idx, Up;
    assert Below(n, n) && NodeOk(m, t, n);
    NullEntry();
    if n.level > 0 && Child(n, i) in t.tables {
      EntryRoundTrip(t.tables[Child(n, i)], PTE_V);
    }
  }

  /** No leaf lies below entry i if there is no table, or no leaf entry, at i. */
  lemma NoLeafAt(t: Space, n: Node, i: nat, v: nat)
    requires Nested(t) && n.level <= 2 && i < ENTRIES && v in t.leaf && LeafBelow(v, n) && Idx(Prefix(n.level, v)) == i
    ensures if n.level > 0 then Child(n, i) in t.tables else v == Join(n.key, i)
  {
    hide Join, Up, Idx, IsValid, IsLeaf;
    Joins();
    if n.level > 0 && Child(n, i) !in t.tables {
      assert OnPath(n.level - 1, v) == Child(n, i);
      Unreached(t, n.level - 1, v);
    }
  }

  lemma AllBelowRoot(t: Space, n: Node)
    requires Nested(t) && n in t.tables
    ensures Below(n, ROOT)
  {
    assert InPlace(t, n);
    if n.level == 0 {
      assert InPlace(t, Parent(n));
      assert Prefix(2, n.key) == Up(Prefix(1, n.key)) && Prefix(1, n.key) == Up(Prefix(0, n.key));
    } else if n.level == 1 {
      assert Prefix(1, n.key) == Up(Prefix(0, n.key));
    }
  }

  /** Freeing from the root frees every table, once no leaf entry is left. */
  lemma WholeTree(m: Memory, lo: nat, free: seq<nat>, t: Space)
    requires Proper(m, lo, free, t)
    ensures Intact(m, lo, free, t, ROOT)
    ensures forall q :: IsBelow(t, ROOT, q) <==> IsTable(t, q)
    ensures forall v :: v in t.leaf ==> LeafBelow(v, ROOT)
  {
    hide Nested, NodeOk, Prefix, LeafBelow, Below;
    forall n | n in t.tables ensures Below(n, ROOT) {
      AllBelowRoot(t, n);
    }
    forall v | v in t.leaf ensures LeafBelow(v, ROOT) {
      LeafBelowRoot(t, v);
    }
  }

  lemma LeafBelowRoot(t: Space, v: nat)
    requires Nested(t) && v in t.leaf
    ensures LeafBelow(v, ROOT)
  {
    LeafBound(t, v);
    PxSplits(2, v);
  }

  /** With no user page left, freeing every table leaves everything free. */
  lemma AllFreed(m0: Memory, free0: seq<nat>, m: Memory, free: seq<nat>, lo: nat, t: Space)
    requires FreedBelow(m0, free0, m, free, lo, t, ROOT) && t.leaf == map[]
    requires forall q :: IsBelow(t, ROOT, q) <==> IsTable(t, q)
    ensures FreeOk(m, lo, free) && EverythingFree(m0, free0, t, m, free)
  {
  }

  /** All that was free or in use by t is free, and no other page was touched. */
  ghost predicate EverythingFree(m0: Memory, free0: seq<nat>, t: Space, m: Memory, free: seq<nat>) {
    && |m| == |m0|
    && (forall q :: q in free <==> Held(free0, t, q))
    && (forall q :: 0 <= q < |m| && !Held(free0, t, q) ==> m[q] == m0[q])
  }

  lemma EverythingFreeAfter(m: Memory, free: seq<nat>, t: Space, m1: Memory, free1: seq<nat>, t1: Space, m2: Memory,
                            free2: seq<nat>)
    requires Conserves(m, free, t, m1, free1, t1) && EverythingFree(m1, free1, t1, m2, free2)
    ensures EverythingFree(m, free, t, m2, free2)
  {
  }
}
