/**
 Who owns each physical page: the free list, the tables of an address space, or its user
 memory. Proper says that memory and free list fit an address space, UserOk that its user
 pages are its own, and the lemmas say what a single change of memory does to both.
 */
module PageOwnership {

  import opened Sv39

  const TRAMPOLINE := MAXVPN - 1
  const TRAPFRAME := MAXVPN - 2
  const USERTOP := TRAPFRAME

  /** No page is listed twice, and every listed page belongs to the allocator. */
  ghost predicate FreeOk(m: Memory, lo: nat, free: seq<nat>) {
    && (forall i :: 0 <= i < |free| ==> lo <= free[i] < |m|)
    && (forall i, j :: 0 <= i < j < |free| ==> free[i] != free[j])
  }

  lemma PushOk(m: Memory, lo: nat, free: seq<nat>, p: nat, page: Page)
    requires FreeOk(m, lo, free) && lo <= p < |m| && p !in free
    ensures FreeOk(m[p := page], lo, [p] + free)
  {
  }

  /** Memory stands for t, and its tables are allocator pages that are not free. */
  ghost predicate Proper(m: Memory, lo: nat, free: seq<nat>, t: Space)
    ensures Proper(m, lo, free, t) ==> FreeOk(m, lo, free) && Represents(m, t)
  {
    && FreeOk(m, lo, free) && Represents(m, t)
    && forall n :: n in t.tables ==> lo <= t.tables[n] < |m| && t.tables[n] !in free
  }

  predicate IsUserLeaf(t: Space, v: nat) {
    v in t.leaf && v < USERTOP
  }

  function PageOf(t: Space, v: nat): nat
    requires v in t.leaf
  {
    PpnOf(t.leaf[v])
  }

  predicate DataAt(m: Memory, p: nat) {
    p < |m| && m[p].Data? && |m[p].bytes| == PGSIZE
  }

  /** Each user page is mapped once, and is neither free nor a table. */
  ghost predicate UserOk(m: Memory, lo: nat, free: seq<nat>, t: Space) {
    && (forall v :: IsUserLeaf(t, v) ==>
          lo <= PageOf(t, v) && DataAt(m, PageOf(t, v)) && PageOf(t, v) !in free && !IsTable(t, PageOf(t, v)))
    && (forall v, w :: IsUserLeaf(t, v) && IsUserLeaf(t, w) && PageOf(t, v) == PageOf(t, w) ==> v == w)
  }

  ghost predicate IsUserPage(t: Space, p: nat) {
    exists v :: IsUserLeaf(t, v) && PageOf(t, v) == p
  }

  /** p is free, or in use by the address space t. */
  ghost predicate Held(free: seq<nat>, t: Space, p: nat) {
    p in free || IsTable(t, p) || IsUserPage(t, p)
  }

  /** No page is lost or gained, and no page of anyone else is touched. */
  ghost predicate Conserves(m: Memory, free: seq<nat>, t: Space, m': Memory, free': seq<nat>, t': Space)
    ensures Conserves(m, free, t, m', free', t') ==> |m'| == |m|
  {
    && |m'| == |m|
    && (forall p :: Held(free', t', p) <==> Held(free, t, p))
    && (forall p :: 0 <= p < |m| && !Held(free, t, p) ==> m'[p] == m[p])
  }

  /** Free pages became tables; nothing else in memory but free pages and tables changed. */
  ghost predicate TablesGrew(m: Memory, free: seq<nat>, t: Space, m': Memory, free': seq<nat>, t': Space) {
    && |m'| == |m|
    && (forall p :: p in free' ==> p in free)
    && (forall p :: p in free' || IsTable(t', p) <==> p in free || IsTable(t, p))
    && (forall n :: n in t.tables ==> n in t'.tables && t'.tables[n] == t.tables[n])
    && (forall p :: 0 <= p < |m| && p !in free && !IsTable(t, p) ==> m'[p] == m[p])
  }

  lemma TablesGrewAgain(m: Memory, free: seq<nat>, t: Space, m1: Memory, free1: seq<nat>, t1: Space, m2: Memory,
                        free2: seq<nat>, t2: Space)
    requires TablesGrew(m, free, t, m1, free1, t1) && TablesGrew(m1, free1, t1, m2, free2, t2)
    ensures TablesGrew(m, free, t, m2, free2, t2)
  {
  }

  // ---------- tables ----------

  /** The head of the free list, zeroed, becomes the table of node n. */
  lemma TakeTable(m: Memory, lo: nat, free: seq<nat>, t: Space, n: Node)
    requires Proper(m, lo, free, t) && |free| > 0 && n !in t.tables && n.level < 2 && InPlace(t, n)
    ensures TableAt(m[free[0] := ZeroTable()], t.tables[Parent(n)])
    ensures
      var m' := SetEntry(m[free[0] := ZeroTable()], t.tables[Parent(n)], Idx(n.key), MakePte(free[0], PTE_V));
      var t' := t.(tables := t.tables[n := free[0]]);
      Proper(m', lo, free[1..], t') && TablesGrew(m, free, t, m', free[1..], t')
  {
    hide Represents, Nested, Distinct, MakePte, Idx, Up;
    var p, rest := free[0], free[1..];
    assert free == [p] + rest;
    var m1 := m[p := ZeroTable()];
    FrameTables(m, m1, t);
    AddTable(m1, t, n, p);
    var t' := t.(tables := t.tables[n := p]);
    assert t'.tables[n] == p;
    forall q ensures IsTable(t', q) <==> IsTable(t, q) || q == p {
      if IsTable(t, q) {
        var o :| o in t.tables && t.tables[o] == q;
        assert o in t'.tables && t'.tables[o] == q;
      }
    }
    assert IsTable(t, t.tables[Parent(n)]);
  }

  /** Writing the leaf entry of v changes that page of the map and one table page. */
  lemma WriteLeaf(m: Memory, lo: nat, free: seq<nat>, t: Space, v: nat, pte: nat)
    requires Proper(m, lo, free, t) && Node(0, Up(v)) in t.tables && (pte == 0 || (IsValid(pte) && IsLeaf(pte)))
    ensures TableAt(m, t.tables[Node(0, Up(v))])
    ensures
      var m' := SetEntry(m, t.tables[Node(0, Up(v))], Idx(v), pte);
      var t' := t.(leaf := if pte == 0 then t.leaf - {v} else t.leaf[v := pte]);
      Proper(m', lo, free, t') && TablesGrew(m, free, t, m', free, t')
  {
    hide Represents, Nested, Distinct, IsValid, IsLeaf, Idx, Up;
    SetLeaf(m, t, v, pte);
    var t' := t.(leaf := if pte == 0 then t.leaf - {v} else t.leaf[v := pte]);
    assert forall q :: IsTable(t', q) <==> IsTable(t, q);
    assert IsTable(t, t.tables[Node(0, Up(v))]);
  }

  // ---------- user pages ----------

  ghost predicate SameUserLeaves(t: Space, t': Space) {
    forall v :: (IsUserLeaf(t', v) <==> IsUserLeaf(t, v)) && (IsUserLeaf(t, v) ==> t'.leaf[v] == t.leaf[v])
  }

  /** The bytes of t's user pages are as they were. */
  ghost predicate SameUserBytes(m: Memory, t: Space, m': Memory) {
    forall v :: IsUserLeaf(t, v) && PageOf(t, v) < |m| ==> PageOf(t, v) < |m'| && m'[PageOf(t, v)] == m[PageOf(t, v)]
  }

  /** Growing tables keeps the user pages, and conserves pages. */
  lemma UserKept(m: Memory, lo: nat, free: seq<nat>, t: Space, m': Memory, free': seq<nat>, t': Space)
    requires UserOk(m, lo, free, t) && TablesGrew(m, free, t, m', free', t') && SameUserLeaves(t, t')
    ensures UserOk(m', lo, free', t') && Conserves(m, free, t, m', free', t') && SameUserBytes(m, t, m')
  {
    assert forall v :: IsUserLeaf(t, v) ==> PageOf(t', v) == PageOf(t, v);
    forall p ensures IsUserPage(t', p) <==> IsUserPage(t, p) {
      if v :| IsUserLeaf(t, v) && PageOf(t, v) == p {
        assert IsUserLeaf(t', v) && PageOf(t', v) == p;
      }
      if v :| IsUserLeaf(t', v) && PageOf(t', v) == p {
        assert IsUserLeaf(t, v) && PageOf(t, v) == p;
      }
    }
  }

  lemma ConservesAgain(m: Memory, free: seq<nat>, t: Space, m1: Memory, free1: seq<nat>, t1: Space, m2: Memory,
                       free2: seq<nat>, t2: Space)
    requires Conserves(m, free, t, m1, free1, t1) && Conserves(m1, free1, t1, m2, free2, t2)
    ensures Conserves(m, free, t, m2, free2, t2)
  {
  }

  /** Doing nothing grows no tables, loses no page and changes no byte. */
  lemma Standstill(m: Memory, free: seq<nat>, t: Space)
    ensures TablesGrew(m, free, t, m, free, t) && Conserves(m, free, t, m, free, t) && SameUserBytes(m, t, m)
  {
  }

  /** uvmunmap with do_free: the page of v is pushed, then its entry is cleared. */
  lemma FreeUser(m: Memory, lo: nat, free: seq<nat>, t: Space, v: nat, junk: Page)
    requires Proper(m, lo, free, t) && UserOk(m, lo, free, t) && IsUserLeaf(t, v) && Node(0, Up(v)) in t.tables
    ensures TableAt(m[PageOf(t, v) := junk], t.tables[Node(0, Up(v))])
    ensures
      var m1 := m[PageOf(t, v) := junk];
      var m' := SetEntry(m1, t.tables[Node(0, Up(v))], Idx(v), 0);
      var free', t' := [PageOf(t, v)] + free, t.(leaf := t.leaf - {v});
      && Proper(m', lo, free', t') && UserOk(m', lo, free', t') && Conserves(m, free, t, m', free', t')
      && SameUserBytes(m, t', m')
  {
    hide Proper, PageOf, UserOk, Conserves, TablesGrew, SameUserBytes, Idx, Up, Represents;
    var p := PageOf(t, v);
    assert lo <= p && DataAt(m, p) && p !in free && !IsTable(t, p) by { UserPageFacts(m, lo, free, t, v); }
    PushFree(m, lo, free, t, p, junk);
    var m1, free', t' := m[p := junk], [p] + free, t.(leaf := t.leaf - {v});
    TakeUser(m, lo, free, t, v, junk, t');
    WriteLeaf(m1, lo, free', t, v, 0);
    var m' := SetEntry(m1, t.tables[Node(0, Up(v))], Idx(v), 0);
    SameTablesGrew(m1, free', t, t', m', free', t');
    UserKept(m1, lo, free', t', m', free', t');
    ConservesAgain(m, free, t, m1, free', t', m', free', t');
    SameUserBytesAgain(m, t', m1, t', m');
  }

  lemma UserPageFacts(m: Memory, lo: nat, free: seq<nat>, t: Space, v: nat)
    requires UserOk(m, lo, free, t) && IsUserLeaf(t, v)
    ensures lo <= PageOf(t, v) && DataAt(m, PageOf(t, v)) && PageOf(t, v) !in free && !IsTable(t, PageOf(t, v))
  {
  }

  lemma SameTablesGrew(m: Memory, free: seq<nat>, t: Space, s: Space, m': Memory, free': seq<nat>, t': Space)
    requires TablesGrew(m, free, t, m', free', t') && s.tables == t.tables
    ensures TablesGrew(m, free, s, m', free', t')
  {
    assert forall p :: IsTable(s, p) <==> IsTable(t, p);
  }

  /** A page of nobody's becomes the user page of v. */
  lemma GiveUser(m: Memory, lo: nat, free: seq<nat>, t: Space, v: nat, pte: nat, t': Space)
    requires UserOk(m, lo, free, t) && v !in t.leaf && v < USERTOP && t' == t.(leaf := t.leaf[v := pte])
    requires lo <= PpnOf(pte) && DataAt(m, PpnOf(pte)) && !Held(free, t, PpnOf(pte))
    ensures UserOk(m, lo, free, t')
    ensures forall p :: Held(free, t', p) <==> Held(free, t, p) || p == PpnOf(pte)
  {
    hide PpnOf;
    assert forall p :: IsTable(t', p) <==> IsTable(t, p);
    assert forall w :: IsUserLeaf(t, w) ==> IsUserPage(t, PageOf(t, w));
    assert forall w :: IsUserLeaf(t', w) ==> w == v || (IsUserLeaf(t, w) && PageOf(t', w) == PageOf(t, w));
    forall p ensures IsUserPage(t', p) <==> IsUserPage(t, p) || p == PpnOf(pte) {
      assert IsUserLeaf(t', v) && PageOf(t', v) == PpnOf(pte);
      if IsUserPage(t, p) {
        var w :| IsUserLeaf(t, w) && PageOf(t, w) == p;
        assert IsUserLeaf(t', w) && PageOf(t', w) == p;
      }
    }
  }

  /** The user page of v goes back to the free list. */
  lemma TakeUser(m: Memory, lo: nat, free: seq<nat>, t: Space, v: nat, junk: Page, t': Space)
    requires UserOk(m, lo, free, t) && IsUserLeaf(t, v) && t' == t.(leaf := t.leaf - {v})
    ensures
      var p := PageOf(t, v);
      && UserOk(m[p := junk], lo, [p] + free, t') && Conserves(m, free, t, m[p := junk], [p] + free, t')
      && SameUserBytes(m, t', m[p := junk])
  {
    hide PpnOf;
    var q, free' := PageOf(t, v), [PageOf(t, v)] + free;
    assert forall p :: IsTable(t', p) <==> IsTable(t, p);
    assert forall w :: IsUserLeaf(t', w) <==> IsUserLeaf(t, w) && w != v;
    assert forall w :: IsUserLeaf(t', w) ==> PageOf(t', w) == PageOf(t, w) && PageOf(t, w) != q;
    assert forall p :: p in free' <==> p == q || p in free;
    forall p ensures IsUserPage(t, p) <==> IsUserPage(t', p) || p == q {
      if IsUserPage(t, p) && p != q {
        var w :| IsUserLeaf(t, w) && PageOf(t, w) == p;
        assert IsUserLeaf(t', w) && PageOf(t', w) == p;
      }
      if IsUserPage(t', p) {
        var w :| IsUserLeaf(t', w) && PageOf(t', w) == p;
        assert IsUserLeaf(t, w) && PageOf(t, w) == p;
      }
    }
    assert IsUserPage(t, q);
  }

  /** Pushing a page that is neither free nor a table keeps the tables. */
  lemma PushFree(m: Memory, lo: nat, free: seq<nat>, t: Space, p: nat, junk: Page)
    requires Proper(m, lo, free, t) && lo <= p < |m| && p !in free && !IsTable(t, p)
    ensures Proper(m[p := junk], lo, [p] + free, t)
  {
    hide Represents, Nested, Distinct;
    FrameTables(m, m[p := junk], t);
    assert forall n :: n in t.tables ==> IsTable(t, t.tables[n]);
  }

  // ---------- a page in hand ----------

  /** Since (m, free, t), page p has been taken in hand and nothing else was lost or gained. */
  ghost predicate InHand(m: Memory, free: seq<nat>, t: Space, p: nat, m': Memory, free': seq<nat>, t': Space) {
    && |m'| == |m| && !Held(free', t', p)
    && (forall q :: Held(free', t', q) || q == p <==> Held(free, t, q))
    && (forall q :: 0 <= q < |m| && !Held(free, t, q) ==> m'[q] == m[q])
  }

  lemma PopFree(m: Memory, lo: nat, free: seq<nat>, t: Space, page: Page)
    requires Proper(m, lo, free, t) && UserOk(m, lo, free, t) && |free| > 0
    ensures
      var p, m', free' := free[0], m[free[0] := page], free[1..];
      && Proper(m', lo, free', t) && UserOk(m', lo, free', t) && InHand(m, free, t, p, m', free', t)
      && SameUserBytes(m, t, m')
  {
    hide Represents, Nested, Distinct, PageOf;
    var p, free' := free[0], free[1..];
    assert free == [p] + free';
    assert forall n :: n in t.tables ==> t.tables[n] !in free;
    FrameTables(m, m[p := page], t);
    assert !IsUserPage(t, p);
  }

  lemma StillInHand(m: Memory, free: seq<nat>, t: Space, p: nat, m1: Memory, free1: seq<nat>, t1: Space, m2: Memory,
                    free2: seq<nat>, t2: Space)
    requires InHand(m, free, t, p, m1, free1, t1) && Conserves(m1, free1, t1, m2, free2, t2)
    ensures InHand(m, free, t, p, m2, free2, t2) && (p < |m1| ==> m2[p] == m1[p])
  {
  }

  /** Putting the page in hand back restores every page's owner. */
  lemma PutBack(m: Memory, lo: nat, free: seq<nat>, t: Space, p: nat, m': Memory, free': seq<nat>, t': Space,
                junk: Page)
    requires InHand(m, free, t, p, m', free', t') && Proper(m', lo, free', t') && UserOk(m', lo, free', t')
    requires lo <= p < |m|
    ensures Proper(m'[p := junk], lo, [p] + free', t') && UserOk(m'[p := junk], lo, [p] + free', t')
    ensures Conserves(m, free, t, m'[p := junk], [p] + free', t')
    ensures SameUserBytes(m', t', m'[p := junk])
  {
    hide Represents, Nested, Distinct, PageOf;
    PushFree(m', lo, free', t', p, junk);
    assert forall v :: IsUserLeaf(t', v) ==> IsUserPage(t', PageOf(t', v));
    assert forall q :: Held([p] + free', t', q) <==> Held(free', t', q) || q == p;
  }

  lemma SameUserBytesAgain(m: Memory, t: Space, m1: Memory, t1: Space, m2: Memory)
    requires SameUserBytes(m, t, m1) && SameUserBytes(m1, t1, m2)
    requires forall v :: IsUserLeaf(t, v) ==> IsUserLeaf(t1, v) && t1.leaf[v] == t.leaf[v]
    ensures SameUserBytes(m, t, m2)
  {
    assert forall v :: IsUserLeaf(t, v) ==> PageOf(t1, v) == PageOf(t, v);
  }
}
