/**
 The page allocator and the page-table code. Every method carries the flat view of the
 address space it works on as a ghost argument and returns the view afterwards; its contract
 says what became of the flat map, of the free list and of the pages of others.
 */
module VirtualMemory {

  import opened Params
  import opened Sv39
  import opened PageOwnership
  import opened Teardown

  /** Panic stands for a call of panic(); the state of memory is then of no interest. */
  datatype Outcome = Done | Null | Panic

  function Filled(b: Byte): (p: Page)
    ensures p.Data? && |p.bytes| == PGSIZE && forall i :: 0 <= i < PGSIZE ==> p.bytes[i] == b
  {
    Data(seq(PGSIZE, i => b))
  }

  function PageUp(size: nat): nat {
    (size + PGSIZE - 1) / PGSIZE
  }

  /** leaf with n pages from first mapped to n pages from ppn. */
  function Mapped(leaf: map<nat, nat>, first: nat, n: nat, ppn: nat, flags: nat): (r: map<nat, nat>)
    ensures forall v :: v in r <==> v in leaf || first <= v < first + n
    ensures forall v: nat :: v in r ==>
      r[v] == if first <= v < first + n then MakePte(ppn + (v - first), flags) else leaf[v]
  {
    if n == 0 then leaf
    else Mapped(leaf, first, n - 1, ppn, flags)[first + n - 1 := MakePte(ppn + n - 1, flags)]
  }

  /** The leaf entries of a page table before there is user memory. */
  function SystemPages(trampoline: nat, trapframe: nat): map<nat, nat> {
    map[TRAMPOLINE := MakePte(trampoline, PTE_V + PTE_R + PTE_X),
        TRAPFRAME := MakePte(trapframe, PTE_V + PTE_R + PTE_W)]
  }

  lemma MappedNone(leaf: map<nat, nat>, first: nat, ppn: nat, flags: nat)
    ensures Mapped(leaf, first, 0, ppn, flags) == leaf
  {
  }

  lemma MappedNext(leaf: map<nat, nat>, first: nat, n: nat, ppn: nat, flags: nat)
    ensures first + n in Mapped(leaf, first, n, ppn, flags) <==> first + n in leaf
    ensures Mapped(leaf, first, n + 1, ppn, flags)
            == Mapped(leaf, first, n, ppn, flags)[first + n := MakePte(ppn + n, flags)]
  {
  }

  /** leaf without the n pages from first. */
  function Unmapped(leaf: map<nat, nat>, first: nat, n: nat): (r: map<nat, nat>)
    ensures forall v :: v in r <==> v in leaf && !(first <= v < first + n)
    ensures forall v :: v in r ==> r[v] == leaf[v]
  {
    if n == 0 then leaf else Unmapped(leaf, first, n - 1) - {first + n - 1}
  }

  /** Since (m, free, t) a step for the space kept the old user pages, and lost no page. */
  ghost predicate Gave(m: Memory, free: seq<nat>, t: Space, m': Memory, lo: nat, free': seq<nat>, t': Space, root: nat)
    ensures Gave(m, free, t, m', lo, free', t', root) ==> Proper(m', lo, free', t') && UserOk(m', lo, free', t')
    ensures Gave(m, free, t, m', lo, free', t', root) ==> ROOT in t'.tables && root == t'.tables[ROOT]
    ensures Gave(m, free, t, m', lo, free', t', root) ==>
      Conserves(m, free, t, m', free', t') && SameUserBytes(m, t, m')
  {
    && Proper(m', lo, free', t') && UserOk(m', lo, free', t') && ROOT in t'.tables && root == t'.tables[ROOT]
    && Conserves(m, free, t, m', free', t') && SameUserBytes(m, t, m')
  }

  /** A page from first on, below the two system pages, is not mapped. */
  ghost predicate MissesUserPage(t: Space, first: nat) {
    exists v :: first <= v < USERTOP && v !in t.leaf
  }

  class Kernel {

    const lo: nat
    var pages: Memory
    var free: seq<nat>

    /** kinit: every whole page from the end of the kernel on goes on the free list. */
    constructor (end: nat, top: nat)
      requires 0 < end <= top
      ensures lo == end && |pages| == top && FreeOk(pages, lo, free)
      ensures forall p :: p in free <==> end <= p < top
    {
      lo := end;
      pages := seq(top, i => Filled(0));
      free := [];
      new;
      var p := end;
      while p < top
        invariant end <= p <= top && |pages| == top && lo == end && FreeOk(pages, lo, free)
        invariant forall q :: q in free <==> end <= q < p
      {
        PushOk(pages, lo, free, p, Filled(1));
        var ok := Kfree(p);
        p := p + 1;
      }
    }

    /** Pushes p on the free list; panics for a page outside the allocator's range. */
    method Kfree(p: nat) returns (ok: bool)
      modifies this
      ensures ok <==> lo <= p < old(|pages|)
      ensures pages == (if ok then old(pages)[p := Filled(1)] else old(pages))
      ensures free == (if ok then [p] + old(free) else old(free))
    {
      if p < lo || p >= |pages| {
        return false;
      }
      pages := pages[p := Filled(1)];
      free := [p] + free;
      return true;
    }

    /** Pops the free list, 0 if it is empty. */
    method Kalloc() returns (p: nat)
      requires 0 < lo && FreeOk(pages, lo, free)
      modifies this
      ensures FreeOk(pages, lo, free) && |pages| == old(|pages|)
      ensures old(free) == [] ==> p == 0 && free == [] && pages == old(pages)
      ensures old(free) != [] ==>
        p == old(free)[0] >= lo && free == old(free)[1..] && pages == old(pages)[p := Filled(5)]
    {
      if free == [] {
        return 0;
      }
      p := free[0];
      free := free[1..];
      pages := pages[p := Filled(5)];
    }

    /** The allocating branch of walk: a fresh zeroed table for node n, entered in its parent table. */
    method AllocTable(parent: nat, i: nat, ghost t: Space, ghost n: Node) returns (p: nat, ghost t': Space)
      requires 0 < lo && Proper(pages, lo, free, t) && n !in t.tables && n.level < 2 && InPlace(t, n)
      requires parent == t.tables[Parent(n)] && i == Idx(n.key)
      modifies this
      ensures Proper(pages, lo, free, t') && TablesGrew(old(pages), old(free), t, pages, free, t') && t'.leaf == t.leaf
      ensures p == 0 ==> t' == t && free == [] == old(free)
      ensures |free| <= |old(free)| <= |free| + 1
      ensures p != 0 ==> t'.tables == t.tables[n := p]
    {
      hide Proper, Represents, Nested, Distinct, InPlace, Idx, MakePte, TablesGrew;
      p := Kalloc();
      t' := t;
      if p == 0 {
        Standstill(pages, free, t);
        return;
      }
      TakeTable(old(pages), lo, old(free), t, n);
      pages := pages[p := ZeroTable()];
      assert pages == old(pages)[p := ZeroTable()];
      pages := SetEntry(pages, parent, i, MakePte(p, PTE_V));
      t' := t.(tables := t.tables[n := p]);
    }

    /** The table that holds the entry of page v, found or (with alloc) made on the way. */
    method Walk(root: nat, v: nat, alloc: bool, ghost t: Space) returns (o: Outcome, p: nat, ghost t': Space)
      requires 0 < lo && Proper(pages, lo, free, t) && root == t.tables[ROOT]
      modifies this
      ensures Proper(pages, lo, free, t') && TablesGrew(old(pages), old(free), t, pages, free, t') && t'.leaf == t.leaf
      ensures o.Panic? <==> v >= MAXVPN
      ensures o.Done? ==> Node(0, Up(v)) in t'.tables && p == t'.tables[Node(0, Up(v))]
      ensures o.Null? ==> v !in t.leaf && (alloc ==> free == [])
      ensures |free| <= |old(free)| <= |free| + 2 && (o.Null? && alloc ==> |old(free)| < 2)
      ensures !alloc ==> t' == t && pages == old(pages) && free == old(free)
    {
      hide Proper, Represents, Nested, Distinct, Idx, Up, MakePte, PpnOf, IsValid, TablesGrew, Px;
      t' := t;
      Standstill(pages, free, t);
      if v >= MAXVPN {
        return Panic, 0, t;
      }
      p := root;
      PathEnds(v);
      var level := 2;
      while level > 0
        invariant 0 <= level <= 2
        invariant Proper(pages, lo, free, t') && TablesGrew(old(pages), old(free), t, pages, free, t')
        invariant t'.leaf == t.leaf
        invariant OnPath(level, v) in t'.tables && p == t'.tables[OnPath(level, v)]
        invariant !alloc ==> t' == t && pages == old(pages) && free == old(free)
        invariant |free| <= |old(free)| <= |free| + 2 - level
      {
        PathEntry(pages, t', level, v);
        var pte := pages[p].ptes[Px(level, v)];
        PathStep(t', level, v);
        if IsValid(pte) {
          p := PpnOf(pte);
        } else if !alloc {
          return Null, 0, t;
        } else {
          ghost var m, fr, s := pages, free, t';
          p, t' := AllocTable(p, Px(level, v), t', OnPath(level - 1, v));
          TablesGrewAgain(old(pages), old(free), t, m, fr, s, pages, free, t');
          if p == 0 {
            return Null, 0, t';
          }
        }
        level := level - 1;
      }
      o := Done;
    }

    /** The page that user address v maps to, 0 if it is not mapped for user mode. */
    method Walkaddr(root: nat, v: nat, ghost t: Space) returns (p: nat)
      requires 0 < lo && Proper(pages, lo, free, t) && root == t.tables[ROOT]
      modifies this
      ensures pages == old(pages) && free == old(free)
      ensures p == if v < MAXVPN && v in t.leaf && IsUser(t.leaf[v]) then PageOf(t, v) else 0
    {
      hide Proper, Represents, Nested, Distinct, Idx, Up, PpnOf, IsValid, TablesGrew, Px, IsUser, FlagsOf;
      if v >= MAXVPN {
        return 0;
      }
      var o, table, _ := Walk(root, v, false, t);
      if o.Null? {
        return 0;
      }
      LeafEntry(pages, t, v);
      var pte := pages[table].ptes[Px(0, v)];
      if !IsValid(pte) || !IsUser(pte) {
        return 0;
      }
      return PpnOf(pte);
    }

    /** One round of mappages: the entry of page v is written, unless it was valid. */
    method MapOne(root: nat, v: nat, ppn: nat, perm: nat, ghost t: Space) returns (o: Outcome, ghost t': Space)
      requires 0 < lo && Proper(pages, lo, free, t) && root == t.tables[ROOT] && perm < 1024 && perm / 2 % 8 != 0
      modifies this
      ensures Proper(pages, lo, free, t') && TablesGrew(old(pages), old(free), t, pages, free, t')
      ensures t'.leaf == if o.Done? then t.leaf[v := MakePte(ppn, WithValid(perm))] else t.leaf
      ensures o.Panic? <==> v >= MAXVPN || v in t.leaf
      ensures |free| <= |old(free)| <= |free| + 2 && (o.Null? ==> free == [] && |old(free)| < 2)
    {
      hide Proper, Represents, Nested, Distinct, Idx, Up, MakePte;
      hide PpnOf, IsValid, IsLeaf, TablesGrew, Px, WithValid, FlagsOf;
      var table;
      o, table, t' := Walk(root, v, true, t);
      if !o.Done? {
        return;
      }
      LeafEntry(pages, t', v);
      if IsValid(pages[table].ptes[Px(0, v)]) {
        return Panic, t';
      }
      NewEntry(ppn, perm);
      ghost var m, s := pages, t';
      WriteLeaf(pages, lo, free, t', v, MakePte(ppn, WithValid(perm)));
      pages := SetEntry(pages, table, Px(0, v), MakePte(ppn, WithValid(perm)));
      t' := t'.(leaf := t'.leaf[v := MakePte(ppn, WithValid(perm))]);
      TablesGrewAgain(old(pages), old(free), t, m, free, s, pages, free, t');
    }

    /** The loop of mappages: pages first .. last, in order, go to the pages from ppn on; done counts those mapped. */
    method MapRange(root: nat, first: nat, last: nat, ppn: nat, perm: nat, ghost t: Space)
      returns (o: Outcome, ghost t': Space, ghost done: nat)
      requires 0 < lo && Proper(pages, lo, free, t) && root == t.tables[ROOT] && perm < 1024 && perm / 2 % 8 != 0
      requires first <= last
      modifies this
      ensures Proper(pages, lo, free, t') && TablesGrew(old(pages), old(free), t, pages, free, t')
      ensures t'.leaf == Mapped(t.leaf, first, done, ppn, WithValid(perm))
      ensures (forall v :: first <= v < first + done ==> v !in t.leaf) && (done > 0 ==> first + done <= MAXVPN)
      ensures done <= last - first + 1 && (o.Done? <==> done == last - first + 1)
      ensures |free| <= |old(free)| <= |free| + 2 * (done + 1) && (o.Done? ==> |old(free)| <= |free| + 2 * done)
      ensures o.Null? ==> free == [] && |old(free)| < 2 * (done + 1)
      ensures !o.Done? ==> (o.Panic? <==> first + done >= MAXVPN || first + done in t.leaf)
    {
      hide Proper, Represents, Nested, Distinct, MakePte, TablesGrew, WithValid, Mapped;
      t', done := t, 0;
      MappedNone(t.leaf, first, ppn, WithValid(perm));
      Standstill(pages, free, t);
      var a := first;
      while true
        invariant a == first + done && a <= last
        invariant Proper(pages, lo, free, t') && TablesGrew(old(pages), old(free), t, pages, free, t')
        invariant root == t'.tables[ROOT]
        invariant t'.leaf == Mapped(t.leaf, first, done, ppn, WithValid(perm))
        invariant (forall v :: first <= v < a ==> v !in t.leaf) && (done > 0 ==> a <= MAXVPN)
        invariant |free| <= |old(free)| <= |free| + 2 * done
        decreases last - a
      {
        ghost var m, fr, s := pages, free, t';
        MappedNext(t.leaf, first, done, ppn, WithValid(perm));
        o, t' := MapOne(root, a, ppn + (a - first), perm, t');
        TablesGrewAgain(old(pages), old(free), t, m, fr, s, pages, free, t');
        if !o.Done? {
          return;
        }
        done := done + 1;
        if a == last {
          break;
        }
        SameRoot(m, fr, s, pages, free, t');
        a := a + 1;
      }
    }

    /** Maps the pages that hold va .. va + size - 1; it panics for a size of 0 or at a page that is mapped already. */
    method Mappages(root: nat, va: nat, size: nat, pa: nat, perm: nat, ghost t: Space)
      returns (o: Outcome, ghost t': Space, ghost done: nat)
      requires 0 < lo && Proper(pages, lo, free, t) && root == t.tables[ROOT] && perm < 1024 && perm / 2 % 8 != 0
      modifies this
      ensures Proper(pages, lo, free, t') && TablesGrew(old(pages), old(free), t, pages, free, t')
      ensures t'.leaf == Mapped(t.leaf, va / PGSIZE, done, pa / PGSIZE, WithValid(perm))
      ensures forall v :: va / PGSIZE <= v < va / PGSIZE + done ==> v !in t.leaf
      ensures done > 0 ==> va / PGSIZE + done <= MAXVPN
      ensures size == 0 ==> o.Panic? && done == 0
      ensures size > 0 ==> done <= (va + size - 1) / PGSIZE - va / PGSIZE + 1
      ensures size > 0 ==> (o.Done? <==> done == (va + size - 1) / PGSIZE - va / PGSIZE + 1)
      ensures |free| <= |old(free)| <= |free| + 2 * (done + 1) && (o.Done? ==> |old(free)| <= |free| + 2 * done)
      ensures o.Null? ==> free == [] && |old(free)| < 2 * (done + 1)
      ensures size > 0 && !o.Done? ==> (o.Panic? <==> va / PGSIZE + done >= MAXVPN || va / PGSIZE + done in t.leaf)
    {
      hide Proper, Represents, Nested, Distinct, MakePte, TablesGrew, WithValid;
      if size == 0 {
        Standstill(pages, free, t);
        return Panic, t, 0;
      }
      o, t', done := MapRange(root, va / PGSIZE, (va + size - 1) / PGSIZE, pa / PGSIZE, perm, t);
    }

    /** mappages for one whole page, as most callers use it. */
    method MapPage(root: nat, v: nat, ppn: nat, perm: nat, ghost t: Space) returns (o: Outcome, ghost t': Space)
      requires 0 < lo && Proper(pages, lo, free, t) && root == t.tables[ROOT] && perm < 1024 && perm / 2 % 8 != 0
      modifies this
      ensures Proper(pages, lo, free, t') && TablesGrew(old(pages), old(free), t, pages, free, t')
      ensures ROOT in t'.tables && root == t'.tables[ROOT]
      ensures t'.leaf == if o.Done? then t.leaf[v := MakePte(ppn, WithValid(perm))] else t.leaf
      ensures o.Panic? <==> v >= MAXVPN || v in t.leaf
      ensures |free| <= |old(free)| <= |free| + 2 && (o.Null? ==> free == [] && |old(free)| < 2)
    {
      hide Proper, Represents, Nested, Distinct, TablesGrew, MakePte, WithValid;
      if v in t.leaf {
        LeafBound(t, v);
      }
      ghost var done;
      o, t', done := Mappages(root, v * PGSIZE, PGSIZE, ppn * PGSIZE, perm, t);
      SameRoot(old(pages), old(free), t, pages, free, t');
    }

    /** One round of uvmunmap; panics if v is not mapped. */
    method UnmapOne(root: nat, v: nat, doFree: bool, ghost t: Space) returns (ok: bool, ghost t': Space)
      requires 0 < lo && Proper(pages, lo, free, t) && root == t.tables[ROOT]
      requires doFree ==> UserOk(pages, lo, free, t) && (v < USERTOP || v !in t.leaf)
      modifies this
      ensures ok <==> v in t.leaf
      ensures ok ==> Proper(pages, lo, free, t') && t' == t.(leaf := t.leaf - {v})
      ensures ok && doFree ==> UserOk(pages, lo, free, t') && Conserves(old(pages), old(free), t, pages, free, t')
      ensures ok && doFree ==> SameUserBytes(old(pages), t', pages)
      ensures ok && !doFree ==> free == old(free) && TablesGrew(old(pages), old(free), t, pages, free, t')
    {
      hide Proper, Represents, Nested, Distinct, Idx, Up, MakePte, PpnOf;
      hide IsValid, IsLeaf, TablesGrew, Px, FlagsOf, UserOk, Conserves, SameUserBytes;
      if v in t.leaf {
        LeafBound(t, v);
      }
      var o, table, _ := Walk(root, v, false, t);
      if !o.Done? {
        return false, t;
      }
      LeafEntry(pages, t, v);
      var pte := pages[table].ptes[Px(0, v)];
      if !IsValid(pte) || FlagsOf(pte) == PTE_V {
        return false, t;
      }
      if doFree {
        UserPageFacts(pages, lo, free, t, v);
        FreeUser(pages, lo, free, t, v, Filled(1));
        ok := Kfree(PpnOf(pte));
      } else {
        WriteLeaf(pages, lo, free, t, v, 0);
        ok := true;
      }
      pages := SetEntry(pages, table, Px(0, v), 0);
      t' := t.(leaf := t.leaf - {v});
    }

    /** Removes the mappings of n pages from first on; panics if one is missing. With doFree their pages are freed. */
    method Uvmunmap(root: nat, first: nat, n: nat, doFree: bool, ghost t: Space) returns (ok: bool, ghost t': Space)
      requires 0 < lo && Proper(pages, lo, free, t) && root == t.tables[ROOT]
      requires doFree ==> UserOk(pages, lo, free, t) && (first + n <= USERTOP || MissesUserPage(t, first))
      modifies this
      ensures ok <==> forall v :: first <= v < first + n ==> v in t.leaf
      ensures ok ==> Proper(pages, lo, free, t') && t' == t.(leaf := Unmapped(t.leaf, first, n))
      ensures ok && doFree ==> UserOk(pages, lo, free, t') && Conserves(old(pages), old(free), t, pages, free, t')
      ensures ok && doFree ==> SameUserBytes(old(pages), t', pages)
      ensures ok && !doFree ==> free == old(free) && TablesGrew(old(pages), old(free), t, pages, free, t')
    {
      hide Proper, Represents, Nested, Distinct, TablesGrew, UserOk, Conserves, SameUserBytes;
      t' := t;
      Standstill(pages, free, t);
      var i := 0;
      while i < n
        invariant 0 <= i <= n
        invariant forall v :: first <= v < first + i ==> v in t.leaf
        invariant Proper(pages, lo, free, t') && t' == t.(leaf := Unmapped(t.leaf, first, i))
        invariant doFree ==> UserOk(pages, lo, free, t') && Conserves(old(pages), old(free), t, pages, free, t')
        invariant doFree ==> SameUserBytes(old(pages), t', pages)
        invariant !doFree ==> free == old(free) && TablesGrew(old(pages), old(free), t, pages, free, t')
      {
        ghost var m, fr, s := pages, free, t';
        ok, t' := UnmapOne(root, first + i, doFree, t');
        if !ok {
          return;
        }
        if doFree {
          ConservesAgain(old(pages), old(free), t, m, fr, s, pages, free, t');
          FewerBytes(old(pages), s, t', m);
          SameUserBytesAgain(old(pages), t', m, t', pages);
        } else {
          TablesGrewAgain(old(pages), old(free), t, m, fr, s, pages, free, t');
        }
        i := i + 1;
      }
      ok := true;
    }

    /** An empty address space: one zeroed root table, or 0. */
    method Uvmcreate() returns (root: nat, ghost t: Space)
      requires 0 < lo && FreeOk(pages, lo, free)
      modifies this
      ensures root == 0 ==> free == [] == old(free) && pages == old(pages)
      ensures root != 0 ==> Proper(pages, lo, free, t) && t == Space(map[ROOT := root], map[])
      ensures root != 0 ==>
        old(free) == [root] + free && root < old(|pages|) && pages == old(pages)[root := ZeroTable()]
    {
      t := Space(map[], map[]);
      root := Kalloc();
      if root == 0 {
        return;
      }
      pages := pages[root := ZeroTable()];
      t := Space(map[ROOT := root], map[]);
      assert NodeOk(pages, t, ROOT);
    }

    /** A fresh page with the given bytes becomes user page v; without room for it everything goes back. */
    method GiveOne(root: nat, v: nat, bytes: seq<Byte>, perm: nat, ghost t: Space) returns (o: Outcome, ghost t': Space)
      requires 0 < lo && Proper(pages, lo, free, t) && UserOk(pages, lo, free, t) && root == t.tables[ROOT]
      requires (v < USERTOP || v in t.leaf) && |bytes| == PGSIZE && perm < 1024 && perm / 2 % 8 != 0
      modifies this
      ensures o.Panic? <==> v in t.leaf && old(free) != []
      ensures o.Null? ==> |old(free)| < 3
      ensures !o.Panic? ==> Gave(old(pages), old(free), t, pages, lo, free, t', root)
      ensures o.Null? ==> t'.leaf == t.leaf
      ensures o.Done? ==> |free| < |old(free)| <= |free| + 3
      ensures o.Done? ==> v in t'.leaf && t'.leaf == t.leaf[v := t'.leaf[v]] && FlagsOf(t'.leaf[v]) == WithValid(perm)
      ensures o.Done? ==> PageOf(t', v) < |pages| && pages[PageOf(t', v)] == Data(bytes)
    {
      hide Proper, Represents, Nested, Distinct, TablesGrew, UserOk, Conserves, SameUserBytes, InHand, Held;
      hide WithValid, MakePte, PpnOf, FlagsOf;
      ghost var m, fr := pages, free;
      var p := Kalloc();
      if p == 0 {
        Standstill(pages, free, t);
        return Null, t;
      }
      PopFree(m, lo, fr, t, Data(bytes));
      pages := pages[p := Data(bytes)];
      assert pages == m[p := Data(bytes)];
      ghost var m1, fr1 := pages, free;
      if v in t.leaf {
        LeafBound(t, v);
      }
      o, t' := MapPage(root, v, p, perm, t);
      if o.Panic? {
        return;
      }
      ghost var s := t'.(leaf := t.leaf);
      MappedAside(m1, lo, fr1, t, pages, free, t', s);
      StillInHand(m, fr, t, p, m1, fr1, t, pages, free, s);
      SameUserBytesAgain(m, t, m1, t, pages);
      ghost var m2, fr2 := pages, free;
      if o.Done? {
        NewEntry(p, perm);
        HandOver(m, lo, fr, t, p, pages, free, s, v, t'.leaf[v], t');
      } else {
        assert t' == s;
        PutBack(m, lo, fr, t, p, m2, fr2, t', Filled(1));
        var ok := Kfree(p);
        SameUserBytesAgain(m, t, m2, t', pages);
      }
    }

    /** Shrinks user memory; panics if a page that is to go is not mapped. */
    method Uvmdealloc(root: nat, oldsz: nat, newsz: nat, ghost t: Space) returns (ok: bool, sz: nat, ghost t': Space)
      requires 0 < lo && Proper(pages, lo, free, t) && UserOk(pages, lo, free, t) && root == t.tables[ROOT]
      requires newsz < oldsz ==> PageUp(oldsz) <= USERTOP || MissesUserPage(t, PageUp(newsz))
      modifies this
      ensures ok <==> newsz >= oldsz || forall v :: PageUp(newsz) <= v < PageUp(oldsz) ==> v in t.leaf
      ensures ok ==>
        Proper(pages, lo, free, t') && UserOk(pages, lo, free, t') && sz == if newsz < oldsz then newsz else oldsz
      ensures ok ==> Conserves(old(pages), old(free), t, pages, free, t') && SameUserBytes(old(pages), t', pages)
      ensures ok ==> t' == t.(leaf := Unmapped(t.leaf, PageUp(sz), PageUp(oldsz) - PageUp(sz)))
    {
      hide Proper, Represents, Nested, Distinct, UserOk, Conserves, SameUserBytes;
      Standstill(pages, free, t);
      ok, sz, t' := true, oldsz, t;
      if newsz >= oldsz {
        return;
      }
      sz := newsz;
      PageUpMonotone(newsz, oldsz);
      if PageUp(newsz) < PageUp(oldsz) {
        ok, t' := Uvmunmap(root, PageUp(newsz), PageUp(oldsz) - PageUp(newsz), true, t);
      }
    }

    /** One round of growing t: page a is given to t1, which is t with the pages first .. a - 1. */
    method GiveNext(root: nat, first: nat, a: nat, bytes: seq<Byte>, perm: nat, ghost m0: Memory, ghost free0: seq<nat>,
                    ghost t: Space, ghost t1: Space, ghost want: Want)
      returns (o: Outcome, ghost t': Space)
      requires 0 < lo && Gave(m0, free0, t, pages, lo, free, t1, root) && Grown(pages, t, t1, first, a, want)
      requires (a == first || a <= USERTOP) && (a < USERTOP || a in t.leaf) && perm < 1024 && perm / 2 % 8 != 0
      requires |bytes| == PGSIZE && WantPage(want, a) == Data(bytes) && WantFlags(want, a) == WithValid(perm)
      modifies this
      ensures o.Panic? <==> a in t.leaf && old(free) != []
      ensures !o.Panic? ==>
        Gave(m0, free0, t, pages, lo, free, t', root) && Conserves(old(pages), old(free), t1, pages, free, t')
      ensures o.Null? ==> |old(free)| < 3 && Grown(pages, t, t', first, a, want)
      ensures o.Done? ==> a < USERTOP && Grown(pages, t, t', first, a + 1, want) && |free| < |old(free)| <= |free| + 3
    {
      hide Proper, Represents, Nested, Distinct, UserOk, Gave, Grown, FlagsOf, WithValid, PpnOf, WantFlags, WantPage;
      ghost var m, fr := pages, free;
      GrownFacts(pages, t, t1, first, a, want);
      o, t' := GiveOne(root, a, bytes, perm, t1);
      if o.Panic? {
        return;
      }
      GaveAgain(m0, free0, t, m, fr, t1, pages, lo, free, t', root);
      if o.Null? {
        GrownKept(m, t, t1, first, a, want, pages, t');
      } else {
        GrownStep(m, t, t1, first, a, want, pages, t');
      }
    }

    /** What uvmalloc does when memory runs out: the pages first .. a - 1 go back. */
    method TakeBack(root: nat, first: nat, a: nat, ghost m0: Memory, ghost free0: seq<nat>, ghost t: Space,
                    ghost t1: Space,
                    ghost want: Want)
      returns (ghost t': Space)
      requires 0 < lo && Gave(m0, free0, t, pages, lo, free, t1, root) && Grown(pages, t, t1, first, a, want)
      requires a == first || a <= USERTOP
      modifies this
      ensures Gave(m0, free0, t, pages, lo, free, t', root) && t'.leaf == t.leaf
    {
      hide Proper, Represents, Nested, Distinct, UserOk, Gave, Grown, FlagsOf, PpnOf, PageUp;
      PageUpCovers(a, 0);
      PageUpCovers(first, 0);
      GrownFacts(pages, t, t1, first, a, want);
      ghost var m1, fr1 := pages, free;
      var ok, sz;
      ok, sz, t' := Uvmdealloc(root, a * PGSIZE, first * PGSIZE, t1);
      GaveBack(m0, free0, t, m1, fr1, t1, pages, lo, free, t', root);
    }

    /** Grows user memory by zeroed pages; without room for them the map is as it was. */
    method Uvmalloc(root: nat, oldsz: nat, newsz: nat, xperm: nat, ghost t: Space)
      returns (o: Outcome, sz: nat, ghost t': Space)
      requires 0 < lo && Proper(pages, lo, free, t) && UserOk(pages, lo, free, t) && root == t.tables[ROOT]
      requires
        || PageUp(newsz) <= USERTOP || PageUp(oldsz) + |free| < USERTOP
        || (PageUp(oldsz) <= TRAPFRAME && TRAPFRAME in t.leaf)
      requires xperm in {0, PTE_W, PTE_X, PTE_W + PTE_X}
      modifies this
      ensures !o.Panic? ==> Gave(old(pages), old(free), t, pages, lo, free, t', root)
      ensures newsz < oldsz ==> o.Done? && sz == oldsz && t' == t
      // it panics only at a page that is mapped already and that memory suffices to reach
      ensures o.Panic? ==> newsz >= oldsz
      ensures o.Panic? ==>
                exists v :: PageUp(oldsz) <= v < PageUp(newsz) && v in t.leaf && v < PageUp(oldsz) + |old(free)|
      // with memory for every page it panics exactly if there is such a page
      ensures newsz >= oldsz && |old(free)| >= 3 * (PageUp(newsz) - PageUp(oldsz)) ==>
                (o.Panic? <==> exists v :: PageUp(oldsz) <= v < PageUp(newsz) && v in t.leaf)
      ensures o.Null? ==>
        newsz >= oldsz && sz == 0 && t'.leaf == t.leaf && |old(free)| < 3 * (PageUp(newsz) - PageUp(oldsz))
      ensures newsz >= oldsz && o.Done? ==> sz == newsz && (PageUp(newsz) <= PageUp(oldsz) || PageUp(newsz) <= USERTOP)
      ensures newsz >= oldsz && o.Done? ==>
                Grown(pages, t, t', PageUp(oldsz), PageUp(newsz), Zeros(PTE_V + PTE_R + PTE_U + xperm))
    {
      hide Proper, Represents, Nested, Distinct, UserOk, Gave, Grown, FlagsOf, WithValid, PpnOf, PageUp;
      NothingGiven(pages, lo, free, t, root);
      t' := t;
      if newsz < oldsz {
        return Done, oldsz, t;
      }
      var first, perm := PageUp(oldsz), PTE_R + PTE_U + xperm;
      ghost var want := Zeros(PTE_V + perm);
      Permissions(xperm);
      NothingGrown(pages, t, first, want);
      PageUpMonotone(oldsz, newsz);
      var a := first;
      PageUpCovers(a, newsz);
      while a * PGSIZE < newsz
        invariant first <= a <= PageUp(newsz) && (a * PGSIZE < newsz <==> a < PageUp(newsz))
        invariant Gave(old(pages), old(free), t, pages, lo, free, t', root)
        invariant Grown(pages, t, t', first, a, want)
        invariant |free| + 3 * (a - first) >= |old(free)| >= |free| + (a - first)
        invariant a > first ==> a <= USERTOP
        decreases PageUp(newsz) - a
      {
        o, t' := GiveNext(root, first, a, Filled(0).bytes, perm, old(pages), old(free), t, t', want);
        if o.Panic? {
          return Panic, 0, t';
        }
        if o.Null? {
          t' := TakeBack(root, first, a, old(pages), old(free), t, t', want);
          return Null, 0, t';
        }
        a := a + 1;
        PageUpCovers(a, newsz);
      }
      GrownOverNothing(pages, t, t', first, a, want);
      o, sz := Done, newsz;
    }

    /** Copies user memory of size sz from one space to another that shares no page with it. */
    method Uvmcopy(oldroot: nat, newroot: nat, sz: nat, ghost parent: Space, ghost t: Space)
      returns (o: Outcome, ghost t': Space)
      requires 0 < lo && Proper(pages, lo, free, t) && UserOk(pages, lo, free, t) && newroot == t.tables[ROOT]
      requires Apart(pages, lo, free, t, parent) && oldroot == parent.tables[ROOT] && PageUp(sz) <= USERTOP
      modifies this
      // it panics only at a page that the parent lacks or the child has
      ensures o.Panic? ==> exists v :: 0 <= v < PageUp(sz) && (v !in parent.leaf || v in t.leaf)
      // with memory for every page it panics exactly if there is such a page
      ensures |old(free)| >= 3 * PageUp(sz) ==>
                (o.Panic? <==> exists v :: 0 <= v < PageUp(sz) && (v !in parent.leaf || v in t.leaf))
      ensures o.Done? ==> forall v :: 0 <= v < PageUp(sz) ==> v in parent.leaf && v !in t.leaf
      ensures !o.Panic? ==> Gave(old(pages), old(free), t, pages, lo, free, t', newroot)
      ensures !o.Panic? ==> Apart(pages, lo, free, t', parent) && SameUserBytes(old(pages), parent, pages)
      ensures o.Null? ==> t'.leaf == t.leaf && |old(free)| < 3 * PageUp(sz)
      ensures o.Done? ==> Grown(pages, t, t', 0, PageUp(sz), CopyOf(old(pages), parent))
    {
      hide Proper, Represents, Nested, Distinct, UserOk, Gave, SameUserBytes;
      hide Grown, FlagsOf, WithValid, PpnOf, PageUp, Apart;
      hide Up, Idx, Px, IsValid;
      NothingGiven(pages, lo, free, t, newroot);
      Standstill(pages, free, parent);
      t' := t;
      ghost var want := CopyOf(pages, parent);
      NothingGrown(pages, t, 0, want);
      var i := 0;
      PageUpCovers(i, sz);
      while i * PGSIZE < sz
        invariant 0 <= i <= PageUp(sz) && (i * PGSIZE < sz <==> i < PageUp(sz))
        invariant Gave(old(pages), old(free), t, pages, lo, free, t', newroot)
        invariant Apart(pages, lo, free, t', parent) && SameUserBytes(old(pages), parent, pages)
        invariant Grown(pages, t, t', 0, i, want)
        invariant |free| + 3 * i >= |old(free)|
        invariant forall v :: 0 <= v < i ==> v in parent.leaf
        decreases PageUp(sz) - i
      {
        ghost var m, fr, s := pages, free, t';
        var found, bytes, flags := ReadPage(oldroot, i, parent, t');
        if !found {
          return Panic, t';
        }
        LeafFlags(parent, i);
        BytesWanted(old(pages), parent, m, i);
        o, t' := GiveNext(newroot, 0, i, bytes, flags, old(pages), old(free), t, t', want);
        if o.Panic? {
          return;
        }
        ApartAgain(old(pages), lo, m, fr, s, parent, pages, free, t');
        if o.Null? {
          ghost var m1, fr1, t1 := pages, free, t';
          GrownFacts(pages, t, t', 0, i, want);
          var ok;
          ok, t' := Uvmunmap(newroot, 0, i, true, t');
          GaveBack(old(pages), old(free), t, m1, fr1, t1, pages, lo, free, t', newroot);
          ApartAgain(old(pages), lo, m1, fr1, t1, parent, pages, free, t');
          return Null, t';
        }
        i := i + 1;
        PageUpCovers(i, sz);
      }
      GrownOverNothing(pages, t, t', 0, i, want);
      o := Done;
    }

    /** The bytes and flags of user page v, if it is mapped. */
    method ReadPage(root: nat, v: nat, ghost t: Space, ghost other: Space)
      returns (found: bool, bytes: seq<Byte>, flags: nat)
      requires 0 < lo && Apart(pages, lo, free, other, t) && root == t.tables[ROOT] && v < USERTOP
      modifies this
      ensures pages == old(pages) && free == old(free)
      ensures found <==> v in t.leaf
      ensures found ==>
        PageOf(t, v) < |pages| && pages[PageOf(t, v)] == Data(bytes) && |bytes| == PGSIZE && flags == FlagsOf(t.leaf[v])
    {
      hide Proper, Represents, Nested, Distinct, UserOk, FlagsOf, PpnOf, Up, Idx, Px, IsValid;
      bytes, flags := [], 0;
      var o, table, _ := Walk(root, v, false, t);
      if !o.Done? {
        return false, bytes, flags;
      }
      LeafEntry(pages, t, v);
      var pte := pages[table].ptes[Px(0, v)];
      if !IsValid(pte) {
        return false, bytes, flags;
      }
      UserPageFacts(pages, lo, free, t, v);
      return true, pages[PpnOf(pte)].bytes, FlagsOf(pte);
    }

    /** Frees the table of node n and all tables below it; panics if a leaf entry is left there. */
    method Freewalk(p: nat, ghost n: Node, ghost t: Space) returns (ok: bool)
      requires Intact(pages, lo, free, t, n) && p == t.tables[n]
      modifies this
      ensures ok <==> forall v :: v in t.leaf ==> !LeafBelow(v, n)
      ensures ok ==> FreedBelow(old(pages), old(free), pages, free, lo, t, n)
      decreases n.level
    {
      hide Intact, Trimmed, FreedBelow, Nested, Distinct, IsValid, IsLeaf, PpnOf, Join, Idx, Up, LeafBelow;
      ghost var m0, free0 := pages, free;
      TrimStart(pages, lo, free, t, n);
      var i := 0;
      while i < ENTRIES
        invariant 0 <= i <= ENTRIES
        invariant Trimmed(m0, free0, pages, free, lo, t, n, i)
        invariant forall v :: v in t.leaf && LeafBelow(v, n) ==> Idx(Prefix(n.level, v)) >= i
      {
        var pte := pages[p].ptes[i];
        assert pte == m0[p].ptes[i] by { TrimmedEntry(m0, free0, pages, free, lo, t, n, i); }
        EntryCases(m0, lo, free0, t, n, i);
        forall v | v in t.leaf && LeafBelow(v, n) && Idx(Prefix(n.level, v)) == i
          ensures if n.level > 0 then Child(n, i) in t.tables else v == Join(n.key, i)
        {
          NoLeafAt(t, n, i, v);
        }
        if IsValid(pte) && !IsLeaf(pte) {
          ghost var m, fr := pages, free;
          TrimNext(m0, free0, m, fr, lo, t, n, i);
          ok := Freewalk(PpnOf(pte), Child(n, i), t);
          forall v: nat ensures LeafBelow(v, Child(n, i)) <==> LeafBelow(v, n) && Idx(Prefix(n.level, v)) == i {
            LeafBelowChild(n, v, i);
          }
          if !ok {
            return;
          }
          TrimBranch(m0, free0, m, fr, lo, t, n, i, pages, free);
          pages := SetEntry(pages, p, i, 0);
        } else if IsValid(pte) {
          LeafHere(n, i);
          return false;
        } else {
          TrimSkip(m0, free0, pages, free, lo, t, n, i);
        }
        i := i + 1;
      }
      TrimEnd(m0, free0, pages, free, lo, t, n, Filled(1));
      ok := Kfree(p);
    }

    /** Frees user memory of size sz and all tables; panics unless exactly the pages of that memory are mapped. */
    method Uvmfree(root: nat, sz: nat, ghost t: Space) returns (ok: bool)
      requires 0 < lo && Proper(pages, lo, free, t) && UserOk(pages, lo, free, t) && root == t.tables[ROOT]
      requires PageUp(sz) <= USERTOP
      modifies this
      ensures ok <==> forall v :: v in t.leaf <==> 0 <= v < PageUp(sz)
      ensures ok ==> FreeOk(pages, lo, free) && EverythingFree(old(pages), old(free), t, pages, free)
    {
      hide Proper, Represents, Nested, Distinct, UserOk, Conserves, SameUserBytes;
      hide Intact, FreedBelow, EverythingFree, PageUp, IsBelow, IsTable, LeafBelow;
      Standstill(pages, free, t);
      ghost var t' := t;
      PageUpMonotone(sz, sz);
      PageUpCovers(0, sz);
      if sz > 0 {
        ok, t' := Uvmunmap(root, 0, PageUp(sz), true, t);
        if !ok {
          return;
        }
      }
      ghost var m, fr := pages, free;
      WholeTree(pages, lo, free, t');
      ok := Freewalk(root, ROOT, t');
      if ok {
        assert t'.leaf == map[];
        AllFreed(m, fr, pages, free, lo, t');
        EverythingFreeAfter(old(pages), old(free), t, m, fr, t', pages, free);
      }
    }

    /** A page table with only the trampoline and trapframe pages, or 0 with every page free again. */
    method ProcPagetable(trampoline: nat, trapframe: nat) returns (root: nat, ghost t: Space)
      requires 0 < lo && FreeOk(pages, lo, free)
      modifies this
      ensures |pages| == old(|pages|) && FreeOk(pages, lo, free)
      ensures forall q :: 0 <= q < |pages| && q !in old(free) ==> pages[q] == old(pages[q])
      ensures root == 0 ==> |old(free)| < 5 && forall q :: q in free <==> q in old(free)
      ensures root != 0 ==> Proper(pages, lo, free, t) && UserOk(pages, lo, free, t) && root == t.tables[ROOT]
      ensures root != 0 ==> |old(free)| <= |free| + 5 && forall q :: Held(free, t, q) <==> q in old(free)
      ensures root != 0 ==>
        t.leaf == SystemPages(trampoline, trapframe)
    {
      hide Proper, Represents, Nested, Distinct, UserOk, Conserves;
      hide SameUserBytes, EverythingFree, Held, TablesGrew, MakePte, FreeOk;
      root, t := Uvmcreate();
      if root == 0 {
        return;
      }
      ghost var m0, free0 := old(pages), old(free);
      StartSpace(m0, lo, free0, pages, free, root, t);
      ghost var m1, fr1, t1 := pages, free, t;
      assert WithValid(PTE_R + PTE_X) == PTE_V + PTE_R + PTE_X && WithValid(PTE_R + PTE_W) == PTE_V + PTE_R + PTE_W;
      var o;
      o, t := MapPage(root, TRAMPOLINE, trampoline, PTE_R + PTE_X, t);
      SystemPagesKeepUser(m1, lo, fr1, t1, pages, free, t);
      SpaceFromKept(m0, free0, m1, fr1, t1, pages, free, t);
      if !o.Done? {
        assert t.leaf == map[];
        ghost var m, fr := pages, free;
        var ok := Uvmfree(root, 0, t);
        SpaceGone(m0, free0, m, fr, t, pages, free);
        return 0, t;
      }
      ghost var m2, fr2, t2 := pages, free, t;
      o, t := MapPage(root, TRAPFRAME, trapframe, PTE_R + PTE_W, t);
      SystemPagesKeepUser(m2, lo, fr2, t2, pages, free, t);
      SpaceFromKept(m0, free0, m2, fr2, t2, pages, free, t);
      if !o.Done? {
        ghost var m3, fr3, t3 := pages, free, t;
        var ok;
        ok, t := Uvmunmap(root, TRAMPOLINE, 1, false, t);
        assert t.leaf == map[];
        SystemPagesKeepUser(m3, lo, fr3, t3, pages, free, t);
        SpaceFromKept(m0, free0, m3, fr3, t3, pages, free, t);
        ghost var m, fr := pages, free;
        ok := Uvmfree(root, 0, t);
        SpaceGone(m0, free0, m, fr, t, pages, free);
        return 0, t;
      }
      SpaceDone(m0, free0, pages, free, t);
    }

    /** Frees a process's page table; panics unless exactly its memory and the two system pages are mapped. */
    method ProcFreepagetable(root: nat, sz: nat, ghost t: Space) returns (ok: bool)
      requires 0 < lo && Proper(pages, lo, free, t) && UserOk(pages, lo, free, t) && root == t.tables[ROOT]
      requires PageUp(sz) <= USERTOP
      modifies this
      ensures ok <==> forall v :: v in t.leaf <==> 0 <= v < PageUp(sz) || v == TRAMPOLINE || v == TRAPFRAME
      ensures ok ==> FreeOk(pages, lo, free) && EverythingFree(old(pages), old(free), t, pages, free)
    {
      hide Proper, Represents, Nested, Distinct, UserOk, Conserves, SameUserBytes, EverythingFree, TablesGrew, PageUp;
      ghost var t1, t2;
      ok, t1 := Uvmunmap(root, TRAMPOLINE, 1, false, t);
      if !ok {
        assert TRAMPOLINE !in t.leaf;
        return;
      }
      SystemPagesKeepUser(old(pages), lo, old(free), t, pages, free, t1);
      ghost var m1, fr1 := pages, free;
      ok, t2 := Uvmunmap(root, TRAPFRAME, 1, false, t1);
      if !ok {
        assert TRAPFRAME !in t.leaf;
        return;
      }
      SystemPagesKeepUser(m1, lo, fr1, t1, pages, free, t2);
      ConservesAgain(old(pages), old(free), t, m1, fr1, t1, pages, free, t2);
      ghost var m2, fr2 := pages, free;
      ok := Uvmfree(root, sz, t2);
      if ok {
        EverythingFreeAfter(old(pages), old(free), t, m2, fr2, t2, pages, free);
      }
    }
  }

  lemma NothingGiven(m: Memory, lo: nat, free: seq<nat>, t: Space, root: nat)
    requires Proper(m, lo, free, t) && UserOk(m, lo, free, t) && root == t.tables[ROOT]
    ensures Gave(m, free, t, m, lo, free, t, root)
  {
    hide Proper, UserOk;
    Standstill(m, free, t);
  }

  lemma GaveAgain(m: Memory, free: seq<nat>, t: Space, m1: Memory, free1: seq<nat>, t1: Space,
                  m2: Memory, lo: nat, free2: seq<nat>, t2: Space, root: nat)
    requires Gave(m, free, t, m1, lo, free1, t1, root) && Gave(m1, free1, t1, m2, lo, free2, t2, root)
    requires forall v :: IsUserLeaf(t, v) ==> IsUserLeaf(t1, v) && t1.leaf[v] == t.leaf[v]
    ensures Gave(m, free, t, m2, lo, free2, t2, root)
  {
    hide Proper, UserOk, Conserves, SameUserBytes;
    ConservesAgain(m, free, t, m1, free1, t1, m2, free2, t2);
    SameUserBytesAgain(m, t, m1, t1, m2);
  }

  /** Taking back what was given since t. */
  lemma GaveBack(m: Memory, free: seq<nat>, t: Space, m1: Memory, free1: seq<nat>, t1: Space,
                 m2: Memory, lo: nat, free2: seq<nat>, t2: Space, root: nat)
    requires Gave(m, free, t, m1, lo, free1, t1, root) && Conserves(m1, free1, t1, m2, free2, t2)
    requires Proper(m2, lo, free2, t2) && UserOk(m2, lo, free2, t2) && SameUserBytes(m1, t2, m2)
    requires t2.tables == t1.tables && t2.leaf == t.leaf
    ensures Gave(m, free, t, m2, lo, free2, t2, root)
  {
    hide Proper, UserOk, Conserves, SameUserBytes;
    ConservesAgain(m, free, t, m1, free1, t1, m2, free2, t2);
    SameUserBytesAgain(m, t, m1, t2, m2);
  }

  /** Mapping or unmapping system pages keeps the user pages. */
  lemma SystemPagesKeepUser(m: Memory, lo: nat, free: seq<nat>, t: Space, m': Memory, free': seq<nat>, t': Space)
    requires UserOk(m, lo, free, t) && TablesGrew(m, free, t, m', free', t')
    requires forall v :: v < USERTOP ==> (v in t'.leaf <==> v in t.leaf) && (v in t.leaf ==> t'.leaf[v] == t.leaf[v])
    ensures UserOk(m', lo, free', t') && Conserves(m, free, t, m', free', t') && SameUserBytes(m, t, m')
  {
    UserKept(m, lo, free, t, m', free', t');
  }

  /** The space t was made of pages that were free, and no other page changed. */
  ghost predicate SpaceFrom(m0: Memory, free0: seq<nat>, m: Memory, free: seq<nat>, t: Space)
    ensures SpaceFrom(m0, free0, m, free, t) ==> |m| == |m0|
  {
    && |m| == |m0| && (forall q :: Held(free, t, q) <==> q in free0)
    && (forall q :: 0 <= q < |m| && q !in free0 ==> m[q] == m0[q])
  }

  lemma StartSpace(m0: Memory, lo: nat, free0: seq<nat>, m: Memory, free: seq<nat>, root: nat, t: Space)
    requires free0 == [root] + free && root < |m0| && m == m0[root := ZeroTable()]
    requires t == Space(map[ROOT := root], map[])
    ensures SpaceFrom(m0, free0, m, free, t) && UserOk(m, lo, free, t)
  {
    assert IsTable(t, root) by { assert t.tables[ROOT] == root; }
  }

  lemma SpaceFromKept(m0: Memory, free0: seq<nat>, m: Memory, free: seq<nat>, t: Space, m': Memory, free': seq<nat>,
                      t': Space)
    requires SpaceFrom(m0, free0, m, free, t) && Conserves(m, free, t, m', free', t')
    ensures SpaceFrom(m0, free0, m', free', t')
  {
  }

  lemma SpaceGone(m0: Memory, free0: seq<nat>, m: Memory, free: seq<nat>, t: Space, m': Memory, free': seq<nat>)
    requires SpaceFrom(m0, free0, m, free, t) && EverythingFree(m, free, t, m', free')
    ensures |m'| == |m0| && (forall q :: q in free' <==> q in free0)
    ensures forall q :: 0 <= q < |m0| && q !in free0 ==> m'[q] == m0[q]
  {
  }

  lemma SpaceDone(m0: Memory, free0: seq<nat>, m: Memory, free: seq<nat>, t: Space)
    requires SpaceFrom(m0, free0, m, free, t)
    ensures (forall q :: Held(free, t, q) <==> q in free0)
    ensures forall q :: 0 <= q < |m| && q !in free0 ==> m[q] == m0[q]
  {
  }

  /** parent is a sound space of its own, and none of its pages is free or in use by t. */
  ghost predicate Apart(m: Memory, lo: nat, free: seq<nat>, t: Space, parent: Space)
    ensures Apart(m, lo, free, t, parent) ==> Proper(m, lo, free, parent)
  {
    && Proper(m, lo, free, parent) && UserOk(m, lo, free, parent)
    && forall p :: IsTable(parent, p) || IsUserPage(parent, p) ==> !Held(free, t, p)
  }

  /** Whatever conserves the pages of t leaves another space as it was. */
  lemma ApartKept(m: Memory, lo: nat, free: seq<nat>, t: Space, parent: Space, m': Memory, free': seq<nat>, t': Space)
    requires Apart(m, lo, free, t, parent) && Conserves(m, free, t, m', free', t') && FreeOk(m', lo, free')
    ensures Apart(m', lo, free', t', parent) && SameUserBytes(m, parent, m')
  {
    hide Represents, Nested, Distinct, PageOf;
    assert forall n :: n in parent.tables ==> IsTable(parent, parent.tables[n]);
    assert forall v :: IsUserLeaf(parent, v) ==> IsUserPage(parent, PageOf(parent, v));
    assert forall p :: p in free' ==> Held(free', t', p);
    FrameTables(m, m', parent);
  }

  lemma ApartAgain(m: Memory, lo: nat, m1: Memory, free1: seq<nat>, t1: Space, parent: Space,
                   m2: Memory, free2: seq<nat>, t2: Space)
    requires Apart(m1, lo, free1, t1, parent) && SameUserBytes(m, parent, m1)
    requires Conserves(m1, free1, t1, m2, free2, t2) && FreeOk(m2, lo, free2)
    ensures Apart(m2, lo, free2, t2, parent) && SameUserBytes(m, parent, m2)
  {
    hide Conserves, SameUserBytes;
    ApartKept(m1, lo, free1, t1, parent, m2, free2, t2);
    SameUserBytesAgain(m, parent, m1, parent, m2);
  }

  lemma BytesWanted(m: Memory, t: Space, m': Memory, v: nat)
    requires SameUserBytes(m, t, m') && IsUserLeaf(t, v) && PageOf(t, v) < |m|
    ensures PageOf(t, v) < |m'| && m'[PageOf(t, v)] == WantPage(CopyOf(m, t), v)
  {
  }

  /** The entry read at one level of the walk tells whether the next table is there, and where. */
  lemma PathStep(t: Space, level: nat, v: nat)
    requires Nested(t) && 0 < level <= 2 && v < MAXVPN && OnPath(level, v) in t.tables
    ensures
      var n := OnPath(level - 1, v);
      && Parent(n) == OnPath(level, v) && Px(level, v) == Idx(n.key)
      && (IsValid(EntryFor(t, level, Prefix(level, v))) <==> n in t.tables)
      && (n in t.tables ==> PpnOf(EntryFor(t, level, Prefix(level, v))) == t.tables[n])
      && (n !in t.tables ==> InPlace(t, n) && v !in t.leaf)
  {
    hide Px, Idx, Up, MakePte, PpnOf, IsValid, IsLeaf;
    var n := OnPath(level - 1, v);
    PxSplits(level, v);
    NullEntry();
    if n in t.tables {
      EntryRoundTrip(t.tables[n], PTE_V);
    } else {
      Unreached(t, level - 1, v);
    }
  }

  lemma NewEntry(ppn: nat, perm: nat)
    requires perm < 1024 && perm / 2 % 8 != 0
    ensures IsValid(MakePte(ppn, WithValid(perm))) && IsLeaf(MakePte(ppn, WithValid(perm)))
    ensures MakePte(ppn, WithValid(perm)) != 0 && PpnOf(MakePte(ppn, WithValid(perm))) == ppn
    ensures FlagsOf(MakePte(ppn, WithValid(perm))) == WithValid(perm)
  {
    hide MakePte, PpnOf, FlagsOf, IsValid, IsLeaf;
    var flags := WithValid(perm);
    assert flags % 2 == 1 && flags / 2 == perm / 2;
    EntryRoundTrip(ppn, flags);
    NullEntry();
  }

  lemma SameRoot(m: Memory, free: seq<nat>, t: Space, m': Memory, free': seq<nat>, t': Space)
    requires TablesGrew(m, free, t, m', free', t') && ROOT in t.tables
    ensures ROOT in t'.tables && t'.tables[ROOT] == t.tables[ROOT]
  {
  }

  /** Mapping pages leaves the other user pages as they were. */
  lemma MappedAside(m: Memory, lo: nat, free: seq<nat>, t: Space, m': Memory, free': seq<nat>, t': Space, s: Space)
    requires UserOk(m, lo, free, t) && TablesGrew(m, free, t, m', free', t') && s == t'.(leaf := t.leaf)
    ensures UserOk(m', lo, free', s) && Conserves(m, free, t, m', free', s) && SameUserBytes(m, t, m')
  {
    assert forall p :: IsTable(s, p) <==> IsTable(t', p);
    UserKept(m, lo, free, t, m', free', s);
  }

  /** The page in hand, once mapped at v, is the user page of v. */
  lemma HandOver(m: Memory, lo: nat, free: seq<nat>, t: Space, p: nat, m': Memory, free': seq<nat>, s: Space, v: nat,
                 pte: nat, t': Space)
    requires InHand(m, free, t, p, m', free', s) && UserOk(m', lo, free', s) && lo <= p && DataAt(m', p)
    requires PpnOf(pte) == p
    requires v !in s.leaf && v < USERTOP && t' == s.(leaf := s.leaf[v := pte])
    ensures UserOk(m', lo, free', t') && Conserves(m, free, t, m', free', t')
  {
    GiveUser(m', lo, free', s, v, pte, t');
  }

  lemma FewerBytes(m: Memory, t: Space, t': Space, m': Memory)
    requires SameUserBytes(m, t, m') && forall v :: v in t'.leaf ==> v in t.leaf && t'.leaf[v] == t.leaf[v]
    ensures SameUserBytes(m, t', m')
  {
    assert forall v :: IsUserLeaf(t', v) ==> IsUserLeaf(t, v) && PageOf(t', v) == PageOf(t, v);
  }

  lemma PageUpMonotone(a: nat, b: nat)
    requires a <= b
    ensures PageUp(a) <= PageUp(b)
  {
  }

  lemma PageUpCovers(n: nat, size: nat)
    ensures PageUp(n * PGSIZE) == n && (n * PGSIZE < size <==> n < PageUp(size))
  {
  }

  lemma Permissions(xperm: nat)
    requires xperm in {0, PTE_W, PTE_X, PTE_W + PTE_X}
    ensures
      var perm := PTE_R + PTE_U + xperm;
      perm < 1024 && perm / 2 % 8 != 0 && WithValid(perm) == PTE_V + perm
  {
  }

  /** What new user pages are to hold: zeros, with the given flags, or what t's pages hold in m. */
  datatype Want = Zeros(flags: nat) | CopyOf(m: Memory, t: Space)

  function WantFlags(w: Want, v: nat): nat {
    match w
    case Zeros(flags) => flags
    case CopyOf(_, t) => if v in t.leaf then FlagsOf(t.leaf[v]) else 0
  }

  function WantPage(w: Want, v: nat): Page {
    match w
    case Zeros(_) => Filled(0)
    case CopyOf(m, t) => if v in t.leaf && PageOf(t, v) < |m| then m[PageOf(t, v)] else Filled(0)
  }

  /** t' is t with the wanted pages at first .. last - 1, none of which it had. */
  ghost predicate Grown(m: Memory, t: Space, t': Space, first: nat, last: nat, want: Want) {
    && first <= last
    && (forall v :: v in t'.leaf && !(first <= v < last) <==> v in t.leaf)
    && (forall v :: v in t.leaf ==> t'.leaf[v] == t.leaf[v])
    && (forall v :: first <= v < last ==>
          && v in t'.leaf && FlagsOf(t'.leaf[v]) == WantFlags(want, v)
          && PageOf(t', v) < |m| && m[PageOf(t', v)] == WantPage(want, v))
  }

  lemma NothingGrown(m: Memory, t: Space, first: nat, want: Want)
    ensures Grown(m, t, t, first, first, want)
  {
  }

  /** The pages that were added had not been mapped. */
  lemma GrownOverNothing(m: Memory, t: Space, t': Space, first: nat, last: nat, want: Want)
    requires Grown(m, t, t', first, last, want)
    ensures forall v :: first <= v < last ==> v !in t.leaf
  {
  }

  lemma GrownFacts(m: Memory, t: Space, t': Space, first: nat, last: nat, want: Want)
    requires Grown(m, t, t', first, last, want)
    ensures last in t'.leaf <==> last in t.leaf
    ensures forall v :: IsUserLeaf(t, v) ==> IsUserLeaf(t', v) && t'.leaf[v] == t.leaf[v]
    ensures Unmapped(t'.leaf, first, last - first) == t.leaf && forall v :: first <= v < last ==> v in t'.leaf
  {
  }

  lemma GrownKept(m: Memory, t: Space, s: Space, first: nat, last: nat, want: Want, m': Memory, t': Space)
    requires Grown(m, t, s, first, last, want) && SameUserBytes(m, s, m') && t'.leaf == s.leaf
    requires (last == first || last <= USERTOP)
    ensures Grown(m', t, t', first, last, want)
  {
    hide FlagsOf, PpnOf;
    forall v | first <= v < last
      ensures v in t'.leaf && PageOf(t', v) < |m'| && m'[PageOf(t', v)] == WantPage(want, v)
    {
      assert IsUserLeaf(s, v) && PageOf(t', v) == PageOf(s, v);
    }
  }

  lemma GrownStep(m: Memory, t: Space, s: Space, first: nat, last: nat, want: Want, m': Memory, t': Space)
    requires Grown(m, t, s, first, last, want) && SameUserBytes(m, s, m') && last < USERTOP
    requires last !in t.leaf && last in t'.leaf && t'.leaf == s.leaf[last := t'.leaf[last]]
    requires FlagsOf(t'.leaf[last]) == WantFlags(want, last) && PageOf(t', last) < |m'|
    requires m'[PageOf(t', last)] == WantPage(want, last)
    ensures Grown(m', t, t', first, last + 1, want)
  {
    hide FlagsOf, PpnOf;
    forall v | first <= v < last
      ensures v in t'.leaf && PageOf(t', v) < |m'| && m'[PageOf(t', v)] == WantPage(want, v)
    {
      assert IsUserLeaf(s, v) && PageOf(t', v) == PageOf(s, v);
    }
  }

  lemma LeafFlags(t: Space, v: nat)
    requires Nested(t) && v in t.leaf
    ensures FlagsOf(t.leaf[v]) < 1024 && FlagsOf(t.leaf[v]) / 2 % 8 != 0
    ensures WithValid(FlagsOf(t.leaf[v])) == FlagsOf(t.leaf[v])
  {
    var pte := t.leaf[v];
    assert pte == MakePte(PpnOf(pte), FlagsOf(pte));
    EntryRoundTrip(PpnOf(pte), FlagsOf(pte));
  }

  lemma TrimmedEntry(m0: Memory, free0: seq<nat>, m: Memory, free: seq<nat>, lo: nat, t: Space, n: Node, i: nat)
    requires n in t.tables && i < ENTRIES && Trimmed(m0, free0, m, free, lo, t, n, i)
    ensures m[t.tables[n]].ptes[i] == m0[t.tables[n]].ptes[i]
  {
  }

  lemma LeafHere(n: Node, i: nat)
    requires i < ENTRIES && n.level == 0
    ensures LeafBelow(Join(n.key, i), n)
  {
    Joins();
    assert Prefix(1, Join(n.key, i)) == Up(Prefix(0, Join(n.key, i)));
  }
}
