/**
 All processes at once: every page of the allocator's range is on the free list, belongs to
 one process, or belongs to the rest of the kernel, and to exactly one of them. allocproc, fork,
 growproc, copyout and freeproc keep it so in any order, and none of them changes the memory
 of a process it is not about.
 */
module MemorySystem {

  import opened Params
  import opened Sv39
  import opened PageOwnership
  import opened Teardown
  import opened VirtualMemory
  import opened UserMemory

  /** What a process has: its address space, its size and its trapframe page. */
  datatype View = View(space: Space, sz: nat, trapframe: nat)

  ghost predicate Owns(w: View, q: nat) {
    IsTable(w.space, q) || IsUserPage(w.space, q) || q == w.trapframe
  }

  ghost predicate ViewOk(m: Memory, lo: nat, free: seq<nat>, w: View) {
    && Proper(m, lo, free, w.space) && UserOk(m, lo, free, w.space) && ProcessSpace(w.space, w.sz)
    && lo <= w.trapframe < |m| && w.trapframe !in free
    && !IsTable(w.space, w.trapframe) && !IsUserPage(w.space, w.trapframe)
  }

  ghost predicate Taken(views: map<nat, View>, q: nat) {
    exists i :: i in views && Owns(views[i], q)
  }

  /** No page belongs to two processes. */
  ghost predicate Disjoint(views: map<nat, View>) {
    forall i, j, q: nat :: i in views && j in views && Owns(views[i], q) && Owns(views[j], q) ==> i == j
  }

  /** Each page from lo on is free, taken by a process or in `others`, and no two of these. */
  ghost predicate Accounted(m: Memory, lo: nat, free: seq<nat>, views: map<nat, View>, others: set<nat>) {
    && (forall q: nat :: lo <= q < |m| <==> q in free || q in others || Taken(views, q))
    && (forall q: nat :: q in others ==> q !in free && !Taken(views, q))
    && (forall q: nat :: q in free ==> !Taken(views, q))
  }

  ghost predicate SystemOk(m: Memory, lo: nat, free: seq<nat>, views: map<nat, View>, others: set<nat>)
    ensures SystemOk(m, lo, free, views, others) ==> FreeOk(m, lo, free)
  {
    && FreeOk(m, lo, free) && (forall i :: i in views ==> ViewOk(m, lo, free, views[i]))
    && Disjoint(views) && Accounted(m, lo, free, views, others)
  }

  /** q is free or belongs to process i. */
  ghost predicate Holding(free: seq<nat>, views: map<nat, View>, i: nat, q: nat) {
    q in free || (i in views && Owns(views[i], q))
  }

  /** A step that concerns process i alone: it trades pages with the free list, and no other page changes. */
  ghost predicate SlotStep(m: Memory, lo: nat, free: seq<nat>, views: map<nat, View>,
                           m': Memory, free': seq<nat>, views': map<nat, View>, i: nat)
    ensures SlotStep(m, lo, free, views, m', free', views', i) ==> |m'| == |m|
  {
    && |m'| == |m| && FreeOk(m', lo, free')
    && (forall j :: j != i ==> (j in views' <==> j in views) && (j in views ==> views'[j] == views[j]))
    && (forall q: nat :: Holding(free', views', i, q) <==> Holding(free, views, i, q))
    && (forall q: nat :: q < |m| && !Holding(free, views, i, q) ==> m'[q] == m[q])
    && (i in views' ==> ViewOk(m', lo, free', views'[i]))
  }

  ghost predicate SameMemory(m: Memory, m': Memory, w: View) {
    forall a: nat :: UserByte(m', w.space, a) == UserByte(m, w.space, a)
  }

  /** Every process but i has the view and the bytes it had. */
  ghost predicate OthersSame(m: Memory, views: map<nat, View>, m': Memory, views': map<nat, View>, i: nat) {
    forall j :: j in views && j != i ==> j in views' && views'[j] == views[j] && SameMemory(m, m', views[j])
  }

  /** A process none of whose pages changed or went free. */
  lemma ViewKept(m: Memory, lo: nat, free: seq<nat>, m': Memory, free': seq<nat>, w: View)
    requires ViewOk(m, lo, free, w) && |m'| == |m| && FreeOk(m', lo, free')
    requires forall q: nat :: Owns(w, q) ==> q !in free' && (q < |m| ==> m'[q] == m[q])
    ensures ViewOk(m', lo, free', w) && SameMemory(m, m', w)
  {
    hide Represents, Nested, Distinct, PageOf, IsUser, ProcessSpace;
    assert forall n :: n in w.space.tables ==> IsTable(w.space, w.space.tables[n]);
    assert forall v :: IsUserLeaf(w.space, v) ==> IsUserPage(w.space, PageOf(w.space, v));
    FrameTables(m, m', w.space);
    forall a: nat ensures UserByte(m', w.space, a) == UserByte(m, w.space, a) {
      if AccessibleByte(w.space, a) {
        UserPage(m, lo, free, w.space, w.sz, a / PGSIZE);
      }
    }
  }

  lemma OtherKept(m: Memory, lo: nat, free: seq<nat>, views: map<nat, View>, others: set<nat>,
                  m': Memory, free': seq<nat>, views': map<nat, View>, i: nat, j: nat)
    requires SystemOk(m, lo, free, views, others) && SlotStep(m, lo, free, views, m', free', views', i)
    requires j in views && j != i
    ensures ViewOk(m', lo, free', views[j]) && SameMemory(m, m', views[j])
  {
    hide ViewOk, SameMemory, FreeOk;
    var w := views[j];
    forall q: nat | Owns(w, q) ensures q !in free' && (q < |m| ==> m'[q] == m[q]) {
      assert Taken(views, q);
      assert !Holding(free, views, i, q);
    }
    ViewKept(m, lo, free, m', free', w);
  }

  ghost predicate TakenElsewhere(views: map<nat, View>, i: nat, q: nat) {
    exists j :: j in views && j != i && Owns(views[j], q)
  }

  lemma OwnNotFree(m: Memory, lo: nat, free: seq<nat>, w: View, q: nat)
    requires ViewOk(m, lo, free, w) && Owns(w, q)
    ensures q !in free
  {
  }

  /** Who has q after the step: process i, or the process that had it. */
  lemma TakenAfter(m: Memory, lo: nat, free: seq<nat>, views: map<nat, View>, others: set<nat>,
                   m': Memory, free': seq<nat>, views': map<nat, View>, i: nat, q: nat)
    requires SystemOk(m, lo, free, views, others) && SlotStep(m, lo, free, views, m', free', views', i)
    ensures Taken(views', q) || q in free' <==> Taken(views, q) || q in free
    ensures TakenElsewhere(views, i, q) ==> !Holding(free', views', i, q)
    ensures TakenElsewhere(views', i, q) <==> TakenElsewhere(views, i, q)
  {
    hide FreeOk, ViewOk, Owns;
    assert Holding(free', views', i, q) <==> Holding(free, views, i, q);
    if TakenElsewhere(views, i, q) {
      var j :| j in views && j != i && Owns(views[j], q);
      assert Taken(views, q) && j in views' && views'[j] == views[j];
    }
    if TakenElsewhere(views', i, q) {
      var j :| j in views' && j != i && Owns(views'[j], q);
      assert j in views && views'[j] == views[j];
    }
    assert Taken(views, q) <==> TakenElsewhere(views, i, q) || (i in views && Owns(views[i], q));
    assert Taken(views', q) <==> TakenElsewhere(views', i, q) || (i in views' && Owns(views'[i], q));
  }

  lemma StillAccounted(m: Memory, lo: nat, free: seq<nat>, views: map<nat, View>, others: set<nat>,
                       m': Memory, free': seq<nat>, views': map<nat, View>, i: nat)
    requires SystemOk(m, lo, free, views, others) && SlotStep(m, lo, free, views, m', free', views', i)
    ensures Accounted(m', lo, free', views', others)
  {
    hide FreeOk, ViewOk, Owns;
    forall q: nat
      ensures Taken(views', q) || q in free' <==> Taken(views, q) || q in free
      ensures q in free' ==> !Taken(views', q)
    {
      TakenAfter(m, lo, free, views, others, m', free', views', i, q);
      if q in free' && i in views' && Owns(views'[i], q) {
        OwnNotFree(m', lo, free', views'[i], q);
      }
    }
  }

  lemma StillDisjoint(m: Memory, lo: nat, free: seq<nat>, views: map<nat, View>, others: set<nat>,
                      m': Memory, free': seq<nat>, views': map<nat, View>, i: nat)
    requires SystemOk(m, lo, free, views, others) && SlotStep(m, lo, free, views, m', free', views', i)
    ensures Disjoint(views')
  {
    hide FreeOk, ViewOk, Owns;
    forall j, k, q: nat | j in views' && k in views' && Owns(views'[j], q) && Owns(views'[k], q) ensures j == k {
      TakenAfter(m, lo, free, views, others, m', free', views', i, q);
    }
  }

  /** Such a step keeps every page accounted for, and the other processes as they are. */
  lemma SlotStepKeeps(m: Memory, lo: nat, free: seq<nat>, views: map<nat, View>, others: set<nat>,
                      m': Memory, free': seq<nat>, views': map<nat, View>, i: nat)
    requires SystemOk(m, lo, free, views, others) && SlotStep(m, lo, free, views, m', free', views', i)
    ensures SystemOk(m', lo, free', views', others) && OthersSame(m, views, m', views', i)
  {
    hide ViewOk, SameMemory, FreeOk, Accounted, Disjoint, Owns, Holding;
    forall j | j in views && j != i ensures ViewOk(m', lo, free', views[j]) && SameMemory(m, m', views[j]) {
      OtherKept(m, lo, free, views, others, m', free', views', i, j);
    }
    StillAccounted(m, lo, free, views, others, m', free', views', i);
    StillDisjoint(m, lo, free, views, others, m', free', views', i);
  }

  // ---------- what each operation is to the whole ----------

  /** An operation that conserves the pages of the process's address space. */
  lemma ConservingStep(m: Memory, lo: nat, free: seq<nat>, views: map<nat, View>,
                       m': Memory, free': seq<nat>, t': Space, sz': nat, i: nat)
    requires i in views && ViewOk(m, lo, free, views[i]) && Conserves(m, free, views[i].space, m', free', t')
    requires Proper(m', lo, free', t') && UserOk(m', lo, free', t') && ProcessSpace(t', sz')
    ensures SlotStep(m, lo, free, views, m', free', views[i := View(t', sz', views[i].trapframe)], i)
  {
    hide Proper, UserOk, ProcessSpace, FreeOk, Holding;
    var w := views[i];
    assert !Held(free, w.space, w.trapframe);
    assert !Held(free', t', w.trapframe);
    hide Held;
    HoldingIs(free, views, i);
    HoldingIs(free', views[i := View(t', sz', w.trapframe)], i);
  }

  lemma HoldingIs(free: seq<nat>, views: map<nat, View>, i: nat)
    requires i in views
    ensures forall q: nat :: Holding(free, views, i, q) <==> Held(free, views[i].space, q) || q == views[i].trapframe
  {
  }

  /** Stores into the process's own user pages. */
  lemma StoringStep(m: Memory, lo: nat, free: seq<nat>, views: map<nat, View>, m': Memory, i: nat)
    requires i in views && ViewOk(m, lo, free, views[i]) && OnlyUserPages(m, views[i].space, m')
    requires Proper(m', lo, free, views[i].space) && UserOk(m', lo, free, views[i].space)
    ensures SlotStep(m, lo, free, views, m', free, views, i)
  {
    hide Proper, UserOk, ProcessSpace, IsTable, IsUserPage, FreeOk;
  }

  lemma HeadOfFree(m: Memory, lo: nat, free: seq<nat>, p: nat, rest: seq<nat>)
    requires FreeOk(m, lo, free) && free == [p] + rest
    ensures lo <= p < |m| && p !in rest
  {
    assert forall k :: 0 <= k < |rest| ==> rest[k] == free[k + 1] != free[0];
    assert lo <= free[0] < |m|;
  }

  /** A trapframe page and an address space made of free pages. */
  lemma BornStep(m: Memory, lo: nat, free: seq<nat>, views: map<nat, View>, free1: seq<nat>,
                 m': Memory, free': seq<nat>, w: View, i: nat)
    requires FreeOk(m, lo, free) && i !in views && |m'| == |m| && free == [w.trapframe] + free1
    requires forall q: nat :: Held(free', w.space, q) <==> q in free1
    requires forall q: nat :: q < |m| && q !in free ==> m'[q] == m[q]
    requires Proper(m', lo, free', w.space) && UserOk(m', lo, free', w.space) && ProcessSpace(w.space, w.sz)
    ensures SlotStep(m, lo, free, views, m', free', views[i := w], i)
  {
    hide Proper, UserOk, ProcessSpace, IsTable, IsUserPage, FreeOk;
    HeadOfFree(m, lo, free, w.trapframe, free1);
    assert !Held(free', w.space, w.trapframe);
    assert forall q: nat :: Holding(free, views, i, q) <==> q == w.trapframe || q in free1;
    assert forall q: nat :: Holding(free', views[i := w], i, q) <==> q == w.trapframe || Held(free', w.space, q);
  }

  /** An allocation that fell through: the free list is reordered, at most. */
  lemma NoStep(m: Memory, lo: nat, free: seq<nat>, views: map<nat, View>, m': Memory, free': seq<nat>, i: nat)
    requires i !in views && |m'| == |m| && FreeOk(m', lo, free') && forall q: nat :: q in free' <==> q in free
    requires forall q: nat :: q < |m| && q !in free ==> m'[q] == m[q]
    ensures SlotStep(m, lo, free, views, m', free', views, i)
  {
    hide FreeOk;
  }

  /** The process gives back its trapframe page, then everything else. */
  lemma FreedStep(m: Memory, lo: nat, free: seq<nat>, views: map<nat, View>, m1: Memory, m': Memory, free': seq<nat>,
                  i: nat)
    requires i in views && ViewOk(m, lo, free, views[i]) && FreeOk(m', lo, free')
    requires |m1| == |m| && forall q :: 0 <= q < |m| && q != views[i].trapframe ==> m1[q] == m[q]
    requires EverythingFree(m1, [views[i].trapframe] + free, views[i].space, m', free')
    ensures SlotStep(m, lo, free, views, m', free', views - {i}, i)
  {
    hide Proper, UserOk, ProcessSpace, IsTable, IsUserPage, FreeOk;
    assert forall q: nat :: Holding(free, views, i, q) <==> Held([views[i].trapframe] + free, views[i].space, q);
  }

  /** Once the trapframe page is free, the address space is still in order. */
  lemma TrapframeFreed(m: Memory, lo: nat, free: seq<nat>, w: View, junk: Page)
    requires ViewOk(m, lo, free, w)
    ensures Proper(m[w.trapframe := junk], lo, [w.trapframe] + free, w.space)
    ensures UserOk(m[w.trapframe := junk], lo, [w.trapframe] + free, w.space)
  {
    hide Proper, ProcessSpace, PageOf;
    PushFree(m, lo, free, w.space, w.trapframe, junk);
    assert forall v :: IsUserLeaf(w.space, v) ==> IsUserPage(w.space, PageOf(w.space, v));
  }

  lemma OneOwner(m: Memory, lo: nat, free: seq<nat>, views: map<nat, View>, others: set<nat>)
    requires SystemOk(m, lo, free, views, others)
    ensures forall q: nat :: lo <= q < |m| ==> Count(q in free) + Count(q in others) + Count(Taken(views, q)) == 1
    ensures views == map[] ==> forall q: nat :: q in free <==> lo <= q < |m| && q !in others
  {
    hide FreeOk, ViewOk, Disjoint, Owns;
    assert views == map[] ==> forall q: nat :: !Taken(views, q);
  }

  // ---------- what each call does ----------

  type int32 = n: int | -0x8000_0000 <= n < 0x8000_0000

  /** A call about a slot that is not in use does nothing and returns -1. */
  datatype Call =
    | Alloc
    | Fork(i: nat)
    | Grow(i: nat, n: int32)
    | Store(i: nat, dstva: nat, src: seq<Byte>)
    | Free(i: nat)

  datatype Snapshot = Snapshot(trampoline: nat, pages: Memory, free: seq<nat>, views: map<nat, View>)

  /** The trampoline with valid, R and X, the process's trapframe page with valid, R and W, both without U. */
  ghost predicate HasSystemPages(trampoline: nat, w: View) {
    && TRAMPOLINE in w.space.leaf && w.space.leaf[TRAMPOLINE] == 1024 * trampoline + 8 + 2 + 1
    && TRAPFRAME in w.space.leaf && w.space.leaf[TRAPFRAME] == 1024 * w.trapframe + 4 + 2 + 1
  }

  /** The lowest slot not in use, NPROC if all are. */
  ghost function Lowest(views: map<nat, View>, from: nat): (i: nat)
    requires from <= NPROC
    ensures from <= i <= NPROC && (forall j :: from <= j < i ==> j in views) && (i < NPROC ==> i !in views)
    decreases NPROC - from
  {
    if from == NPROC || from !in views then from else Lowest(views, from + 1)
  }

  /** No process has changed, though the free list may be in another order. */
  ghost predicate NobodyChanged(s: Snapshot, s': Snapshot) {
    s'.views == s.views && OthersSame(s.pages, s.views, s'.pages, s'.views, NPROC)
  }

  /** Slot i, the lowest unused one, has a new process of that size; everybody else is as before. */
  ghost predicate Added(s: Snapshot, s': Snapshot, i: nat, sz: nat) {
    && i == Lowest(s.views, 0) < NPROC && i in s'.views && s'.views == s.views[i := s'.views[i]]
    && s'.views[i].sz == sz && OthersSame(s.pages, s.views, s'.pages, s'.views, NPROC)
    && HasSystemPages(s.trampoline, s'.views[i])
  }

  ghost predicate Allocated(s: Snapshot, r: int, s': Snapshot) {
    if r == -1 then NobodyChanged(s, s') && (|s.free| < 6 || Lowest(s.views, 0) == NPROC)
    else r >= 0 && Added(s, s', r, 0) && |s'.free| + 6 >= |s.free|
  }

  /** The child reads what the parent reads; without one, slots or pages were short. */
  ghost predicate Forked(s: Snapshot, i: nat, r: int, s': Snapshot)
    requires i in s.views
  {
    if r == -1 then
      NobodyChanged(s, s') && (Lowest(s.views, 0) == NPROC || |s.free| < 6 + 3 * PageUp(s.views[i].sz))
    else
      && r >= 0 && Added(s, s', r, s.views[i].sz)
      && SameReads(s'.pages, s'.views[r].space, s.views[i].space, s.views[i].sz)
  }

  /** Process i alone may have another space and another size; pages that stay are mapped as they were. */
  ghost predicate OneChanges(s: Snapshot, i: nat, s': Snapshot)
    requires i in s.views
  {
    && i in s'.views && s'.views == s.views[i := s'.views[i]] && s'.views[i].trapframe == s.views[i].trapframe
    && var t, t' := s.views[i].space.leaf, s'.views[i].space.leaf;
    && (forall v :: v in t' && v in t ==> t'[v] == t[v])
    && OthersSame(s.pages, s.views, s'.pages, s'.views, i)
  }

  /**
   Bytes below both sizes stay, new pages are zero and can be read and written; it fails only for lack of
   pages, and then changes nothing.
   */
  ghost predicate Grew(s: Snapshot, i: nat, n: int, r: int, s': Snapshot)
    requires i in s.views
  {
    && OneChanges(s, i, s') && (r == 0 || r == -1)
    && var w, w' := s.views[i], s'.views[i];
    && w'.sz == (if r == -1 || w.sz + n < 0 then w.sz else w.sz + n)
    && (r == -1 ==> n > 0 && |s.free| < 3 * (PageUp(w.sz + n) - PageUp(w.sz)))
    && (forall a: nat :: a < w.sz && a < w'.sz ==> UserByte(s'.pages, w'.space, a) == UserByte(s.pages, w.space, a))
    && (forall a: nat :: PageUp(w.sz) * PGSIZE <= a < w'.sz ==>
          AccessibleByte(w'.space, a) && UserByte(s'.pages, w'.space, a) == 0)
    && (forall v :: PageUp(w.sz) <= v < PageUp(w'.sz) ==> v in w'.space.leaf && HeapEntry(w'.space.leaf[v]))
  }

  /** The first r bytes of src are stored, up to the first byte that is not accessible. */
  ghost predicate StoredTo(s: Snapshot, i: nat, dstva: nat, src: seq<Byte>, r: int, s': Snapshot)
    requires i in s.views
  {
    && s'.views == s.views && 0 <= r <= |src| && OthersSame(s.pages, s.views, s'.pages, s'.views, i)
    && var t := s.views[i].space;
    && (r < |src| ==> !AccessibleByte(t, dstva + r))
    && (forall a: nat :: UserByte(s'.pages, t, a) ==
          if dstva <= a < dstva + r then src[a - dstva] else UserByte(s.pages, t, a))
  }

  /** Process i is gone, and exactly its pages have joined the free list. */
  ghost predicate Freed(s: Snapshot, i: nat, s': Snapshot)
    requires i in s.views
  {
    && s'.views == s.views - {i} && OthersSame(s.pages, s.views, s'.pages, s'.views, i)
    && forall q: nat :: q in s'.free <==> q in s.free || Owns(s.views[i], q)
  }

  /** What call c with result r has done. */
  ghost predicate Did(s: Snapshot, c: Call, r: int, s': Snapshot) {
    && s'.trampoline == s.trampoline
    && match c
    case Alloc => Allocated(s, r, s')
    case Fork(i) => if i in s.views then Forked(s, i, r, s') else r == -1 && s' == s
    case Grow(i, n) => if i in s.views then Grew(s, i, n, r, s') else r == -1 && s' == s
    case Store(i, va, src) => if i in s.views then StoredTo(s, i, va, src, r, s') else r == -1 && s' == s
    case Free(i) => if i in s.views then r == 0 && Freed(s, i, s') else r == -1 && s' == s
  }

  ghost predicate SnapshotOk(s: Snapshot, lo: nat, others: set<nat>) {
    SystemOk(s.pages, lo, s.free, s.views, others) && forall i :: i in s.views ==> i < NPROC
  }

  /** trace[k] is the system before calls[k], which returned rets[k]. */
  ghost predicate IsTrace(trace: seq<Snapshot>, calls: seq<Call>, rets: seq<int>, lo: nat, others: set<nat>) {
    && |trace| == |calls| + 1 && |rets| == |calls|
    && (forall k :: 0 <= k < |trace| ==> SnapshotOk(trace[k], lo, others))
    && (forall k, m :: 0 <= k < |calls| && m == k + 1 ==> Did(trace[k], calls[k], rets[k], trace[m]))
  }

  /** A call that can change the memory of process j. */
  predicate About(c: Call, j: nat) {
    (c.Grow? || c.Store? || c.Free?) && c.i == j
  }

  lemma CallIsolates(s: Snapshot, c: Call, r: int, s': Snapshot, j: nat)
    requires Did(s, c, r, s') && j in s.views && j < NPROC && !About(c, j)
    ensures j in s'.views && s'.views[j] == s.views[j] && SameMemory(s.pages, s'.pages, s.views[j])
  {
    hide SameMemory, UserByte, PageUp, Owns, SameReads;
    SelfSame(s.pages, s.views[j]);
  }

  lemma SelfSame(m: Memory, w: View)
    ensures SameMemory(m, m, w)
  {
  }

  /** In every run every process has its system pages mapped, its trapframe page among them. */
  lemma {:induction false} RunKeepsSystemPages(trace: seq<Snapshot>, calls: seq<Call>, rets: seq<int>, lo: nat,
                                               others: set<nat>, n: nat)
    requires IsTrace(trace, calls, rets, lo, others) && n <= |calls|
    requires forall i :: i in trace[0].views ==> HasSystemPages(trace[0].trampoline, trace[0].views[i])
    ensures trace[n].trampoline == trace[0].trampoline
    ensures forall i :: i in trace[n].views ==> HasSystemPages(trace[0].trampoline, trace[n].views[i])
  {
    hide SystemOk, Did, HasSystemPages;
    if n > 0 {
      RunKeepsSystemPages(trace, calls, rets, lo, others, n - 1);
      assert Did(trace[n - 1], calls[n - 1], rets[n - 1], trace[n]);
      assert SnapshotOk(trace[n - 1], lo, others) && SnapshotOk(trace[n], lo, others);
      CallKeepsSystemPages(trace[n - 1], calls[n - 1], rets[n - 1], trace[n], lo, others);
    }
  }

  lemma CallKeepsSystemPages(s: Snapshot, c: Call, r: int, s': Snapshot, lo: nat, others: set<nat>)
    requires Did(s, c, r, s') && SnapshotOk(s, lo, others) && SnapshotOk(s', lo, others)
    requires forall i :: i in s.views ==> HasSystemPages(s.trampoline, s.views[i])
    ensures s'.trampoline == s.trampoline
    ensures forall i :: i in s'.views ==> HasSystemPages(s.trampoline, s'.views[i])
  {
    hide SystemOk, OthersSame, UserByte, PageUp, Owns, SameReads, HeapEntry;
    if c.Grow? && c.i in s.views {
      StaysMapped(s', lo, others, c.i);
    }
  }

  lemma StaysMapped(s: Snapshot, lo: nat, others: set<nat>, i: nat)
    requires SnapshotOk(s, lo, others) && i in s.views
    ensures TRAMPOLINE in s.views[i].space.leaf && TRAPFRAME in s.views[i].space.leaf
  {
    SystemView(s.pages, lo, s.free, s.views, others, i);
  }

  /** Over any calls that are not about process j, it keeps its space, its size and every byte. */
  lemma {:induction false} RunIsolates(trace: seq<Snapshot>, calls: seq<Call>, rets: seq<int>, lo: nat,
                                       others: set<nat>, j: nat, a: nat, b: nat)
    requires IsTrace(trace, calls, rets, lo, others) && a <= b <= |calls| && j in trace[a].views
    requires forall k :: a <= k < b ==> !About(calls[k], j)
    ensures j in trace[b].views && trace[b].views[j] == trace[a].views[j]
    ensures SameMemory(trace[a].pages, trace[b].pages, trace[a].views[j])
    decreases b
  {
    hide SystemOk, Did, UserByte;
    assert SnapshotOk(trace[a], lo, others);
    if a < b {
      RunIsolates(trace, calls, rets, lo, others, j, a, b - 1);
      assert Did(trace[b - 1], calls[b - 1], rets[b - 1], trace[b]);
      CallIsolates(trace[b - 1], calls[b - 1], rets[b - 1], trace[b], j);
    }
  }

  class MemorySystem {

    const kernel: Kernel
    const trampoline: nat
    ghost const others: set<nat>
    var procs: seq<Process?>

    ghost function Views(): (views: map<nat, View>)
      reads this, procs
    {
      map i: nat | i < |procs| && procs[i] != null :: View(procs[i].space, procs[i].sz, procs[i].trapframe)
    }

    ghost function Snap(): Snapshot
      reads this, procs, kernel
    {
      Snapshot(trampoline, kernel.pages, kernel.free, Views())
    }

    ghost predicate Valid()
      reads this, procs, kernel
    {
      && Table() && 0 < kernel.lo && 2 * |kernel.pages| < USERTOP
      && SystemOk(kernel.pages, kernel.lo, kernel.free, Views(), others)
    }

    ghost predicate Table()
      reads this, procs
    {
      && |procs| == NPROC
      && (forall i, j :: 0 <= i < j < NPROC && procs[i] != null ==> procs[i] != procs[j])
      && (forall i :: 0 <= i < NPROC && procs[i] != null ==> InTable(procs[i]))
    }

    /** Only the process in slot i has changed. */
    twostate lemma OneChanged(i: nat)
      requires old(Table()) && procs == old(procs) && i < NPROC && procs[i] != null && InTable(procs[i])
      requires forall j :: 0 <= j < NPROC && j != i && procs[j] != null ==> unchanged(procs[j])
      ensures Table() && Views() == old(Views())[i := View(procs[i].space, procs[i].sz, procs[i].trapframe)]
    {
    }

    ghost predicate InTable(p: Process)
      reads p
    {
      p.kernel == kernel && ROOT in p.space.tables && p.pagetable == p.space.tables[ROOT]
    }

    /** No processes yet: what is not free belongs to the rest of the kernel. */
    constructor (k: Kernel, trampoline: nat)
      requires 0 < k.lo && FreeOk(k.pages, k.lo, k.free) && 2 * |k.pages| < USERTOP
      ensures Valid() && kernel == k && Views() == map[]
    {
      kernel, this.trampoline := k, trampoline;
      others := set q | k.lo <= q < |k.pages| && q !in k.free;
      procs := seq(NPROC, i => null);
    }

    /** growproc for process i. */
    method Growproc(i: nat, n: int) returns (r: int)
      requires Valid() && i < NPROC && procs[i] != null && -0x8000_0000 <= n < 0x8000_0000
      modifies kernel, procs[i]
      ensures Valid() && |kernel.pages| == old(|kernel.pages|)
      ensures Grew(old(Snap()), i, n, r, Snap())
    {
      hide SystemOk, OthersSame, ViewOk, SlotStep, Proper, UserOk, ProcessSpace, Conserves, UserByte, PageUp;
      hide FreeOk, Represents, Nested, Distinct, Accessible, IsUser;
      ghost var m, free, views := kernel.pages, kernel.free, Views();
      SystemView(m, kernel.lo, free, views, others, i);
      var p := procs[i];
      r := p.Growproc(n);
      ConservingStep(m, kernel.lo, free, views, kernel.pages, kernel.free, p.space, p.sz, i);
      OneChanged(i);
      SlotStepKeeps(m, kernel.lo, free, views, others, kernel.pages, kernel.free, Views(), i);
    }

    /** copyout to process i: n bytes are stored, all of them or up to the first inaccessible one. */
    method Copyout(i: nat, dstva: nat, src: seq<Byte>) returns (ok: bool, n: nat)
      requires Valid() && i < NPROC && procs[i] != null
      modifies kernel
      ensures Valid() && |kernel.pages| == old(|kernel.pages|)
      ensures (ok <==> n == |src|) && StoredTo(old(Snap()), i, dstva, src, n, Snap())
    {
      hide SystemOk, OthersSame, ViewOk, SlotStep, Proper, UserOk, ProcessSpace, OnlyUserPages, UserByte;
      ghost var m, free, views := kernel.pages, kernel.free, Views();
      SystemView(m, kernel.lo, free, views, others, i);
      ok, n := procs[i].Copyout(dstva, src);
      StoringStep(m, kernel.lo, free, views, kernel.pages, i);
      SlotStepKeeps(m, kernel.lo, free, views, others, kernel.pages, kernel.free, Views(), i);
    }

    /** The memory of allocproc for slot i: a trapframe page and a page table, or everything as before. */
    method Allocate(i: nat) returns (ok: bool)
      requires Valid() && i < NPROC && procs[i] == null
      modifies this, kernel
      ensures Valid() && |kernel.pages| == old(|kernel.pages|)
      ensures !ok ==> |old(kernel.free)| < 6 && procs == old(procs)
      ensures ok ==> procs == old(procs)[i := procs[i]] && procs[i] != null && fresh(procs[i]) && procs[i].sz == 0
      ensures ok ==> |old(kernel.free)| <= |kernel.free| + 6 && Views() == old(Views())[i := Views()[i]]
      ensures ok ==> HasSystemPages(trampoline, Views()[i])
      ensures OthersSame(old(kernel.pages), old(Views()), kernel.pages, Views(), NPROC)
    {
      hide SystemOk, OthersSame, ViewOk, SlotStep, Proper, UserOk, ProcessSpace, Held, FreeOk, MakePte;
      ghost var m, free, views := kernel.pages, kernel.free, Views();
      var p: Process?;
      p := NewProcess(views, i);
      ok := p != null;
      if ok {
        procs := procs[i := p];
        assert Views() == views[i := View(p.space, p.sz, p.trapframe)];
      }
      SlotStepKeeps(m, kernel.lo, free, views, others, kernel.pages, kernel.free, Views(), i);
      NobodyElse(m, views, kernel.pages, Views(), i);
    }

    /** allocproc: the lowest unused slot, or -1 if there is none or memory is short. */
    method Allocproc() returns (i: int)
      requires Valid()
      modifies this, kernel
      ensures Valid() && |kernel.pages| == old(|kernel.pages|)
      ensures -1 <= i < NPROC && Allocated(old(Snap()), i, Snap())
      ensures i == -1 ==> procs == old(procs)
      ensures i != -1 ==> old(procs[i]) == null && procs == old(procs)[i := procs[i]] && procs[i] != null
      ensures i != -1 ==> fresh(procs[i]) && procs[i].sz == 0
    {
      hide SystemOk, OthersSame, HasSystemPages;
      var k := 0;
      while k < NPROC
        invariant 0 <= k <= NPROC && Lowest(Views(), 0) == Lowest(Views(), k)
      {
        if procs[k] == null {
          var ok := Allocate(k);
          return if ok then k else -1;
        }
        k := k + 1;
      }
      NothingChanged(kernel.pages, Views());
      return -1;
    }

    /** freeproc: the trapframe page and everything else of process i go back; it never panics. */
    method Freeproc(i: nat) returns (ok: bool)
      requires Valid() && i < NPROC && procs[i] != null
      modifies this, kernel
      ensures Valid() && |kernel.pages| == old(|kernel.pages|)
      ensures ok && procs == old(procs)[i := null] && Freed(old(Snap()), i, Snap())
    {
      hide SystemOk, OthersSame, ViewOk, SlotStep, Proper, UserOk, ProcessSpace, FreeOk, Owns;
      ghost var m, free, views := kernel.pages, kernel.free, Views();
      SystemView(m, kernel.lo, free, views, others, i);
      ok := FreeMemory(procs[i], views, i);
      procs := procs[i := null];
      assert Views() == views - {i};
      SlotStepKeeps(m, kernel.lo, free, views, others, kernel.pages, kernel.free, Views(), i);
      GaveAll(m, kernel.lo, free, views, kernel.pages, kernel.free, Views(), i);
    }

    method FreeMemory(p: Process, ghost views: map<nat, View>, ghost i: nat) returns (ok: bool)
      requires InTable(p) && 0 < kernel.lo && i in views && views[i] == View(p.space, p.sz, p.trapframe)
      requires ViewOk(kernel.pages, kernel.lo, kernel.free, views[i])
      modifies kernel
      ensures ok
      ensures SlotStep(old(kernel.pages), kernel.lo, old(kernel.free), views, kernel.pages, kernel.free, views - {i}, i)
    {
      ghost var m, free := kernel.pages, kernel.free;
      TrapframeFreed(m, kernel.lo, free, views[i], Filled(1));
      hide SlotStep, Proper, UserOk, ProcessSpace, EverythingFree, FreeOk;
      ok := kernel.Kfree(p.trapframe);
      ghost var m1 := kernel.pages;
      ok := p.Free();
      FreedStep(m, kernel.lo, free, views, m1, kernel.pages, kernel.free, i);
    }

    /** The memory of fork: a child of process i with the same bytes, or -1 and everything as before. */
    method Fork(i: nat) returns (j: int)
      requires Valid() && i < NPROC && procs[i] != null
      modifies this, kernel
      ensures Valid() && |kernel.pages| == old(|kernel.pages|)
      ensures -1 <= j < NPROC && Forked(old(Snap()), i, j, Snap())
      ensures j == -1 ==> procs == old(procs)
      ensures j != -1 ==> procs == old(procs)[j := procs[j]] && procs[j] != null && fresh(procs[j])
    {
      hide SystemOk, Allocated, OneChanges, Freed, Forked, SameReads, PageUp, HasSystemPages;
      ghost var s := Snap();
      j := Allocproc();
      if j == -1 {
        ForkWithout(s, i, Snap());
        return;
      }
      ghost var s1 := Snap();
      var copied := CopyMemory(i, j);
      ghost var s2 := Snap();
      if copied {
        ForkDone(s, i, j, s1, s2);
        return;
      }
      var ok := Freeproc(j);
      ForkUndone(s, i, j, s1, s2, Snap());
      assert procs == old(procs);
      j := -1;
    }

    /** uvmcopy from process i to the new process j, whose size is set on success. */
    method CopyMemory(i: nat, j: nat) returns (ok: bool)
      requires Valid() && i < NPROC && j < NPROC && i != j && procs[i] != null && procs[j] != null && procs[j].sz == 0
      modifies kernel, procs[j]
      ensures Valid() && |kernel.pages| == old(|kernel.pages|)
      ensures OneChanges(old(Snap()), j, Snap())
      ensures HasSystemPages(trampoline, old(Views()[j])) ==> HasSystemPages(trampoline, Views()[j])
      ensures procs[j].sz == (if ok then procs[i].sz else 0) && (!ok ==> |old(kernel.free)| < 3 * PageUp(procs[i].sz))
      ensures ok ==> SameReads(kernel.pages, procs[j].space, procs[i].space, procs[i].sz)
    {
      hide SystemOk, OthersSame, ViewOk, SlotStep, Proper, UserOk, ProcessSpace, Conserves, Apart, SameReads, PageUp;
      ghost var m, free, views := kernel.pages, kernel.free, Views();
      SystemView(m, kernel.lo, free, views, others, i);
      SystemView(m, kernel.lo, free, views, others, j);
      ApartViews(m, kernel.lo, free, views, others, i, j);
      var np := procs[j];
      ok := np.CopyFrom(procs[i]);
      ConservingStep(m, kernel.lo, free, views, kernel.pages, kernel.free, np.space, np.sz, j);
      OneChanged(j);
      SlotStepKeeps(m, kernel.lo, free, views, others, kernel.pages, kernel.free, Views(), j);
    }

    method Do(c: Call) returns (r: int)
      requires Valid()
      modifies this, kernel, procs
      ensures Valid() && |kernel.pages| == old(|kernel.pages|) && Did(old(Snap()), c, r, Snap())
      ensures forall i :: 0 <= i < NPROC && procs[i] != null ==> procs[i] in old(procs) || fresh(procs[i])
    {
      hide SystemOk, Allocated, Forked, Grew, StoredTo, Freed;
      r := -1;
      match c {
        case Alloc =>
          r := Allocproc();
        case Fork(i) =>
          if i < NPROC && procs[i] != null {
            r := Fork(i);
          }
        case Grow(i, n) =>
          if i < NPROC && procs[i] != null {
            r := Growproc(i, n);
          }
        case Store(i, va, src) =>
          if i < NPROC && procs[i] != null {
            var ok, n := Copyout(i, va, src);
            r := n;
          }
        case Free(i) =>
          if i < NPROC && procs[i] != null {
            var ok := Freeproc(i);
            r := 0;
          }
      }
    }

    /**
     Any calls in any order. Each does what its contract says, every page has one owner before and
     after each of them, and once the processes are gone all pages but the kernel's own are free.
     */
    method Run(calls: seq<Call>) returns (rets: seq<int>, ghost trace: seq<Snapshot>)
      requires Valid()
      modifies this, kernel, procs
      ensures Valid() && |kernel.pages| == old(|kernel.pages|)
      ensures IsTrace(trace, calls, rets, kernel.lo, others) && trace[0] == old(Snap()) && trace[|calls|] == Snap()
      ensures forall q: nat :: kernel.lo <= q < |kernel.pages| ==>
                Count(q in kernel.free) + Count(q in others) + Count(Taken(Views(), q)) == 1
      ensures Views() == map[] ==>
        forall q: nat :: q in kernel.free <==> kernel.lo <= q < |kernel.pages| && q !in others
    {
      hide SystemOk, Did;
      rets, trace := [], [Snap()];
      for k := 0 to |calls|
        invariant Valid() && |kernel.pages| == old(|kernel.pages|)
        invariant forall i :: 0 <= i < NPROC && procs[i] != null ==> procs[i] in old(procs) || fresh(procs[i])
        invariant IsTrace(trace, calls[..k], rets, kernel.lo, others) && trace[0] == old(Snap()) && trace[k] == Snap()
      {
        var r := Do(calls[k]);
        TraceGrows(trace, calls, rets, kernel.lo, others, k, r, Snap());
        rets, trace := rets + [r], trace + [Snap()];
      }
      assert calls[..|calls|] == calls;
      OneOwner(kernel.pages, kernel.lo, kernel.free, Views(), others);
    }

    method NewProcess(ghost views: map<nat, View>, ghost i: nat) returns (p: Process?)
      requires 0 < kernel.lo && FreeOk(kernel.pages, kernel.lo, kernel.free) && i !in views
      modifies kernel
      ensures if p == null then |old(kernel.free)| < 6 else |old(kernel.free)| <= |kernel.free| + 6
      ensures p == null ==>
        SlotStep(old(kernel.pages), kernel.lo, old(kernel.free), views, kernel.pages, kernel.free, views, i)
      ensures p != null ==> fresh(p) && p.sz == 0 && InTable(p)
      ensures p != null ==> HasSystemPages(trampoline, View(p.space, p.sz, p.trapframe))
      ensures p != null ==> SlotStep(old(kernel.pages), kernel.lo, old(kernel.free), views, kernel.pages, kernel.free,
                                     views[i := View(p.space, p.sz, p.trapframe)], i)
    {
      hide ViewOk, SlotStep, Proper, UserOk, ProcessSpace, Held, FreeOk, MakePte;
      ghost var m, free := kernel.pages, kernel.free;
      p := null;
      var trapframe := kernel.Kalloc();
      if trapframe == 0 {
        NoStep(m, kernel.lo, free, views, kernel.pages, kernel.free, i);
        return;
      }
      assert free == [trapframe] + kernel.free;
      ghost var free1 := kernel.free;
      var root;
      ghost var t;
      root, t := kernel.ProcPagetable(trampoline, trapframe);
      if root == 0 {
        PushedBack(m, kernel.pages, kernel.lo, free, free1, kernel.free, trapframe, Filled(1));
        var ok := kernel.Kfree(trapframe);
        NoStep(m, kernel.lo, free, views, kernel.pages, kernel.free, i);
        return;
      }
      p := new Process(kernel, trampoline, trapframe, root, t);
      SystemPagesMapped(trampoline, View(t, 0, trapframe));
      BornStep(m, kernel.lo, free, views, free1, kernel.pages, kernel.free, View(t, 0, trapframe), i);
    }
  }

  lemma SystemPagesMapped(trampoline: nat, w: View)
    requires w.space.leaf == SystemPages(trampoline, w.trapframe)
    ensures HasSystemPages(trampoline, w)
  {
  }

  lemma ForkWithout(s: Snapshot, i: nat, s1: Snapshot)
    requires i in s.views && Allocated(s, -1, s1)
    ensures Forked(s, i, -1, s1)
  {
  }

  /** allocproc, then a copy that succeeded. */
  lemma ForkDone(s: Snapshot, i: nat, j: nat, s1: Snapshot, s2: Snapshot)
    requires i in s.views && Allocated(s, j, s1) && j in s1.views && OneChanges(s1, j, s2)
    requires s2.views[j].sz == s.views[i].sz
    requires HasSystemPages(s.trampoline, s1.views[j]) ==> HasSystemPages(s.trampoline, s2.views[j])
    requires SameReads(s2.pages, s2.views[j].space, s.views[i].space, s.views[i].sz)
    ensures Forked(s, i, j, s2)
  {
    hide OthersSame, SameReads, HasSystemPages;
    OthersSameAgain(s.pages, s.views, s1.pages, s1.views, s2.pages, s2.views, j);
    assert s2.views == s.views[j := s2.views[j]];
  }

  /** allocproc, a copy for which pages were short, and freeproc. */
  lemma ForkUndone(s: Snapshot, i: nat, j: nat, s1: Snapshot, s2: Snapshot, s3: Snapshot)
    requires i in s.views && Allocated(s, j, s1) && j in s1.views && OneChanges(s1, j, s2) && Freed(s2, j, s3)
    requires |s1.free| < 3 * PageUp(s.views[i].sz)
    ensures Forked(s, i, -1, s3)
  {
    hide OthersSame, Owns, PageUp;
    OthersSameAgain(s.pages, s.views, s1.pages, s1.views, s2.pages, s2.views, j);
    OthersSameAgain(s.pages, s.views, s2.pages, s2.views, s3.pages, s3.views, j);
    assert s3.views == s.views;
  }

  lemma TraceGrows(trace: seq<Snapshot>, calls: seq<Call>, rets: seq<int>, lo: nat, others: set<nat>, k: nat, r: int,
                   s: Snapshot)
    requires k < |calls| && IsTrace(trace, calls[..k], rets, lo, others)
    requires SnapshotOk(s, lo, others) && Did(trace[k], calls[k], r, s)
    ensures IsTrace(trace + [s], calls[..k + 1], rets + [r], lo, others)
  {
    hide SnapshotOk, Did;
    var trace', rets' := trace + [s], rets + [r];
    forall i, m | 0 <= i < k + 1 && m == i + 1 ensures Did(trace'[i], calls[i], rets'[i], trace'[m]) {
      if i < k {
        assert Did(trace[i], calls[..k][i], rets[i], trace[m]);
      }
    }
  }

  lemma NothingChanged(m: Memory, views: map<nat, View>)
    ensures OthersSame(m, views, m, views, NPROC)
  {
  }

  lemma OthersSameAgain(m: Memory, views: map<nat, View>, m1: Memory, views1: map<nat, View>,
                        m2: Memory, views2: map<nat, View>, i: nat)
    requires OthersSame(m, views, m1, views1, NPROC) && OthersSame(m1, views1, m2, views2, i) && i !in views
    ensures OthersSame(m, views, m2, views2, NPROC)
  {
  }

  /** After such a step the free list has what it had and all that process i gave up. */
  lemma GaveAll(m: Memory, lo: nat, free: seq<nat>, views: map<nat, View>, m': Memory, free': seq<nat>, views': map<nat,
                View>, i: nat)
    requires SlotStep(m, lo, free, views, m', free', views', i) && i in views && i !in views'
    ensures forall q: nat :: q in free' <==> q in free || Owns(views[i], q)
  {
    assert forall q: nat :: Holding(free', views', i, q) <==> q in free';
  }

  /** Two processes share no page. */
  lemma ApartViews(m: Memory, lo: nat, free: seq<nat>, views: map<nat, View>, others: set<nat>, i: nat, j: nat)
    requires SystemOk(m, lo, free, views, others) && i in views && j in views && i != j
    ensures Apart(m, lo, free, views[j].space, views[i].space)
  {
    hide Proper, UserOk, ProcessSpace, IsTable, IsUserPage;
    forall q: nat | IsTable(views[i].space, q) || IsUserPage(views[i].space, q) ensures !Held(free, views[j].space, q) {
      assert Owns(views[i], q) && Taken(views, q);
      assert q !in free && !Owns(views[j], q);
    }
  }

  lemma PushedBack(m: Memory, m': Memory, lo: nat, free: seq<nat>, free1: seq<nat>, free2: seq<nat>, p: nat, junk: Page)
    requires FreeOk(m, lo, free) && free == [p] + free1 && |m'| == |m|
    requires FreeOk(m', lo, free2) && forall q :: q in free2 <==> q in free1
    ensures lo <= p < |m| && FreeOk(m'[p := junk], lo, [p] + free2)
  {
    HeadOfFree(m, lo, free, p, free1);
    PushOk(m', lo, free2, p, junk);
  }

  lemma NobodyElse(m: Memory, views: map<nat, View>, m': Memory, views': map<nat, View>, i: nat)
    requires OthersSame(m, views, m', views', i) && i !in views
    ensures OthersSame(m, views, m', views', NPROC)
  {
  }

  lemma SystemView(m: Memory, lo: nat, free: seq<nat>, views: map<nat, View>, others: set<nat>, i: nat)
    requires SystemOk(m, lo, free, views, others) && i in views
    ensures ViewOk(m, lo, free, views[i])
    ensures Proper(m, lo, free, views[i].space) && UserOk(m, lo, free, views[i].space)
    ensures ProcessSpace(views[i].space, views[i].sz)
  {
  }
}
