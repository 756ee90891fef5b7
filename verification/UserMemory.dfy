/**
 A process's memory as growproc, copyout and copyin see it: a size, and one byte per user
 address.
 */
module UserMemory {

  import opened Params
  import opened Modular
  import opened Sv39
  import opened PageOwnership
  import opened Teardown
  import opened VirtualMemory

  const WORD := 0x1_0000_0000_0000_0000  // uint64 arithmetic is modulo this

  /** Mapped for user mode: what walkaddr accepts. */
  predicate Accessible(t: Space, v: nat) {
    v < MAXVPN && v in t.leaf && IsUser(t.leaf[v])
  }

  /** The hardware's bits of an entry for heap memory: valid, R, W and U are set, X is not. */
  predicate HeapEntry(pte: nat) {
    pte % 2 == 1 && pte / 2 % 2 == 1 && pte / 4 % 2 == 1 && pte / 8 % 2 == 0 && pte / 16 % 2 == 1
  }

  predicate AccessibleByte(t: Space, a: nat) {
    Accessible(t, a / PGSIZE)
  }

  /** The byte at user address a, 0 where there is none. */
  function UserByte(m: Memory, t: Space, a: nat): Byte {
    if AccessibleByte(t, a) && DataAt(m, PageOf(t, a / PGSIZE)) then m[PageOf(t, a / PGSIZE)].bytes[a % PGSIZE] else 0
  }

  /** Exactly the pages of a memory of size sz and the two system pages are mapped, the latter not for user mode. */
  ghost predicate ProcessSpace(t: Space, sz: nat) {
    && PageUp(sz) <= USERTOP
    && (forall v :: v in t.leaf <==> 0 <= v < PageUp(sz) || v == TRAMPOLINE || v == TRAPFRAME)
    && (forall v :: v in t.leaf && v >= USERTOP ==> !IsUser(t.leaf[v]))
  }

  /** src put at offset off of a page's bytes. */
  function Patched(bytes: seq<Byte>, off: nat, src: seq<Byte>): (r: seq<Byte>)
    requires off + |src| <= |bytes|
    ensures |r| == |bytes|
    ensures forall i :: 0 <= i < |r| ==> r[i] == if off <= i < off + |src| then src[i - off] else bytes[i]
  {
    bytes[..off] + src + bytes[off + |src|..]
  }

  class Process {

    const kernel: Kernel
    const trapframe: nat
    var pagetable: nat
    var sz: nat
    ghost var space: Space

    ghost predicate Valid()
      reads this, kernel
    {
      && 0 < kernel.lo && Proper(kernel.pages, kernel.lo, kernel.free, space)
      && UserOk(kernel.pages, kernel.lo, kernel.free, space) && ProcessSpace(space, sz)
      && pagetable == space.tables[ROOT]
    }

    /** A process starts with the page table that proc_pagetable made, and no memory. */
    constructor (k: Kernel, trampoline: nat, trapframe: nat, root: nat, ghost t: Space)
      requires 0 < k.lo && Proper(k.pages, k.lo, k.free, t) && UserOk(k.pages, k.lo, k.free, t)
      requires root == t.tables[ROOT]
      requires t.leaf == SystemPages(trampoline, trapframe)
      ensures Valid() && kernel == k && this.trapframe == trapframe && sz == 0 && space == t
    {
      hide Proper, Represents, Nested, Distinct, UserOk, MakePte, IsUser, PageUp;
      PageUpCovers(0, 0);
      EntryRoundTrip(trampoline, PTE_V + PTE_R + PTE_X);
      EntryRoundTrip(trapframe, PTE_V + PTE_R + PTE_W);
      kernel, this.trapframe, pagetable, sz, space := k, trapframe, root, 0, t;
    }

    /** Gives everything back; a valid process never panics here. */
    method Free() returns (ok: bool)
      requires Valid()
      modifies kernel
      ensures ok && FreeOk(kernel.pages, kernel.lo, kernel.free)
      ensures EverythingFree(old(kernel.pages), old(kernel.free), space, kernel.pages, kernel.free)
    {
      ok := kernel.ProcFreepagetable(pagetable, sz, space);
    }

    /** Grows or shrinks memory by n bytes; on failure nothing is lost and nothing changes. */
    method Growproc(n: int) returns (r: int)
      requires Valid() && -0x8000_0000 <= n < 0x8000_0000 && 2 * |kernel.pages| < USERTOP
      modifies this, kernel
      ensures Valid() && (r == 0 || r == -1)
      ensures r == -1 ==> n > 0 && |old(kernel.free)| < 3 * (PageUp(old(sz) + n) - PageUp(old(sz)))
      ensures sz == if r == -1 || old(sz) + n < 0 then old(sz) else old(sz) + n
      ensures Conserves(old(kernel.pages), old(kernel.free), old(space), kernel.pages, kernel.free, space)
      ensures forall a :: 0 <= a < old(sz) && a < sz ==>
        UserByte(kernel.pages, space, a) == old(UserByte(kernel.pages, space, a))
      ensures forall a :: PageUp(old(sz)) * PGSIZE <= a < sz ==>
        AccessibleByte(space, a) && UserByte(kernel.pages, space, a) == 0
      // new pages can be read and written, and pages that stay are mapped as they were
      ensures forall v :: PageUp(old(sz)) <= v < PageUp(sz) ==> v in space.leaf && HeapEntry(space.leaf[v])
      ensures forall v :: v in space.leaf && v in old(space).leaf ==> space.leaf[v] == old(space).leaf[v]
    {
      hide Proper, UserOk, Conserves, SameUserBytes, Represents, Nested, Distinct;
      hide PageUp, IsUser, FlagsOf, PpnOf, Grown, UserByte, HeapEntry;
      r := 0;
      ghost var m, fr, t, size := kernel.pages, kernel.free, space, sz;
      Standstill(m, fr, t);
      SizeBounds(sz);
      if n > 0 {
        PageUpMonotone(sz, sz + n);
        MemoryBounds(m, kernel.lo, fr, t, size);
        var o, s;
        o, s, space := kernel.Uvmalloc(pagetable, sz, sz + n, PTE_W, space);
        if o.Null? {
          SameAfter(m, kernel.lo, fr, t, kernel.pages, space, size);
          return -1;
        }
        sz := s;
        GrownSpace(m, kernel.lo, fr, t, kernel.pages, space, size, s);
      } else if n < 0 {
        var newsz := (sz + n) % WORD;
        UnderflowIsBig(sz, n);
        PageUpMonotone(if newsz < sz then newsz else sz, sz);
        var ok;
        ok, sz, space := kernel.Uvmdealloc(pagetable, sz, newsz, space);
        ShrunkSpace(m, kernel.lo, fr, t, kernel.pages, space, size, sz);
      } else {
        SameAfter(m, kernel.lo, fr, t, m, t, size);
      }
    }

    /** fork's copy of the memory of p to this new process, whose size is set on success; else nothing is kept. */
    method CopyFrom(p: Process) returns (ok: bool)
      requires Valid() && sz == 0 && p.Valid() && p != this && p.kernel == kernel
      requires Apart(kernel.pages, kernel.lo, kernel.free, space, p.space)
      modifies this, kernel
      ensures Valid() && sz == (if ok then p.sz else 0) && (!ok ==> |old(kernel.free)| < 3 * PageUp(p.sz))
      ensures Conserves(old(kernel.pages), old(kernel.free), old(space), kernel.pages, kernel.free, space)
      ensures ok ==> SameReads(kernel.pages, space, p.space, p.sz)
      ensures forall v :: v in old(space).leaf ==> v in space.leaf && space.leaf[v] == old(space).leaf[v]
    {
      hide Proper, UserOk, ProcessSpace, Conserves, SameUserBytes, Apart, Gave, Grown, PageUp, SameReads;
      hide FreeOk, Represents, Nested, Distinct;
      ghost var m, fr, t := kernel.pages, kernel.free, space;
      ForkStart(p.space, p.sz, t);
      var o;
      o, space := kernel.Uvmcopy(p.pagetable, pagetable, p.sz, p.space, space);
      ok := o.Done?;
      if ok {
        sz := p.sz;
        ForkedSpace(m, kernel.pages, t, space, p.space, sz);
        ForkReads(m, kernel.lo, fr, p.space, kernel.pages, t, space, sz);
      } else {
        SameLeaves(t, space);
      }
    }

    /** Copies src to user addresses from dstva on, up to the first page that is not mapped for user mode. */
    method Copyout(dstva: nat, src: seq<Byte>) returns (ok: bool, n: nat)
      requires Valid()
      modifies kernel
      ensures Valid() && n <= |src| && (ok <==> n == |src|)
      ensures forall a: nat :: dstva <= a < dstva + n ==> AccessibleByte(space, a)
      ensures n < |src| ==> !AccessibleByte(space, dstva + n)
      ensures forall a: nat :: UserByte(kernel.pages, space, a) ==
                          if dstva <= a < dstva + n then src[a - dstva] else old(UserByte(kernel.pages, space, a))
      ensures OnlyUserPages(old(kernel.pages), space, kernel.pages) && kernel.free == old(kernel.free)
    {
      hide Proper, UserOk, Represents, Nested, Distinct, IsUser, PpnOf, UserByte, OnlyUserPages, ProcessSpace;
      n := 0;
      SameUserPages(kernel.pages, space);
      var va := dstva;
      while n < |src|
        invariant n <= |src| && Valid() && (n < |src| ==> va == dstva + n)
        invariant forall a: nat :: dstva <= a < dstva + n ==> AccessibleByte(space, a)
        invariant forall a: nat :: UserByte(kernel.pages, space, a) ==
                              if dstva <= a < dstva + n then src[a - dstva] else old(UserByte(kernel.pages, space, a))
        invariant OnlyUserPages(old(kernel.pages), space, kernel.pages) && kernel.free == old(kernel.free)
      {
        var v, off := va / PGSIZE, va % PGSIZE;
        var p := kernel.Walkaddr(pagetable, v, space);
        if p == 0 {
          NotAccessible(kernel.pages, kernel.lo, kernel.free, space, sz, v);
          return false, n;
        }
        var k := if PGSIZE - off > |src| - n then |src| - n else PGSIZE - off;
        ghost var m := kernel.pages;
        UserPage(m, kernel.lo, kernel.free, space, sz, v);
        WritePage(m, kernel.lo, kernel.free, space, sz, v, off, src[n..n + k]);
        kernel.pages := kernel.pages[p := Data(Patched(kernel.pages[p].bytes, off, src[n..n + k]))];
        OnlyUserPagesAgain(old(kernel.pages), space, m, kernel.pages);
        PageBytes(kernel.pages, space, va, k);
        n := n + k;
        va := (v + 1) * PGSIZE;
      }
      ok := true;
    }

    /** Reads len bytes from user address srcva on; fails if one lies in a page not mapped for user mode. */
    method Copyin(srcva: nat, len: nat) returns (ok: bool, dst: seq<Byte>)
      requires Valid()
      modifies kernel
      ensures Valid() && kernel.pages == old(kernel.pages) && kernel.free == old(kernel.free)
      ensures ok <==> forall a: nat :: srcva <= a < srcva + len ==> AccessibleByte(space, a)
      ensures ok ==> |dst| == len && forall a: nat :: srcva <= a < srcva + len ==>
        dst[a - srcva] == UserByte(kernel.pages, space, a)
    {
      hide Proper, UserOk, Represents, Nested, Distinct, IsUser, PpnOf, ProcessSpace, UserByte;
      dst := [];
      var va := srcva;
      while |dst| < len
        invariant Valid() && |dst| <= len && (|dst| < len ==> va == srcva + |dst|)
        invariant kernel.pages == old(kernel.pages) && kernel.free == old(kernel.free)
        invariant forall a: nat :: srcva <= a < srcva + |dst| ==> AccessibleByte(space, a)
        invariant forall a: nat :: srcva <= a < srcva + |dst| ==> dst[a - srcva] == UserByte(kernel.pages, space, a)
      {
        var v, off := va / PGSIZE, va % PGSIZE;
        var p := kernel.Walkaddr(pagetable, v, space);
        if p == 0 {
          NotAccessible(kernel.pages, kernel.lo, kernel.free, space, sz, v);
          assert !AccessibleByte(space, va);
          return false, dst;
        }
        UserPage(kernel.pages, kernel.lo, kernel.free, space, sz, v);
        var k := if PGSIZE - off > len - |dst| then len - |dst| else PGSIZE - off;
        PageBytes(kernel.pages, space, va, k);
        dst := dst + kernel.pages[p].bytes[off..off + k];
        va := (v + 1) * PGSIZE;
      }
      ok := true;
    }

    /** What copyout stored, copyin reads back. */
    method CopyRoundTrip(va: nat, src: seq<Byte>) returns (ok: bool, back: seq<Byte>)
      requires Valid()
      modifies kernel
      ensures Valid() && (ok ==> back == src)
      ensures ok <==> forall a: nat :: va <= a < va + |src| ==> AccessibleByte(space, a)
    {
      hide Proper, UserOk, ProcessSpace, UserByte, OnlyUserPages;
      back := [];
      var n;
      ok, n := Copyout(va, src);
      if ok {
        ok, back := Copyin(va, |src|);
        forall i | 0 <= i < |src| ensures back[i] == src[i] {
          assert back[(va + i) - va] == UserByte(kernel.pages, space, va + i);
        }
      }
    }

    /** Reads a NUL-terminated string of at most max bytes, NUL included; fails if there is none to read. */
    method Copyinstr(srcva: nat, max: nat) returns (ok: bool, dst: seq<Byte>)
      requires Valid()
      modifies kernel
      ensures Valid() && kernel.pages == old(kernel.pages) && kernel.free == old(kernel.free)
      ensures ok <==> exists z :: srcva <= z < srcva + max && EndsAt(kernel.pages, space, srcva, z)
      ensures ok ==> EndsAt(kernel.pages, space, srcva, srcva + |dst|) && Scanned(kernel.pages, space, srcva, dst)
    {
      hide Proper, UserOk, Represents, Nested, Distinct, IsUser, PpnOf, ProcessSpace, UserByte;
      dst := [];
      var va := srcva;
      while |dst| < max
        invariant Valid() && |dst| <= max && (|dst| < max ==> va == srcva + |dst|)
        invariant kernel.pages == old(kernel.pages) && kernel.free == old(kernel.free)
        invariant Scanned(kernel.pages, space, srcva, dst)
      {
        var v, off := va / PGSIZE, va % PGSIZE;
        var p := kernel.Walkaddr(pagetable, v, space);
        if p == 0 {
          NotAccessible(kernel.pages, kernel.lo, kernel.free, space, sz, v);
          assert !AccessibleByte(space, va);
          return false, dst;
        }
        UserPage(kernel.pages, kernel.lo, kernel.free, space, sz, v);
        var k := if PGSIZE - off > max - |dst| then max - |dst| else PGSIZE - off;
        PageBytes(kernel.pages, space, va, k);
        var n := 0;
        while n < k
          invariant 0 <= n <= k && |dst| + (k - n) <= max && srcva + |dst| == va + n
          invariant Scanned(kernel.pages, space, srcva, dst)
          invariant Valid() && kernel.pages == old(kernel.pages) && kernel.free == old(kernel.free)
        {
          var ch := kernel.pages[p].bytes[off + n];
          assert ch == UserByte(kernel.pages, space, va + n) && AccessibleByte(space, va + n);
          if ch == 0 {
            assert EndsAt(kernel.pages, space, srcva, va + n);
            return true, dst;
          }
          ScannedMore(kernel.pages, space, srcva, dst, ch);
          dst := dst + [ch];
          n := n + 1;
        }
        va := (v + 1) * PGSIZE;
      }
      ok := false;
    }
  }

  /** From a on, z is accessible and holds the first NUL. */
  ghost predicate EndsAt(m: Memory, t: Space, a: nat, z: nat) {
    UserByte(m, t, z) == 0 && AccessibleByte(t, z) && forall y: nat :: a <= y < z ==>
      AccessibleByte(t, y) && UserByte(m, t, y) != 0
  }

  /** bytes were read from a on, and none is NUL. */
  ghost predicate Scanned(m: Memory, t: Space, a: nat, bytes: seq<Byte>) {
    forall y: nat :: a <= y < a + |bytes| ==>
      AccessibleByte(t, y) && bytes[y - a] == UserByte(m, t, y) && bytes[y - a] != 0
  }

  lemma ScannedMore(m: Memory, t: Space, a: nat, bytes: seq<Byte>, ch: Byte)
    requires Scanned(m, t, a, bytes) && AccessibleByte(t, a + |bytes|) && ch == UserByte(m, t, a + |bytes|) != 0
    ensures Scanned(m, t, a, bytes + [ch])
  {
  }

  // ---------- bytes ----------

  lemma ByteKept(m: Memory, t: Space, m': Memory, t': Space, a: nat)
    requires a / PGSIZE in t.leaf && a / PGSIZE in t'.leaf && t'.leaf[a / PGSIZE] == t.leaf[a / PGSIZE]
    requires PageOf(t, a / PGSIZE) < |m| && PageOf(t, a / PGSIZE) < |m'|
    requires m'[PageOf(t, a / PGSIZE)] == m[PageOf(t, a / PGSIZE)]
    ensures UserByte(m', t', a) == UserByte(m, t, a)
  {
  }

  lemma InMemory(sz: nat, a: nat)
    requires a < sz
    ensures a / PGSIZE < PageUp(sz)
  {
  }

  /** The map and its pages as they were: the same bytes. */
  lemma SameAfter(m: Memory, lo: nat, free: seq<nat>, t: Space, m': Memory, t': Space, size: nat)
    requires UserOk(m, lo, free, t) && ProcessSpace(t, size) && t'.leaf == t.leaf && SameUserBytes(m, t, m')
    ensures ProcessSpace(t', size)
    ensures forall a :: 0 <= a < size ==> UserByte(m', t', a) == UserByte(m, t, a)
  {
    forall a | 0 <= a < size ensures UserByte(m', t', a) == UserByte(m, t, a) {
      InMemory(size, a);
      assert IsUserLeaf(t, a / PGSIZE);
      ByteKept(m, t, m', t', a);
    }
  }

  lemma GrownSpace(m: Memory, lo: nat, free: seq<nat>, t: Space, m': Memory, t': Space, size: nat, sz: nat)
    requires UserOk(m, lo, free, t) && ProcessSpace(t, size) && SameUserBytes(m, t, m') && size <= sz
    requires PageUp(sz) <= USERTOP
    requires Grown(m', t, t', PageUp(size), PageUp(sz), Zeros(PTE_V + PTE_R + PTE_U + PTE_W))
    ensures ProcessSpace(t', sz)
    ensures forall a :: 0 <= a < size ==> UserByte(m', t', a) == UserByte(m, t, a)
    ensures forall a :: PageUp(size) * PGSIZE <= a < sz ==> Accessible(t', a / PGSIZE) && UserByte(m', t', a) == 0
    ensures forall v :: PageUp(size) <= v < PageUp(sz) ==> v in t'.leaf && HeapEntry(t'.leaf[v])
    ensures forall v :: v in t.leaf ==> v in t'.leaf && t'.leaf[v] == t.leaf[v]
  {
    hide PageUp, IsUser, FlagsOf, PpnOf, HeapEntry;
    forall v | PageUp(size) <= v < PageUp(sz) ensures HeapEntry(t'.leaf[v]) {
      UserFlags(t'.leaf[v]);
    }
    forall a | 0 <= a < size ensures UserByte(m', t', a) == UserByte(m, t, a) {
      InMemory(size, a);
      assert IsUserLeaf(t, a / PGSIZE);
      ByteKept(m, t, m', t', a);
    }
    forall a | PageUp(size) * PGSIZE <= a < sz ensures Accessible(t', a / PGSIZE) && UserByte(m', t', a) == 0 {
      InMemory(sz, a);
      assert PageUp(size) <= a / PGSIZE < PageUp(sz);
      UserFlags(t'.leaf[a / PGSIZE]);
    }
  }

  lemma UserFlags(pte: nat)
    requires FlagsOf(pte) == PTE_V + PTE_R + PTE_U + PTE_W
    ensures IsUser(pte) && HeapEntry(pte)
  {
    assert pte == MakePte(PpnOf(pte), FlagsOf(pte));
    EntryRoundTrip(PpnOf(pte), FlagsOf(pte));
  }

  lemma ShrunkSpace(m: Memory, lo: nat, free: seq<nat>, t: Space, m': Memory, t': Space, size: nat, sz: nat)
    requires UserOk(m, lo, free, t) && ProcessSpace(t, size) && SameUserBytes(m, t', m') && sz <= size
    requires PageUp(sz) <= PageUp(size)
    requires t' == t.(leaf := Unmapped(t.leaf, PageUp(sz), PageUp(size) - PageUp(sz)))
    ensures ProcessSpace(t', sz)
    ensures forall a :: 0 <= a < sz ==> UserByte(m', t', a) == UserByte(m, t, a)
  {
    hide PageUp, IsUser, FlagsOf, PpnOf;
    forall a | 0 <= a < sz ensures UserByte(m', t', a) == UserByte(m, t, a) {
      InMemory(sz, a);
      assert IsUserLeaf(t', a / PGSIZE) && IsUserLeaf(t, a / PGSIZE) && PageOf(t', a / PGSIZE) == PageOf(t, a / PGSIZE);
      ByteKept(m, t, m', t', a);
    }
  }

  /** User pages and free pages are pages of memory, each counted once. */
  lemma MemoryBounds(m: Memory, lo: nat, free: seq<nat>, t: Space, sz: nat)
    requires FreeOk(m, lo, free) && UserOk(m, lo, free, t) && ProcessSpace(t, sz)
    ensures PageUp(sz) + |free| <= 2 * |m|
  {
    hide PageUp, PpnOf;
    DistinctFit(free, |m|);
    var used := seq(PageUp(sz), v requires 0 <= v < PageUp(sz) && v in t.leaf => PageOf(t, v));
    forall v | 0 <= v < PageUp(sz) ensures used[v] < |m| {
      assert IsUserLeaf(t, v);
    }
    forall v, w | 0 <= v < w < PageUp(sz) ensures used[v] != used[w] {
      assert IsUserLeaf(t, v) && IsUserLeaf(t, w);
    }
    DistinctFit(used, |m|);
  }

  lemma SizeBounds(sz: nat)
    ensures sz <= PageUp(sz) * PGSIZE && (PageUp(sz) <= USERTOP ==> sz < WORD - 0x8000_0000)
  {
  }

  /** After uvmcopy the child reads at every address below sz what the parent does. */
  lemma ForkedBytes(m: Memory, lo: nat, free: seq<nat>, parent: Space, m': Memory, t: Space, t': Space, sz: nat, a: nat)
    requires UserOk(m, lo, free, parent) && PageUp(sz) <= USERTOP && Grown(m', t, t', 0, PageUp(sz), CopyOf(m, parent))
    requires (forall v :: 0 <= v < PageUp(sz) ==> v in parent.leaf) && a < sz
    ensures AccessibleByte(t', a) <==> AccessibleByte(parent, a)
    ensures UserByte(m', t', a) == UserByte(m, parent, a)
  {
    hide PageUp, IsUser, FlagsOf, PpnOf;
    InMemory(sz, a);
    var v := a / PGSIZE;
    assert IsUserLeaf(parent, v);
    SameFlagsSameUser(parent.leaf[v], t'.leaf[v]);
  }

  /** At every address below sz the two spaces read the same, and the pages have the same flags. */
  ghost predicate SameReads(m: Memory, t: Space, parent: Space, sz: nat) {
    && (forall v :: 0 <= v < PageUp(sz) ==>
          v in t.leaf && v in parent.leaf && t.leaf[v] % 1024 == parent.leaf[v] % 1024)
    && (forall a: nat :: a < sz ==> AccessibleByte(t, a) == AccessibleByte(parent, a))
    && (forall a: nat :: a < sz ==> UserByte(m, t, a) == UserByte(m, parent, a))
  }

  /** A new process has nothing below the parent's size, where the parent has everything. */
  lemma ForkStart(parent: Space, sz: nat, t: Space)
    requires ProcessSpace(parent, sz) && ProcessSpace(t, 0)
    ensures PageUp(sz) <= USERTOP && forall v :: 0 <= v < PageUp(sz) ==> v in parent.leaf && v !in t.leaf
  {
    PageUpCovers(0, 0);
  }

  lemma ForkedSpace(m: Memory, m': Memory, t: Space, t': Space, parent: Space, sz: nat)
    requires ProcessSpace(t, 0) && PageUp(sz) <= USERTOP && Grown(m', t, t', 0, PageUp(sz), CopyOf(m, parent))
    ensures ProcessSpace(t', sz)
    ensures forall v :: v in t.leaf ==> v in t'.leaf && t'.leaf[v] == t.leaf[v]
  {
    hide PageUp, FlagsOf, PpnOf, IsUser;
    PageUpCovers(0, 0);
  }

  lemma SameLeaves(t: Space, t': Space)
    requires ProcessSpace(t, 0) && t'.leaf == t.leaf
    ensures ProcessSpace(t', 0)
  {
  }

  lemma ForkReads(m: Memory, lo: nat, free: seq<nat>, parent: Space, m': Memory, t: Space, t': Space, sz: nat)
    requires UserOk(m, lo, free, parent) && PageUp(sz) <= USERTOP && Grown(m', t, t', 0, PageUp(sz), CopyOf(m, parent))
    requires forall v :: 0 <= v < PageUp(sz) ==> v in parent.leaf
    requires SameUserBytes(m, parent, m')
    ensures SameReads(m', t', parent, sz)
  {
    hide UserOk, PageUp, Grown, UserByte, Accessible, SameUserBytes;
    ForkedFlags(m, parent, m', t, t', sz);
    forall a | 0 <= a < sz
      ensures AccessibleByte(t', a) == AccessibleByte(parent, a) && UserByte(m', t', a) == UserByte(m', parent, a)
    {
      ForkedBytes(m, lo, free, parent, m', t, t', sz, a);
      ParentByte(m, lo, free, parent, m', sz, a);
    }
  }

  lemma ForkedFlags(m: Memory, parent: Space, m': Memory, t: Space, t': Space, sz: nat)
    requires Grown(m', t, t', 0, PageUp(sz), CopyOf(m, parent)) && forall v :: 0 <= v < PageUp(sz) ==> v in parent.leaf
    ensures forall v :: 0 <= v < PageUp(sz) ==> v in t'.leaf && t'.leaf[v] % 1024 == parent.leaf[v] % 1024
  {
  }

  lemma ParentByte(m: Memory, lo: nat, free: seq<nat>, parent: Space, m': Memory, sz: nat, a: nat)
    requires UserOk(m, lo, free, parent) && SameUserBytes(m, parent, m') && PageUp(sz) <= USERTOP && a < sz
    requires forall v :: 0 <= v < PageUp(sz) ==> v in parent.leaf
    ensures UserByte(m', parent, a) == UserByte(m, parent, a)
  {
    hide PageUp;
    InMemory(sz, a);
    assert IsUserLeaf(parent, a / PGSIZE);
    ByteKept(m, parent, m', parent, a);
  }

  lemma SameFlagsSameUser(p: nat, q: nat)
    requires FlagsOf(p) == FlagsOf(q)
    ensures IsUser(p) <==> IsUser(q)
  {
    assert p == MakePte(PpnOf(p), FlagsOf(p)) && q == MakePte(PpnOf(q), FlagsOf(q));
    EntryRoundTrip(PpnOf(p), FlagsOf(p));
    EntryRoundTrip(PpnOf(q), FlagsOf(q));
  }

  /** Shrinking below zero wraps round to a size above the present one. */
  lemma UnderflowIsBig(sz: nat, n: int)
    requires -0x8000_0000 <= n < 0 && sz < WORD - 0x8000_0000
    ensures (sz + n) % WORD == if sz + n < 0 then sz + n + WORD else sz + n
  {
  }

  // ---------- copies ----------

  /** Only user pages of t differ between m and m'. */
  ghost predicate OnlyUserPages(m: Memory, t: Space, m': Memory) {
    |m'| == |m| && forall q :: 0 <= q < |m| && !IsUserPage(t, q) ==> m'[q] == m[q]
  }

  lemma SameUserPages(m: Memory, t: Space)
    ensures OnlyUserPages(m, t, m)
  {
  }

  lemma OnlyUserPagesAgain(m: Memory, t: Space, m1: Memory, m2: Memory)
    requires OnlyUserPages(m, t, m1) && OnlyUserPages(m1, t, m2)
    ensures OnlyUserPages(m, t, m2)
  {
  }

  lemma UserPage(m: Memory, lo: nat, free: seq<nat>, t: Space, sz: nat, v: nat)
    requires UserOk(m, lo, free, t) && ProcessSpace(t, sz) && Accessible(t, v)
    ensures IsUserLeaf(t, v) && DataAt(m, PageOf(t, v)) && lo <= PageOf(t, v)
  {
  }

  lemma NotAccessible(m: Memory, lo: nat, free: seq<nat>, t: Space, sz: nat, v: nat)
    requires 0 < lo && UserOk(m, lo, free, t) && ProcessSpace(t, sz)
    requires Accessible(t, v) ==> PageOf(t, v) == 0
    ensures !Accessible(t, v)
  {
  }

  /** The k bytes from va on, all in one page. */
  lemma PageBytes(m: Memory, t: Space, va: nat, k: nat)
    requires k <= PGSIZE - va % PGSIZE && AccessibleByte(t, va) && DataAt(m, PageOf(t, va / PGSIZE))
    ensures forall a: nat :: va <= a < va + k ==> AccessibleByte(t, a)
    ensures forall a: nat :: va <= a < va + k ==>
      UserByte(m, t, a) == m[PageOf(t, va / PGSIZE)].bytes[va % PGSIZE + (a - va)]
  {
    forall a: nat | va <= a < va + k
      ensures AccessibleByte(t, a) && UserByte(m, t, a) == m[PageOf(t, va / PGSIZE)].bytes[va % PGSIZE + (a - va)]
    {
      assert a / PGSIZE == va / PGSIZE && a % PGSIZE == va % PGSIZE + (a - va);
    }
  }

  /** The byte at a once src is stored from va on. */
  function Stored(m: Memory, t: Space, va: nat, src: seq<Byte>, a: nat): Byte {
    if va <= a < va + |src| then src[a - va] else UserByte(m, t, a)
  }

  /** Patching the page of v changes those bytes of user memory, and no others. */
  lemma WritePage(m: Memory, lo: nat, free: seq<nat>, t: Space, sz: nat, v: nat, off: nat, src: seq<Byte>)
    requires Proper(m, lo, free, t) && UserOk(m, lo, free, t) && ProcessSpace(t, sz) && Accessible(t, v)
    requires off + |src| <= PGSIZE
    ensures DataAt(m, PageOf(t, v))
    ensures
      var m' := m[PageOf(t, v) := Data(Patched(m[PageOf(t, v)].bytes, off, src))];
      && Proper(m', lo, free, t) && UserOk(m', lo, free, t) && OnlyUserPages(m, t, m')
      && forall a: nat ::
           UserByte(m', t, a) == Stored(m, t, v * PGSIZE + off, src, a)
  {
    hide Represents, Nested, Distinct, IsUser, PpnOf;
    UserPage(m, lo, free, t, sz, v);
    var p := PageOf(t, v);
    var m' := m[p := Data(Patched(m[p].bytes, off, src))];
    FrameTables(m, m', t);
    forall a: nat
      ensures UserByte(m', t, a) == Stored(m, t, v * PGSIZE + off, src, a)
    {
      if Accessible(t, a / PGSIZE) {
        UserPage(m, lo, free, t, sz, a / PGSIZE);
      }
    }
  }
}
