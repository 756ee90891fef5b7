/**
 The heap allocator of user programs: a circular, address-ordered list of free blocks.

 Addresses count in units of one header. The list is described by the set of its nodes:
 from every node the list leads to the next higher one, and from the highest back to
 `base`, an empty block below the heap. `sbrk` is a parameter of the calls that use it.
 */
module Umalloc {

  const HEADER := 16  // bytes per unit
  const MINUNITS := 4096
  const NULL := 0
  const INT_LIMIT := 0x8000_0000

  /** a leads to the next higher node, or is the highest and leads to base. */
  ghost predicate Follows(base: int, nodes: set<int>, next: map<int, int>, a: int) {
    && a in next && next[a] in nodes
    && ((a < next[a] && forall b :: b in nodes ==> !(a < b < next[a]))
        || (next[a] == base && forall b :: b in nodes ==> b <= a))
  }

  ghost predicate Ring(base: int, nodes: set<int>, next: map<int, int>) {
    && base in nodes && (forall a :: a in nodes ==> base <= a)
    && forall a {:trigger Follows(base, nodes, next, a)} :: a in nodes ==> Follows(base, nodes, next, a)
  }

  /** No two nodes lead to the same one. */
  lemma OnePredecessor(base: int, nodes: set<int>, next: map<int, int>, a: int, b: int)
    requires Ring(base, nodes, next) && a in nodes && b in nodes
    ensures a in next && b in next && (next[a] == next[b] ==> a == b)
  {
    assert Follows(base, nodes, next, a) && Follows(base, nodes, next, b);
  }

  /** Free blocks are not empty, do not overlap and do not touch: neighbours are always merged. */
  ghost predicate Coalesced(base: int, nodes: set<int>, size: map<int, int>) {
    && (forall a :: a in nodes ==> a in size && if a == base then size[a] == 0 else size[a] >= 1)
    && (forall a, b :: a in nodes && b in nodes && a < b ==> a + size[a] < b)
  }

  /** Allocated blocks carry their size and overlap neither each other nor free blocks. */
  ghost predicate Separate(base: int, nodes: set<int>, size: map<int, int>, alloc: map<int, int>) {
    && (forall a :: a in nodes ==> a in size)
    && (forall a :: a in alloc ==> base < a && a in size && size[a] == alloc[a] >= 1)
    && (forall a, b :: a in alloc && b in alloc && a < b ==> a + alloc[a] <= b)
    && (forall a, b :: a in alloc && b in nodes ==> a + alloc[a] <= b || b + size[b] <= a)
    && (forall a :: a in alloc ==> a !in nodes)
  }

  ghost predicate InFree(nodes: set<int>, size: map<int, int>, u: int)
    requires forall a :: a in nodes ==> a in size
  {
    exists a :: a in nodes && a <= u < a + size[a]
  }

  ghost predicate InAlloc(alloc: map<int, int>, u: int) {
    exists a :: a in alloc && a <= u < a + alloc[a]
  }

  /** The units obtained from the system are exactly those in free and in allocated blocks. */
  ghost predicate Accounted(nodes: set<int>, size: map<int, int>, alloc: map<int, int>, obtained: set<int>)
    requires forall a :: a in nodes ==> a in size
  {
    forall u :: u in obtained <==> InFree(nodes, size, u) || InAlloc(alloc, u)
  }

  /** The nodes still ahead of p on the way round from (and to) freep. */
  ghost function Ahead(nodes: set<int>, freep: int, p: int): set<int> {
    set x | x in nodes && if p > freep then x > p || x <= freep else p < x <= freep
  }

  /** Following the list shortens what is ahead, until it is back at freep. */
  lemma AheadShrinks(base: int, nodes: set<int>, next: map<int, int>, freep: int, p: int)
    requires Ring(base, nodes, next) && freep in nodes && p in nodes && p != freep
    ensures p in next && next[p] in nodes
    ensures Ahead(nodes, freep, next[p]) < Ahead(nodes, freep, p)
    ensures Ahead(nodes, freep, p) == Ahead(nodes, freep, next[p]) + {next[p]}
  {
    assert Follows(base, nodes, next, p);
    var q := next[p];
    forall x | x in Ahead(nodes, freep, p) ensures x == q || x in Ahead(nodes, freep, q) {
      assert !(p < x < q) || q == base;
    }
    assert q in Ahead(nodes, freep, p) && q !in Ahead(nodes, freep, q);
    forall x | x in Ahead(nodes, freep, q) ensures x in Ahead(nodes, freep, p) {}
  }

  lemma AheadOfFreep(base: int, nodes: set<int>, next: map<int, int>, freep: int)
    requires Ring(base, nodes, next) && freep in nodes
    ensures freep in next && next[freep] in nodes
    ensures Ahead(nodes, freep, freep) == {}
    ensures nodes == Ahead(nodes, freep, next[freep]) + {next[freep]}
  {
    assert Follows(base, nodes, next, freep);
    var q := next[freep];
    forall x | x in nodes ensures x == q || x in Ahead(nodes, freep, q) {
      assert !(freep < x < q) || q == base;
    }
  }

  // ---------- inserting a block ----------

  datatype FreeList = FreeList(nodes: set<int>, next: map<int, int>, size: map<int, int>)

  ghost predicate ListOk(base: int, l: FreeList)
    ensures ListOk(base, l) ==> Ring(base, l.nodes, l.next) && forall a :: a in l.nodes ==> a in l.size && base <= a
  {
    Ring(base, l.nodes, l.next) && Coalesced(base, l.nodes, l.size)
  }

  /** bp lies between the node p and its successor, and clear of all free blocks. */
  ghost predicate FitsAfter(base: int, l: FreeList, p: int, bp: int)
    requires ListOk(base, l)
  {
    && p in l.nodes && p in l.next && p < bp && (bp < l.next[p] || l.next[p] <= p)
    && bp in l.size && l.size[bp] >= 1
    && forall b :: b in l.nodes ==> b != bp && (bp + l.size[bp] <= b || b + l.size[b] <= bp)
  }

  /** Links bp to what follows p, merging the two if they touch. */
  function JoinedUpward(l: FreeList, p: int, bp: int): FreeList
    requires p in l.next && bp in l.size
  {
    var q := l.next[p];
    if bp + l.size[bp] == q && q in l.size && q in l.next then
      FreeList(l.nodes - {q}, l.next[bp := l.next[q]], l.size[bp := l.size[bp] + l.size[q]])
    else FreeList(l.nodes, l.next[bp := q], l.size)
  }

  /** Links p to bp, merging the two if they touch. */
  function JoinedDownward(l: FreeList, p: int, bp: int): FreeList
    requires p in l.size && bp in l.size && bp in l.next
  {
    if p + l.size[p] == bp then FreeList(l.nodes, l.next[p := l.next[bp]], l.size[p := l.size[p] + l.size[bp]])
    else FreeList(l.nodes + {bp}, l.next[p := bp], l.size)
  }

  function Inserted(l: FreeList, p: int, bp: int): FreeList
    requires p in l.next && p in l.size && bp in l.size
  {
    JoinedDownward(JoinedUpward(l, p, bp), p, bp)
  }

  /** Where the other nodes are when bp goes in between p and its successor q. */
  lemma Around(base: int, l: FreeList, p: int, bp: int, b: int)
    requires ListOk(base, l) && FitsAfter(base, l, p, bp) && b in l.nodes
    ensures l.next[p] in l.nodes && base <= p
    ensures b <= p || (p < bp < l.next[p] <= b && bp + l.size[bp] <= l.next[p])
    ensures b < p ==> b + l.size[b] < p
    ensures p + l.size[p] <= bp
  {
    assert Follows(base, l.nodes, l.next, p);
  }

  /** Nodes away from the insertion keep their successor. */
  lemma FarNodesFollow(base: int, l: FreeList, p: int, bp: int, a: int)
    requires ListOk(base, l) && FitsAfter(base, l, p, bp)
    requires a in Inserted(l, p, bp).nodes && a != p && a != bp
    ensures Follows(base, Inserted(l, p, bp).nodes, Inserted(l, p, bp).next, a)
  {
    var r := Inserted(l, p, bp);
    assert a in l.nodes && forall b :: b in r.nodes ==> b == bp || b in l.nodes;
    OnePredecessor(base, l.nodes, l.next, a, p);
    assert Follows(base, l.nodes, l.next, a);
    Around(base, l, p, bp, a);
    Around(base, l, p, bp, l.next[a]);
  }

  /** The node before the block, and the block's own node if it has one. */
  lemma NearNodesFollow(base: int, l: FreeList, p: int, bp: int, a: int)
    requires ListOk(base, l) && FitsAfter(base, l, p, bp) && (a == p || a == bp) && a in Inserted(l, p, bp).nodes
    ensures Follows(base, Inserted(l, p, bp).nodes, Inserted(l, p, bp).next, a)
  {
    hide Coalesced;
    var r := Inserted(l, p, bp);
    Around(base, l, p, bp, p);
    assert forall b :: b in r.nodes ==> b == bp || b in l.nodes;
    assert Follows(base, l.nodes, l.next, p) && Follows(base, l.nodes, l.next, l.next[p]);
    forall b | b in r.nodes && b != bp ensures b <= p || b >= l.next[p] {
      Around(base, l, p, bp, b);
    }
  }

  lemma InsertedRing(base: int, l: FreeList, p: int, bp: int)
    requires ListOk(base, l) && FitsAfter(base, l, p, bp)
    ensures Ring(base, Inserted(l, p, bp).nodes, Inserted(l, p, bp).next)
  {
    var r := Inserted(l, p, bp);
    Around(base, l, p, bp, p);
    BaseStays(base, l, p, bp);
    hide Coalesced, FitsAfter, Follows, Inserted;
    forall a | a in r.nodes ensures Follows(base, r.nodes, r.next, a) {
      if a != p && a != bp {
        FarNodesFollow(base, l, p, bp, a);
      } else {
        NearNodesFollow(base, l, p, bp, a);
      }
    }
  }

  lemma BaseStays(base: int, l: FreeList, p: int, bp: int)
    requires ListOk(base, l) && FitsAfter(base, l, p, bp)
    ensures base in Inserted(l, p, bp).nodes && forall a :: a in Inserted(l, p, bp).nodes ==> base <= a
  {
    Around(base, l, p, bp, p);
  }

  lemma InsertedCoalesced(base: int, l: FreeList, p: int, bp: int)
    requires ListOk(base, l) && FitsAfter(base, l, p, bp)
    ensures Coalesced(base, Inserted(l, p, bp).nodes, Inserted(l, p, bp).size)
  {
    var q := l.next[p];
    var r := Inserted(l, p, bp);
    Around(base, l, p, bp, p);
    assert Follows(base, l.nodes, l.next, q);
    forall a, b | a in r.nodes && b in r.nodes && a < b ensures a + r.size[a] < b {
      if a != bp { Around(base, l, p, bp, a); }
      if b != bp { Around(base, l, p, bp, b); }
    }
  }

  /** Inserting a block adds its units to the free ones. */
  lemma InsertedUnits(base: int, l: FreeList, p: int, bp: int, u: int)
    requires ListOk(base, l) && FitsAfter(base, l, p, bp)
    ensures forall a :: a in Inserted(l, p, bp).nodes ==> a in Inserted(l, p, bp).size
    ensures InFree(Inserted(l, p, bp).nodes, Inserted(l, p, bp).size, u)
            <==> InFree(l.nodes, l.size, u) || bp <= u < bp + l.size[bp]
  {
    Around(base, l, p, bp, p);
    var up := JoinedUpward(l, p, bp);
    var r := Inserted(l, p, bp);
    UpwardUnits(base, l, p, bp, u);
    if p + up.size[p] == bp {
      assert p in r.nodes && r.size[p] == up.size[p] + up.size[bp];
    } else {
      assert bp in r.nodes && r.size[bp] == up.size[bp];
    }
    if InFree(up.nodes, up.size, u) {
      var a :| a in up.nodes && a <= u < a + up.size[a];
      assert a in r.nodes && a <= u < a + r.size[a];
    }
    if InFree(r.nodes, r.size, u) {
      var a :| a in r.nodes && a <= u < a + r.size[a];
      assert a == bp || a in up.nodes;
    }
  }

  lemma UpwardUnits(base: int, l: FreeList, p: int, bp: int, u: int)
    requires ListOk(base, l) && FitsAfter(base, l, p, bp)
    ensures
      var up := JoinedUpward(l, p, bp);
      && p in up.nodes && bp !in up.nodes && up.size[p] == l.size[p]
      && (forall a :: a in up.nodes ==> a in up.size)
      && (InFree(up.nodes, up.size, u) || bp <= u < bp + up.size[bp] <==>
            InFree(l.nodes, l.size, u) || bp <= u < bp + l.size[bp])
  {
    Around(base, l, p, bp, p);
    var q, up := l.next[p], JoinedUpward(l, p, bp);
    if InFree(l.nodes, l.size, u) {
      var a :| a in l.nodes && a <= u < a + l.size[a];
      assert a in up.nodes || (a == q && bp + l.size[bp] == q);
    }
    if InFree(up.nodes, up.size, u) {
      var a :| a in up.nodes && a <= u < a + up.size[a];
      assert a in l.nodes && a != bp;
    }
    if bp + l.size[bp] <= u < bp + up.size[bp] {
      assert q in l.nodes && q <= u < q + l.size[q];
    }
  }

  /** Above all other blocks, only the new one or what it merged with can be large where no block was. */
  lemma InsertedOnTop(base: int, l: FreeList, p: int, bp: int, n: int)
    requires ListOk(base, l) && FitsAfter(base, l, p, bp)
    requires forall a :: a in l.nodes ==> a + l.size[a] <= bp && l.size[a] < n
    ensures
      var r := Inserted(l, p, bp);
      forall a :: a in r.nodes ==> a in r.size && (r.size[a] >= n ==> a + r.size[a] == bp + l.size[bp])
  {
    Around(base, l, p, bp, p);
    Around(base, l, p, bp, l.next[p]);
  }

  // ---------- taking a block ----------

  /** The first block of at least n units on the way round from the node after `from`. */
  ghost predicate FirstFit(nodes: set<int>, size: map<int, int>, from: int, n: int, p: int) {
    && p in nodes && p in size && size[p] >= n
    && forall x :: x in nodes && x != p && x !in Ahead(nodes, from, p) ==> x in size && size[x] < n
  }

  /** The node p unlinked from its predecessor. */
  function Unlinked(l: FreeList, prev: int, p: int): FreeList
    requires p in l.next
  {
    FreeList(l.nodes - {p}, l.next[prev := l.next[p]], l.size)
  }

  /** The last n units of the block p cut off. */
  function Split(l: FreeList, p: int, n: int): FreeList
    requires p in l.size
  {
    FreeList(l.nodes, l.next, l.size[p := l.size[p] - n][p + l.size[p] - n := n])
  }

  lemma UnlinkedOk(base: int, l: FreeList, prev: int, p: int)
    requires ListOk(base, l) && prev in l.nodes && p in l.nodes && prev in l.next && l.next[prev] == p && p != base
    ensures p in l.next && ListOk(base, Unlinked(l, prev, p))
  {
    assert Follows(base, l.nodes, l.next, p) && Follows(base, l.nodes, l.next, prev);
    var r := Unlinked(l, prev, p);
    forall a | a in r.nodes ensures Follows(base, r.nodes, r.next, a) {
      assert Follows(base, l.nodes, l.next, a);
      if a != prev {
        OnePredecessor(base, l.nodes, l.next, a, prev);
      }
    }
  }

  // ---------- the whole heap ----------

  function Units(a: int, n: nat): (s: set<int>)
    ensures forall u :: u in s <==> a <= u < a + n
  {
    if n == 0 then {} else Units(a, n - 1) + {a + n - 1}
  }

  /** Everything lies between base and limit, the end of the memory obtained so far. */
  ghost predicate Bounded(base: int, l: FreeList, alloc: map<int, int>, limit: int)
    requires forall a :: a in l.nodes ==> a in l.size
  {
    && base < limit
    && (forall a :: a in l.nodes ==> a + l.size[a] <= limit)
    && (forall a :: a in alloc ==> a + alloc[a] <= limit)
  }

  ghost predicate HeapOk(base: int, l: FreeList, alloc: map<int, int>, obtained: set<int>, limit: int)
    ensures HeapOk(base, l, alloc, obtained, limit) ==> ListOk(base, l)
  {
    && ListOk(base, l) && Separate(base, l.nodes, l.size, alloc)
    && Accounted(l.nodes, l.size, alloc, obtained) && Bounded(base, l, alloc, limit)
  }

  lemma FreeAccounted(base: int, l: FreeList, alloc: map<int, int>, obtained: set<int>, limit: int, p: int, bp: int)
    requires HeapOk(base, l, alloc, obtained, limit) && bp in alloc && FitsAfter(base, l, p, bp)
    ensures forall a :: a in Inserted(l, p, bp).nodes ==> a in Inserted(l, p, bp).size
    ensures Accounted(Inserted(l, p, bp).nodes, Inserted(l, p, bp).size, alloc - {bp}, obtained)
  {
    InsertedUnits(base, l, p, bp, bp);
    var r := Inserted(l, p, bp);
    forall u ensures u in obtained <==> InFree(r.nodes, r.size, u) || InAlloc(alloc - {bp}, u) {
      InsertedUnits(base, l, p, bp, u);
      if InAlloc(alloc, u) {
        var a :| a in alloc && a <= u < a + alloc[a];
        assert a != bp ==> a in alloc - {bp};
      }
      if InAlloc(alloc - {bp}, u) {
        var a :| a in alloc - {bp} && a <= u < a + alloc[a];
        assert a in alloc;
      }
      if bp <= u < bp + l.size[bp] {
        assert InAlloc(alloc, u);
      }
    }
  }

  /** An allocated block lies clear of the merged block as well. */
  lemma FreeSeparate(base: int, l: FreeList, alloc: map<int, int>, p: int, bp: int)
    requires ListOk(base, l) && Separate(base, l.nodes, l.size, alloc) && bp in alloc && FitsAfter(base, l, p, bp)
    ensures forall a :: a in Inserted(l, p, bp).nodes ==> a in Inserted(l, p, bp).size
    ensures Separate(base, Inserted(l, p, bp).nodes, Inserted(l, p, bp).size, alloc - {bp})
  {
    Around(base, l, p, bp, p);
    var q, r := l.next[p], Inserted(l, p, bp);
    assert forall a :: a in r.nodes ==> a == bp || a in l.nodes;
    forall a | a in alloc - {bp} ensures r.size[a] == alloc[a] && a !in r.nodes {}
    forall a, b | a in alloc - {bp} && b in r.nodes ensures a + alloc[a] <= b || b + r.size[b] <= a {
      ClearOf(base, l, alloc, p, bp, a, b);
    }
    hide Inserted, FitsAfter, ListOk;
  }

  lemma ClearOf(base: int, l: FreeList, alloc: map<int, int>, p: int, bp: int, a: int, b: int)
    requires ListOk(base, l) && Separate(base, l.nodes, l.size, alloc) && bp in alloc && FitsAfter(base, l, p, bp)
    requires a in alloc && a != bp && b in Inserted(l, p, bp).nodes && b in Inserted(l, p, bp).size
    ensures a + alloc[a] <= b || b + Inserted(l, p, bp).size[b] <= a
  {
    Around(base, l, p, bp, p);
    var q := l.next[p];
    assert b == bp || b in l.nodes;
    assert a + alloc[a] <= bp || bp + alloc[bp] <= a;
    assert a + alloc[a] <= p || p + l.size[p] <= a;
    assert a + alloc[a] <= q || q + l.size[q] <= a;
  }

  lemma FreeBounded(base: int, l: FreeList, alloc: map<int, int>, limit: int, p: int, bp: int)
    requires ListOk(base, l) && bp in alloc && FitsAfter(base, l, p, bp) && l.size[bp] == alloc[bp]
    requires Bounded(base, l, alloc, limit)
    ensures forall a :: a in Inserted(l, p, bp).nodes ==> a in Inserted(l, p, bp).size
    ensures Bounded(base, Inserted(l, p, bp), alloc - {bp}, limit)
  {
    Around(base, l, p, bp, p);
    assert l.next[p] + l.size[l.next[p]] <= limit;
  }

  /** Giving an allocated block back keeps the heap in order and moves its units to the free ones. */
  lemma FreeOk(base: int, l: FreeList, alloc: map<int, int>, obtained: set<int>, limit: int, p: int, bp: int)
    requires HeapOk(base, l, alloc, obtained, limit) && bp in alloc && FitsAfter(base, l, p, bp)
    ensures HeapOk(base, Inserted(l, p, bp), alloc - {bp}, obtained, limit)
  {
    InsertedRing(base, l, p, bp);
    InsertedCoalesced(base, l, p, bp);
    FreeSeparate(base, l, alloc, p, bp);
    FreeBounded(base, l, alloc, limit, p, bp);
    FreeAccounted(base, l, alloc, obtained, limit, p, bp);
  }

  /** What the code of free relies on, and which node holds the block afterwards. */
  lemma FreeFacts(base: int, l: FreeList, p: int, bp: int)
    requires ListOk(base, l) && FitsAfter(base, l, p, bp)
    ensures base <= p && p in l.next && p in l.size && bp in l.size && l.next[p] in l.next && l.next[p] in l.size
    ensures
      var r, x := Inserted(l, p, bp), if p + l.size[p] == bp then p else bp;
      x in r.nodes && x in r.size && x <= bp && bp + l.size[bp] <= x + r.size[x] && p in r.nodes
  {
    Around(base, l, p, bp, p);
    assert Follows(base, l.nodes, l.next, l.next[p]);
  }

  lemma GrowAccounted(l: FreeList, alloc: map<int, int>, obtained: set<int>, bp: int, n: nat)
    requires forall a :: a in l.nodes ==> a in l.size
    requires Accounted(l.nodes, l.size, alloc, obtained) && bp !in l.nodes && bp !in alloc && n >= 1
    ensures Accounted(l.nodes, l.size[bp := n], alloc[bp := n], obtained + Units(bp, n))
  {
    var size', alloc' := l.size[bp := n], alloc[bp := n];
    forall u ensures u in obtained + Units(bp, n) <==> InFree(l.nodes, size', u) || InAlloc(alloc', u) {
      if InFree(l.nodes, l.size, u) {
        var a :| a in l.nodes && a <= u < a + l.size[a];
        assert a <= u < a + size'[a];
      }
      if InFree(l.nodes, size', u) {
        var a :| a in l.nodes && a <= u < a + size'[a];
        assert a <= u < a + l.size[a];
      }
      if InAlloc(alloc, u) {
        var a :| a in alloc && a <= u < a + alloc[a];
        assert a in alloc' && a <= u < a + alloc'[a];
      }
      if InAlloc(alloc', u) {
        var a :| a in alloc' && a <= u < a + alloc'[a];
        assert a != bp ==> a in alloc;
      }
      if u in Units(bp, n) {
        assert bp in alloc' && bp <= u < bp + alloc'[bp];
      }
    }
  }

  /** New memory above the limit, with a header of its size, is an allocated block. */
  lemma GrowOk(base: int, l: FreeList, alloc: map<int, int>, obtained: set<int>, limit: int, bp: int, n: nat)
    requires HeapOk(base, l, alloc, obtained, limit) && bp >= limit && n >= 1
    ensures HeapOk(base, l.(size := l.size[bp := n]), alloc[bp := n], obtained + Units(bp, n), bp + n)
  {
    GrowFresh(base, l, alloc, limit, bp);
    GrowAccounted(l, alloc, obtained, bp, n);
    GrowSeparate(base, l, alloc, limit, bp, n);
    hide Ring, Separate, Accounted;
  }

  lemma GrowFresh(base: int, l: FreeList, alloc: map<int, int>, limit: int, bp: int)
    requires ListOk(base, l) && Separate(base, l.nodes, l.size, alloc) && Bounded(base, l, alloc, limit) && bp >= limit
    ensures bp !in l.nodes && bp !in alloc
  {
  }

  lemma GrowSeparate(base: int, l: FreeList, alloc: map<int, int>, limit: int, bp: int, n: nat)
    requires Separate(base, l.nodes, l.size, alloc) && Bounded(base, l, alloc, limit)
    requires bp >= limit && n >= 1 && bp !in l.nodes && bp !in alloc
    ensures Separate(base, l.nodes, l.size[bp := n], alloc[bp := n])
  {
  }

  lemma WholeAccounted(l: FreeList, alloc: map<int, int>, obtained: set<int>, p: int)
    requires forall a :: a in l.nodes ==> a in l.size
    requires Accounted(l.nodes, l.size, alloc, obtained) && p in l.nodes && p !in alloc
    ensures Accounted(l.nodes - {p}, l.size, alloc[p := l.size[p]], obtained)
  {
    var alloc' := alloc[p := l.size[p]];
    forall u ensures u in obtained <==> InFree(l.nodes - {p}, l.size, u) || InAlloc(alloc', u) {
      if InFree(l.nodes, l.size, u) {
        var a :| a in l.nodes && a <= u < a + l.size[a];
        assert a == p || a in l.nodes - {p};
        assert p in alloc';
      }
      if InFree(l.nodes - {p}, l.size, u) {
        var a :| a in l.nodes - {p} && a <= u < a + l.size[a];
        assert a in l.nodes;
      }
      if InAlloc(alloc, u) {
        var a :| a in alloc && a <= u < a + alloc[a];
        assert a in alloc' && a != p;
      }
      if InAlloc(alloc', u) {
        var a :| a in alloc' && a <= u < a + alloc'[a];
        assert a == p || a in alloc;
      }
    }
  }

  /** Taking a whole block. */
  lemma TakeWholeOk(base: int, l: FreeList, alloc: map<int, int>, obtained: set<int>, limit: int, prev: int, p: int)
    requires HeapOk(base, l, alloc, obtained, limit)
    requires prev in l.nodes && p in l.nodes && prev in l.next && l.next[prev] == p && p != base
    ensures p in l.next && HeapOk(base, Unlinked(l, prev, p), alloc[p := l.size[p]], obtained, limit)
  {
    UnlinkedOk(base, l, prev, p);
    WholeAccounted(l, alloc, obtained, p);
  }

  /** Taking the upper end of a larger block. */
  lemma TakeTailOk(base: int, l: FreeList, alloc: map<int, int>, obtained: set<int>, limit: int, p: int, n: int)
    requires HeapOk(base, l, alloc, obtained, limit) && p in l.nodes && 1 <= n < l.size[p]
    ensures HeapOk(base, Split(l, p, n), alloc[p + l.size[p] - n := n], obtained, limit)
  {
    TailAccounted(l, alloc, obtained, p, n);
    hide ListOk, Separate, Accounted;
  }

  lemma TailAccounted(l: FreeList, alloc: map<int, int>, obtained: set<int>, p: int, n: int)
    requires forall a :: a in l.nodes ==> a in l.size
    requires Accounted(l.nodes, l.size, alloc, obtained) && p in l.nodes && 1 <= n < l.size[p]
    requires p + l.size[p] - n !in l.nodes && p + l.size[p] - n !in alloc
    ensures Accounted(l.nodes, Split(l, p, n).size, alloc[p + l.size[p] - n := n], obtained)
  {
    var cut := p + l.size[p] - n;
    var r, alloc' := Split(l, p, n), alloc[cut := n];
    forall u ensures u in obtained <==> InFree(l.nodes, r.size, u) || InAlloc(alloc', u) {
      if InFree(l.nodes, l.size, u) {
        var a :| a in l.nodes && a <= u < a + l.size[a];
        assert a <= u < a + r.size[a] || cut <= u < cut + alloc'[cut];
      }
      if InFree(l.nodes, r.size, u) {
        var a :| a in l.nodes && a <= u < a + r.size[a];
        assert a <= u < a + l.size[a];
      }
      if InAlloc(alloc, u) {
        var a :| a in alloc && a <= u < a + alloc[a];
        assert a in alloc' && alloc'[a] == alloc[a];
      }
      if InAlloc(alloc', u) {
        var a :| a in alloc' && a <= u < a + alloc'[a];
        assert a == cut ==> p <= u < p + l.size[p];
        assert a != cut ==> a in alloc;
      }
    }
  }

  // ---------- the code ----------

  /** The units a request needs: its bytes rounded up, and a header. */
  function UnitsFor(nbytes: nat): nat {
    (nbytes + HEADER - 1) / HEADER + 1
  }

  /** How many units morecore asks for. */
  function Enough(n: nat): nat {
    if n < MINUNITS then MINUNITS else n
  }

  /** A value passed where the callee takes a 32-bit int. */
  function ToInt32(x: nat): int {
    var low := x % 0x1_0000_0000;
    if low < INT_LIMIT then low else low - 0x1_0000_0000
  }

  const MAXREQUEST := INT_LIMIT - 2 * HEADER

  /**
   The parameter of sbrk is an int. The memory that morecore puts a header on is the memory
   it obtained exactly for requests up to MAXREQUEST; a larger one gets less than it records.
   */
  lemma GrowthExact(nbytes: nat)
    requires nbytes < 0x1_0000_0000
    ensures ToInt32(Enough(UnitsFor(nbytes)) * HEADER) == Enough(UnitsFor(nbytes)) * HEADER <==> nbytes <= MAXREQUEST
    ensures nbytes > MAXREQUEST ==> ToInt32(Enough(UnitsFor(nbytes)) * HEADER) < Enough(UnitsFor(nbytes)) * HEADER
  {
    var n := UnitsFor(nbytes);
    assert nbytes <= MAXREQUEST <==> n * HEADER < INT_LIMIT;
  }

  /** The loop of free stops at p: bp belongs behind p. */
  predicate StopsAt(next: map<int, int>, p: int, bp: int)
    requires p in next
  {
    (p < bp < next[p]) || (p >= next[p] && (bp > p || bp < next[p]))
  }

  lemma {:induction false} HighestBelow(nodes: set<int>, base: int, bp: int) returns (x: int)
    requires base in nodes && base < bp
    ensures x in nodes && x < bp && forall b :: b in nodes && b < bp ==> b <= x
  {
    if exists b :: b in nodes && base < b < bp {
      var b :| b in nodes && base < b < bp;
      x := HighestBelow(nodes - {base}, b, bp);
      assert b in nodes - {base};
      forall c | c in nodes && c < bp ensures c <= x {
        assert c == base || c in nodes - {base};
      }
    } else {
      x := base;
    }
  }

  /** Somewhere in the ring is a place for every address above base. */
  lemma StopsSomewhere(base: int, nodes: set<int>, next: map<int, int>, bp: int) returns (x: int)
    requires Ring(base, nodes, next) && bp > base && bp !in nodes
    ensures x in nodes && x in next && StopsAt(next, x, bp)
  {
    x := HighestBelow(nodes, base, bp);
    assert Follows(base, nodes, next, x);
  }

  lemma SizeRecorded(base: int, l: FreeList, alloc: map<int, int>, obtained: set<int>, limit: int, bp: int)
    requires HeapOk(base, l, alloc, obtained, limit) && bp in alloc
    ensures bp in l.size && l.size[bp] == alloc[bp]
  {
  }

  lemma NewBlock(base: int, l: FreeList, alloc: map<int, int>, obtained: set<int>, limit: int, bp: int, n: nat)
    requires HeapOk(base, l, alloc, obtained, limit) && bp >= limit
    ensures alloc[bp := n] - {bp} == alloc && forall a :: a in l.nodes ==> a != bp && a + l.size[a] <= bp
  {
    assert bp !in alloc;
  }

  class Heap {
    const base: int
    var next: map<int, int>
    var size: map<int, int>
    var freep: int
    ghost var nodes: set<int>
    ghost var alloc: map<int, int>    // allocated blocks and their sizes
    ghost var obtained: set<int>      // units obtained from sbrk
    ghost var limit: int              // end of the memory obtained

    ghost function List(): FreeList
      reads this
    {
      FreeList(nodes, next, size)
    }

    ghost predicate Valid()
      reads this
    {
      && NULL < base
      && if freep == NULL then alloc == map[] && obtained == {} && base < limit
         else freep in nodes && HeapOk(base, List(), alloc, obtained, limit)
    }

    constructor (base: int, end: int)
      requires NULL < base < end
      ensures Valid() && freep == NULL && this.base == base && limit == end
    {
      this.base, freep, next, size := base, NULL, map[], map[];
      nodes, alloc, obtained, limit := {}, map[], {}, end;
    }

    /** Finds the node after which a block belongs. */
    method Place(bp: int) returns (p: int)
      requires Valid() && freep != NULL && bp in alloc
      ensures p in nodes && FitsAfter(base, List(), p, bp)
    {
      p := freep;
      ghost var started, left := false, nodes;
      while !Between(p, bp)
        invariant p in nodes && Follows(base, nodes, next, p)
        invariant left == if started then Ahead(nodes, freep, p) else nodes
        invariant !started ==> p == freep
        invariant started ==> freep in next && !StopsAt(next, freep, bp)
        invariant forall x :: x in nodes && x !in left && x != p ==> x in next && !StopsAt(next, x, bp)
        decreases left
      {
        if p >= next[p] && (bp > p || bp < next[p]) {
          break;
        }
        if started {
          assert p != freep by {
            if p == freep {
              AheadOfFreep(base, nodes, next, freep);
              var x := StopsSomewhere(base, nodes, next, bp);
            }
          }
          AheadShrinks(base, nodes, next, freep, p);
        } else {
          AheadOfFreep(base, nodes, next, freep);
        }
        p := next[p];
        assert Follows(base, nodes, next, p);
        started, left := true, Ahead(nodes, freep, p);
      }
    }

    predicate Between(p: int, bp: int)
      reads this
    {
      p in next && p < bp < next[p]
    }

    /** Links bp to the node after p, or merges with it. */
    method JoinUp(p: int, bp: int)
      requires p in next && bp in size && next[p] in size && next[p] in next
      modifies this`nodes, this`next, this`size
      ensures List() == JoinedUpward(old(List()), p, bp)
    {
      if bp + size[bp] == next[p] {
        nodes := nodes - {next[p]};
        var q := next[p];
        size := size[bp := size[bp] + size[q]];
        next := next[bp := next[q]];
      } else {
        next := next[bp := next[p]];
      }
    }

    /** Links p to bp, or merges with it. */
    method JoinDown(p: int, bp: int)
      requires p in size && bp in size && bp in next
      modifies this`nodes, this`next, this`size
      ensures List() == JoinedDownward(old(List()), p, bp)
    {
      if p + size[p] == bp {
        size := size[p := size[p] + size[bp]];
        next := next[p := next[bp]];
      } else {
        nodes := nodes + {bp};
        next := next[p := bp];
      }
    }

    /** Gives back the block whose user address is ap, merging it with free neighbours. */
    method Free(ap: int)
      requires Valid() && freep != NULL && ap - 1 in alloc
      modifies this
      ensures Valid() && freep != NULL
      ensures alloc == old(alloc) - {ap - 1} && obtained == old(obtained) && limit == old(limit)
      ensures exists x :: x in nodes && x in size && x <= ap - 1 && ap - 1 + old(alloc)[ap - 1] <= x + size[x]
      // the search of the next malloc starts where the block belongs
      ensures FitsAfter(base, old(List()), freep, ap - 1) && List() == Inserted(old(List()), freep, ap - 1)
    {
      hide HeapOk, ListOk, FitsAfter;
      var bp := ap - 1;
      var p := Place(bp);
      ghost var l := List();
      FreeOk(base, l, alloc, obtained, limit, p, bp);
      FreeFacts(base, l, p, bp);
      SizeRecorded(base, l, alloc, obtained, limit, bp);
      JoinUp(p, bp);
      JoinDown(p, bp);
      freep := p;
      alloc := alloc - {bp};
    }

    /** Obtains memory for at least n units; `core` is what sbrk returns, -1 for failure. */
    method Morecore(n: nat, core: int) returns (p: int)
      requires Valid() && freep != NULL && Enough(n) * HEADER < INT_LIMIT
      requires core == -1 || core >= limit
      modifies this
      ensures Valid() && freep != NULL && alloc == old(alloc)
      ensures core == -1 ==>
        p == NULL && obtained == old(obtained) && limit == old(limit) && List() == old(List()) && freep == old(freep)
      ensures core != -1 ==> p == freep && obtained == old(obtained) + Units(core, Enough(n))
      ensures core != -1 ==> exists x :: x in nodes && x in size && size[x] >= n
      ensures core != -1 && (forall a :: a in old(nodes) ==> old(size)[a] < n) ==>
        forall a :: a in nodes && size[a] >= n ==> a + size[a] == core + Enough(n)
    {
      hide HeapOk, ListOk, FitsAfter, Inserted, Ring, Coalesced;
      var nu := if n < MINUNITS then MINUNITS else n;
      var bytes := ToInt32(nu * HEADER);
      if core == -1 {
        return NULL;
      }
      GrowOk(base, List(), alloc, obtained, limit, core, nu);
      NewBlock(base, List(), alloc, obtained, limit, core, nu);
      obtained, limit := obtained + Units(core, bytes / HEADER), core + bytes / HEADER;
      size := size[core := nu];
      alloc := alloc[core := nu];
      ghost var l := List();
      Free(core + 1);
      if forall a :: a in l.nodes ==> l.size[a] < n {
        InsertedOnTop(base, l, freep, core, n);
      }
      return freep;
    }

    /** Takes n units from the block p, whole or its upper end, and remembers where the search stopped. */
    method Take(prev: int, p: int, n: nat) returns (r: int)
      requires Valid() && freep != NULL && n >= 1
      requires prev in nodes && p in nodes && prev in next && next[prev] == p && p in size && size[p] >= n
      modifies this
      ensures Valid() && freep == prev && r != NULL
      ensures r - 1 !in old(alloc) && alloc == old(alloc)[r - 1 := n] && obtained == old(obtained)
      ensures limit == old(limit) && r - 1 + n == p + old(size)[p]
    {
      hide HeapOk, ListOk;
      ghost var l := List();
      TakenIsFree(base, l, alloc, obtained, limit, prev, p, n);
      var q := p;
      if size[p] == n {
        TakeWholeOk(base, l, alloc, obtained, limit, prev, p);
        next := next[prev := next[p]];
        nodes := nodes - {p};
      } else {
        TakeTailOk(base, l, alloc, obtained, limit, p, n);
        size := size[p := size[p] - n];
        q := p + size[p];
        size := size[q := n];
      }
      freep := prev;
      alloc := alloc[q := n];
      return q + 1;
    }

    /**
     Allocates nbytes. `core` is what sbrk returns if it is called, which happens at most once:
     `grows` counts the calls.
     */
    method Malloc(nbytes: nat, core: int) returns (r: int, ghost grows: nat)
      requires Valid() && nbytes <= MAXREQUEST && (core == -1 || core >= limit)
      modifies this
      ensures Valid() && grows <= 1
      ensures r == NULL <==> grows == 1 && core == -1
      ensures r == NULL ==> alloc == old(alloc) && obtained == old(obtained)
      ensures r != NULL ==> r - 1 !in old(alloc) && alloc == old(alloc)[r - 1 := UnitsFor(nbytes)]
      // the block has as many units as a header and nbytes need, and no more
      ensures r != NULL ==> (alloc[r - 1] - 1) * HEADER >= nbytes > (alloc[r - 1] - 2) * HEADER
      ensures obtained == if grows == 0 || core == -1 then old(obtained)
                          else old(obtained) + Units(core, Enough(UnitsFor(nbytes)))
      // the system is asked for memory only if no free block is large enough
      ensures grows == 1 <==> old(freep) == NULL || forall a :: a in old(nodes) ==> old(size)[a] < UnitsFor(nbytes)
      // it takes the upper end of the first block on the way round that is large enough, else of the new memory
      ensures r != NULL && grows == 0 ==>
        && freep in old(next) && var p := old(next)[freep];
        FirstFit(old(nodes), old(size), old(freep), UnitsFor(nbytes), p) && r - 1 + alloc[r - 1] == p + old(size)[p]
      ensures r != NULL && grows == 1 ==> r - 1 + alloc[r - 1] == core + Enough(UnitsFor(nbytes))
    {
      var n := UnitsFor(nbytes);
      if freep == NULL {
        freep := base;
        next := next[base := base];
        size := size[base := 0];
        nodes := {base};
        assert Follows(base, nodes, next, base);
      }
      r, grows := Search(n, core);
    }

    /** The loop of malloc. */
    method Search(n: nat, core: int) returns (r: int, ghost grows: nat)
      requires Valid() && freep != NULL && n >= 1 && Enough(n) * HEADER < INT_LIMIT && (core == -1 || core >= limit)
      modifies this
      ensures Valid() && grows <= 1
      ensures r == NULL <==> grows == 1 && core == -1
      ensures r == NULL ==> alloc == old(alloc) && obtained == old(obtained)
      ensures r != NULL ==> r - 1 !in old(alloc) && alloc == old(alloc)[r - 1 := n]
      ensures obtained == if grows == 0 || core == -1 then old(obtained) else old(obtained) + Units(core, Enough(n))
      ensures grows == 1 <==> forall a :: a in old(nodes) ==> old(size)[a] < n
      ensures r != NULL && grows == 0 ==>
        && freep in old(next) && var p := old(next)[freep];
        FirstFit(old(nodes), old(size), old(freep), n, p) && r - 1 + n == p + old(size)[p]
      ensures r != NULL && grows == 1 ==> r - 1 + n == core + Enough(n)
    {
      hide HeapOk, ListOk, Ring, Ahead;
      AheadOfFreep(base, nodes, next, freep);
      var prev := freep;
      var p := next[prev];
      grows := 0;
      while true
        invariant Valid() && freep != NULL && prev in nodes && prev in next && next[prev] == p && p in nodes
        invariant alloc == old(alloc) && grows <= 1
        invariant grows == 0 ==>
          List() == old(List()) && freep == old(freep) && obtained == old(obtained) && limit == old(limit)
        invariant grows == 1 ==> core != -1 && obtained == old(obtained) + Units(core, Enough(n))
        invariant grows == 1 ==> (exists x :: x in nodes && size[x] >= n) && forall a :: a in old(nodes) ==>
          old(size)[a] < n
        invariant grows == 1 ==> forall a :: a in nodes && size[a] >= n ==> a + size[a] == core + Enough(n)
        invariant forall x :: x in nodes && x != p && x !in Ahead(nodes, freep, p) ==> size[x] < n
        decreases 1 - grows, Ahead(nodes, freep, p)
      {
        if size[p] >= n {
          r := Take(prev, p, n);
          return;
        }
        if p == freep {
          AheadOfFreep(base, nodes, next, freep);
          assert grows == 0;
          p := Morecore(n, core);
          grows := 1;
          if p == NULL {
            return NULL, 1;
          }
          AheadOfFreep(base, nodes, next, freep);
        } else {
          AheadShrinks(base, nodes, next, freep, p);
        }
        prev := p;
        p := next[p];
      }
    }
  }

  lemma TakenIsFree(base: int, l: FreeList, alloc: map<int, int>, obtained: set<int>, limit: int, prev: int, p: int,
                    n: int)
    requires HeapOk(base, l, alloc, obtained, limit) && p in l.nodes && 1 <= n <= l.size[p]
    requires prev in l.nodes && prev in l.next && l.next[prev] == p
    ensures prev != p && p != base && p !in alloc && p + l.size[p] - n !in alloc && p in l.next
  {
    assert Follows(base, l.nodes, l.next, p);
  }
}
