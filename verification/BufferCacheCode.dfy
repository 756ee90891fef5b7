/**
 The critical sections of the buffer cache on its doubly linked list. `order` is the list from
 head.next to head.prev; every section is proved to do to the buffers and to the order what the
 transition system of BufferCache does.
 */
module BufferCacheCode {

  import opened Params
  import opened BufferCache

  const HEAD := NBUF

  /** The k-th element of the list, HEAD before the first and after the last. */
  function At(order: seq<nat>, k: int): nat {
    if 0 <= k < |order| then order[k] else HEAD
  }

  /** next and prev chain HEAD and the elements of order into a ring. */
  ghost predicate Linked(next: seq<nat>, prev: seq<nat>, order: seq<nat>)
    ensures Linked(next, prev, order) ==> |next| == NBUF + 1 && |prev| == NBUF + 1
    ensures Linked(next, prev, order) ==> forall i :: 0 <= i < |order| ==> order[i] < NBUF
  {
    && |next| == NBUF + 1 && |prev| == NBUF + 1
    && (forall i :: 0 <= i < |order| ==> order[i] < NBUF)
    && (forall i, j :: 0 <= i < j < |order| ==> order[i] != order[j])
    && (forall i, j {:trigger At(order, i), At(order, j)} :: -1 <= i < |order| && j == i + 1 ==>
          next[At(order, i)] == At(order, j) && prev[At(order, j)] == At(order, i))
  }

  /** Linking b between HEAD and the first element. */
  lemma InsertLinks(next: seq<nat>, prev: seq<nat>, order: seq<nat>, b: nat, next': seq<nat>, prev': seq<nat>)
    requires Linked(next, prev, order) && b < NBUF && b !in order && next[HEAD] <= NBUF
    requires next' == next[b := next[HEAD]][HEAD := b] && prev' == prev[b := HEAD][next[HEAD] := b]
    ensures Linked(next', prev', [b] + order)
  {
    var order' := [b] + order;
    assert next[At(order, -1)] == At(order, 0);
    forall i, j | -1 <= i < |order'| && j == i + 1
      ensures next'[At(order', i)] == At(order', j) && prev'[At(order', j)] == At(order', i)
    {
      if i > 0 {
        assert At(order', i) == At(order, i - 1) && At(order', j) == At(order, i);
        assert next[At(order, i - 1)] == At(order, i) && prev[At(order, i)] == At(order, i - 1);
        assert At(order, i) != At(order, 0);
      }
    }
  }

  /** Linking the neighbours of the k-th element with each other. */
  lemma UnlinkLinks(next: seq<nat>, prev: seq<nat>, order: seq<nat>, k: nat, next': seq<nat>, prev': seq<nat>)
    requires Linked(next, prev, order) && k < |order|
    requires next' == next[At(order, k - 1) := At(order, k + 1)] && prev' == prev[At(order, k + 1) := At(order, k - 1)]
    ensures Linked(next', prev', order[..k] + order[k + 1..])
  {
    var order' := order[..k] + order[k + 1..];
    forall i, j | -1 <= i < |order'| && j == i + 1
      ensures next'[At(order', i)] == At(order', j) && prev'[At(order', j)] == At(order', i)
    {
      if i < k - 1 {
        assert At(order', i) == At(order, i) && At(order', j) == At(order, j);
      } else if i == k - 1 {
        assert At(order', i) == At(order, k - 1) && At(order', j) == At(order, k + 1);
      } else {
        assert At(order', i) == At(order, i + 1) && At(order', j) == At(order, j + 1);
      }
    }
  }

  /** Stepping forward along the ring. */
  lemma LinkedAhead(next: seq<nat>, prev: seq<nat>, order: seq<nat>, k: int)
    requires Linked(next, prev, order) && -1 <= k < |order|
    ensures At(order, k) <= NBUF && next[At(order, k)] == At(order, k + 1)
  {
    assert At(order, k + 1) == At(order, k + 1);
  }

  lemma CachedAhead(bufs: seq<Buf>, order: seq<nat>, dev: nat, blockno: nat, k: nat)
    requires k < |order| && forall i :: 0 <= i < |order| ==> order[i] < |bufs|
    ensures
      var b := bufs[order[k]];
      Cached(bufs, order[k..], dev, blockno) ==
        if b.dev == dev && b.blockno == blockno then order[k] else Cached(bufs, order[k + 1..], dev, blockno)
  {
    assert order[k..][1..] == order[k + 1..];
  }

  lemma NoneCached(bufs: seq<Buf>, dev: nat, blockno: nat)
    ensures Cached(bufs, [], dev, blockno) == -1
  {
  }

  /** Stepping backward along the ring. */
  lemma LinkedBack(next: seq<nat>, prev: seq<nat>, order: seq<nat>, k: nat)
    requires Linked(next, prev, order) && k <= |order|
    ensures |prev| == NBUF + 1 && At(order, k) <= NBUF && prev[At(order, k)] == At(order, k - 1)
    ensures k < |order| ==> At(order, k) == order[k] != HEAD
  {
    assert -1 <= k - 1 < |order| && At(order, k - 1) == At(order, k - 1);
  }

  lemma VictimBack(bufs: seq<Buf>, order: seq<nat>, k: nat)
    requires k < |order| && forall i :: 0 <= i < |order| ==> order[i] < |bufs|
    ensures Victim(bufs, order[..k + 1]) == if bufs[order[k]].refcnt == 0 then order[k] else Victim(bufs, order[..k])
  {
    assert order[..k + 1][..k] == order[..k];
  }

  lemma NoVictim(bufs: seq<Buf>)
    ensures Victim(bufs, []) == -1
  {
  }

  class Bcache {

    var next: seq<nat>
    var prev: seq<nat>
    var bufs: seq<Buf>
    ghost var order: seq<nat>

    ghost predicate Valid()
      reads this
    {
      Linked(next, prev, order) && |order| == NBUF && |bufs| == NBUF && forall b :: 0 <= b < NBUF ==> b in order
    }

    /** binit: each buffer in turn is put in front. */
    constructor ()
      ensures Valid() && forall b :: 0 <= b < NBUF ==> bufs[b] == Buf(0, 0, 0, false, false, [])
      ensures forall i :: 0 <= i < NBUF ==> order[i] == NBUF - 1 - i
    {
      bufs := seq(NBUF, i => Buf(0, 0, 0, false, false, []));
      next := seq(NBUF + 1, i => HEAD);
      prev := seq(NBUF + 1, i => HEAD);
      order := [];
      new;
      var b := 0;
      while b < NBUF
        invariant 0 <= b <= NBUF && |bufs| == NBUF && Linked(next, prev, order) && |order| == b
        invariant forall i :: 0 <= i < b ==> order[i] == b - 1 - i
        invariant forall c :: 0 <= c < NBUF ==> bufs[c] == Buf(0, 0, 0, false, false, [])
      {
        Insert(b);
        b := b + 1;
      }
      forall c | 0 <= c < NBUF ensures c in order {
        assert order[NBUF - 1 - c] == c;
      }
    }

    /** Puts a buffer that is not on the list in front. */
    method Insert(b: nat)
      requires Linked(next, prev, order) && b < NBUF && b !in order
      modifies this
      ensures Linked(next, prev, order) && order == [b] + old(order) && bufs == old(bufs)
    {
      assert next[At(order, -1)] == At(order, 0);
      InsertLinks(next, prev, order, b, next[b := next[HEAD]][HEAD := b], prev[b := HEAD][next[HEAD] := b]);
      next := next[b := next[HEAD]];
      prev := prev[b := HEAD];
      prev := prev[next[HEAD] := b];
      next := next[HEAD := b];
      order := [b] + order;
    }

    /** bget's first loop: forward from head.next. */
    method FindCached(dev: nat, blockno: nat) returns (b: int)
      requires Valid()
      ensures b == Cached(bufs, order, dev, blockno)
    {
      hide Linked, Cached;
      LinkedAhead(next, prev, order, -1);
      var cur := next[HEAD];
      ghost var i := 0;
      assert order[0..] == order;
      while cur != HEAD
        invariant 0 <= i <= NBUF && cur == At(order, i)
        invariant Cached(bufs, order, dev, blockno) == Cached(bufs, order[i..], dev, blockno)
        decreases NBUF - i
      {
        CachedAhead(bufs, order, dev, blockno, i);
        if bufs[cur].dev == dev && bufs[cur].blockno == blockno {
          return cur;
        }
        LinkedAhead(next, prev, order, i);
        cur, i := next[cur], i + 1;
      }
      NoneCached(bufs, dev, blockno);
      return -1;
    }

    /** bget's second loop: backward from head.prev. */
    method FindVictim() returns (b: int)
      requires Valid()
      ensures b == Victim(bufs, order)
    {
      hide Linked, Victim;
      LinkedBack(next, prev, order, NBUF);
      var cur := prev[HEAD];
      ghost var i := NBUF - 1;
      assert order[..i + 1] == order;
      while cur != HEAD
        invariant -1 <= i < NBUF && cur == At(order, i)
        invariant Victim(bufs, order) == Victim(bufs, order[..i + 1])
        decreases i
      {
        VictimBack(bufs, order, i);
        if bufs[cur].refcnt == 0 {
          return cur;
        }
        LinkedBack(next, prev, order, i);
        cur, i := prev[cur], i - 1;
      }
      NoVictim(bufs);
      return -1;
    }

    /** bget up to the release of bcache.lock: the buffer for the block, or -1 for the panic. */
    method Bget(dev: nat, blockno: nat) returns (b: int)
      requires Valid()
      modifies this`bufs
      ensures Valid() && b == old(Chosen(bufs, order, dev, blockno))
      ensures b == -1 ==> bufs == old(bufs)
      ensures b != -1 ==> 0 <= b < NBUF && bufs == old(bufs)[b := Claimed(old(bufs[b]), dev, blockno)]
    {
      b := FindCached(dev, blockno);
      if b != -1 {
        bufs := bufs[b := bufs[b].(refcnt := bufs[b].refcnt + 1)];
        return;
      }
      b := FindVictim();
      if b != -1 {
        bufs := bufs[b := bufs[b].(dev := dev, blockno := blockno, valid := false, refcnt := 1)];
      }
    }

    /** brelse after the release of the sleep lock: the last reference moves the buffer to the front. */
    method Drop(b: nat)
      requires Valid() && b < NBUF && bufs[b].refcnt > 0
      modifies this
      ensures Valid() && bufs == old(bufs)[b := old(bufs[b]).(refcnt := old(bufs[b].refcnt) - 1)]
      ensures order == if bufs[b].refcnt == 0 then ToFront(old(order), b) else old(order)
    {
      bufs := bufs[b := bufs[b].(refcnt := bufs[b].refcnt - 1)];
      if bufs[b].refcnt == 0 {
        assert b in order;
        ghost var k :| 0 <= k < NBUF && order[k] == b;
        WithoutAt(order, k);
        Unlink(b, k);
        Insert(b);
      }
    }

    /** Takes the k-th element out of the list. */
    method Unlink(b: nat, ghost k: nat)
      requires Linked(next, prev, order) && k < |order| && order[k] == b
      modifies this
      ensures Linked(next, prev, order) && order == old(order[..k] + order[k + 1..]) && bufs == old(bufs)
    {
      assert prev[At(order, k)] == At(order, k - 1) && next[At(order, k)] == At(order, k + 1);
      UnlinkLinks(next, prev, order, k, next[prev[b] := next[b]], prev[next[b] := prev[b]]);
      prev := prev[next[b] := prev[b]];
      next := next[prev[b] := next[b]];
      order := order[..k] + order[k + 1..];
    }
  }
}
