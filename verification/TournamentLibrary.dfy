/**
 Creating a tournament: the power-of-two test, the lock array and the numbering of
 the forked processes. A successful creation is an initial state of the tree.
 */
module TournamentLibrary {
  import opened Params
  import opened Peterson
  import opened Tournament

  // ---------- creating the tree ----------

  /** a & b */
  function BitAnd(a: nat, b: nat): nat {
    if a == 0 || b == 0 then 0 else 2 * BitAnd(a / 2, b / 2) + (if a % 2 == 1 && b % 2 == 1 then 1 else 0)
  }

  lemma {:induction false} BitAndSelf(a: nat)
    ensures BitAnd(a, a) == a
  {
    if a > 0 { BitAndSelf(a / 2); }
  }

  ghost predicate IsPow2(n: int) {
    exists k: nat :: n == Pow2(k)
  }

  /** The bit trick: n & (n - 1) vanishes exactly on the powers of two. */
  lemma {:induction false} BitTrick(n: nat)
    requires n > 0
    ensures BitAnd(n, n - 1) == 0 <==> IsPow2(n)
  {
    if n == 1 {
      assert n == Pow2(0);
    } else if n % 2 == 1 {
      BitAndSelf(n / 2);
      forall k: nat ensures n != Pow2(k) {}
    } else {
      BitTrick(n / 2);
      assert BitAnd(n, n - 1) == 2 * BitAnd(n / 2, n / 2 - 1);
      if IsPow2(n / 2) {
        var k: nat :| n / 2 == Pow2(k);
        assert n == Pow2(k + 1);
      }
      if IsPow2(n) {
        var k: nat :| n == Pow2(k);
        assert n / 2 == Pow2(k - 1);
      }
    }
  }

  method Log2IfPowerOf2(n: int) returns (r: int)
    ensures r == -1 <==> !IsPow2(n)
    ensures r != -1 ==> r >= 0 && n == Pow2(r)
  {
    if n <= 0 {
      return -1;
    }
    if n == 1 {
      assert n == Pow2(0);
      return 0;
    }
    BitTrick(n);
    if BitAnd(n, n - 1) != 0 {
      return -1;
    }
    ghost var k: nat :| n == Pow2(k);
    var temp := n;
    r := 0;
    while temp > 1
      invariant 0 <= r <= k && temp == Pow2(k - r)
    {
      temp := temp / 2;
      r := r + 1;
    }
    assert Pow2(k - r) == 1;
  }

  function InactiveCount(t: Table): nat {
    if |t| == 0 then 0 else InactiveCount(t[..|t| - 1]) + Count(!t[|t| - 1].active)
  }

  lemma {:induction false} InactiveNone(t: Table)
    requires forall i :: 0 <= i < |t| ==> t[i].active
    ensures InactiveCount(t) == 0
  {
    if |t| > 0 { InactiveNone(t[..|t| - 1]); }
  }

  lemma {:induction false} InactiveUpdate(t: Table, i: nat, k: Lock)
    requires i < |t| && !t[i].active && k.active
    ensures InactiveCount(t) == InactiveCount(t[i := k]) + 1
  {
    var n := |t| - 1;
    if i == n {
      assert t[i := k][..n] == t[..n];
    } else {
      InactiveUpdate(t[..n], i, k);
      assert t[i := k][..n] == t[..n][i := k];
    }
  }

  /** The static variables of the library in one process. */
  class Library {
    var ids: seq<int>
    var levels: int
    var processes: int
    var myId: int

    constructor ()
      ensures myId == -1 && processes == 0
    {
      ids, levels, processes, myId := [], 0, 0, -1;
    }

    /** Fills the id array with the locks of the tree, or stops at the first that is refused. */
    method CreateLocks(table: LockTable, count: nat) returns (ok: bool)
      requires table.Valid() && ids == []
      modifies this`ids, table
      ensures table.Valid()
      ensures ok <==> InactiveCount(old(table.locks)) >= count
      ensures ok ==> |ids| == count && forall k :: 0 <= k < |ids| ==>
        0 <= ids[k] < |table.locks| && table.locks[ids[k]] == FRESH
      ensures forall j, k :: 0 <= j < k < |ids| ==> ids[j] != ids[k]
      ensures forall k :: 0 <= k < |table.locks| && k !in ids ==> table.locks[k] == old(table.locks)[k]
    {
      var i := 0;
      while i < count
        invariant table.Valid() && 0 <= i == |ids| <= count
        invariant forall k :: 0 <= k < |ids| ==> 0 <= ids[k] < |table.locks| && table.locks[ids[k]] == FRESH
        invariant forall j, k :: 0 <= j < k < |ids| ==> ids[j] != ids[k]
        invariant forall k :: 0 <= k < |table.locks| && k !in ids ==> table.locks[k] == old(table.locks)[k]
        invariant InactiveCount(table.locks) + i == InactiveCount(old(table.locks))
      {
        ghost var before := table.locks;
        var k := table.Create();
        if k < 0 {
          InactiveNone(table.locks);
          return false;
        }
        InactiveUpdate(before, k, FRESH);
        ids := ids + [k];
        i := i + 1;
      }
      return true;
    }

    /**
     Builds the tree. `memory` says whether the allocation of the id array succeeds and
     `forks[i]` is what the fork for id i+1 returns in this process.
     */
    method Create(table: LockTable, n: int, memory: bool, forks: seq<int>) returns (id: int)
      requires table.Valid() && |forks| + 1 >= n
      modifies this, table
      ensures table.Valid()
      // when the locks of the tree exist, runs of the tree can start from this table
      ensures id != -1 ==> levels >= 0 && processes == n == Pow2(levels)
      ensures id != -1 ==> Init(Tree(levels, ids), State(table.locks, seq(n, i => Idle)))
      ensures id != -1 ==> forall i :: 0 <= i < |table.locks| && i !in ids ==> table.locks[i] == old(table.locks)[i]
      // each process gets the number of the fork it was born in, the first one gets 0
      ensures id != -1 ==>
        myId == id && 0 <= id < n && (forall i :: 0 <= i < (if id == 0 then n else id) - 1 ==> forks[i] > 0)
      ensures id > 0 ==> forks[id - 1] == 0
      // and the call fails for these reasons only
      ensures id == -1 <==> n > 16 || !IsPow2(n) || (n > 1 && !memory) || InactiveCount(old(table.locks)) < n - 1
                            || exists i :: 0 <= i < n - 1 && forks[i] < 0 && forall j :: 0 <= j < i ==> forks[j] > 0
    {
      if n > 16 {
        return -1;
      }
      var l := Log2IfPowerOf2(n);
      if l == -1 {
        return -1;
      }
      levels := l;
      processes := n;
      ids := [];
      if n - 1 > 0 {
        if !memory {
          return -1;
        }
        var ok := CreateLocks(table, n - 1);
        if !ok {
          return -1;
        }
      }
      myId := 0;
      for i := 1 to n
        invariant table.Valid() && levels == l && processes == n && myId == 0
        invariant Init(Tree(levels, ids), State(table.locks, seq(n, i => Idle)))
        invariant forall j :: 0 <= j < i - 1 ==> forks[j] > 0
        invariant forall k :: 0 <= k < |table.locks| && k !in ids ==> table.locks[k] == old(table.locks)[k]
      {
        var pid := forks[i - 1];
        if pid < 0 {
          return -1;
        }
        if pid == 0 {
          myId := i;
          return i;
        }
      }
      return 0;
    }
  }
}
