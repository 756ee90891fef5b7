/**
 The kernel's table of Peterson locks.

 Every system call works on one entry while holding that entry's spinlock, so a
 call is a short series of atomic sections: the doorway of an acquire (raise the
 flag, give the turn away), one evaluation of the wait condition, and a release.
 Each atomic section is a function on the entry, and a method of `LockTable` that
 updates the table in place and is proved to apply that function.
 */
module Peterson {

  const NPETERSONLOCKS := 16

  type Role = r: int | 0 <= r <= 1

  datatype Lock = Lock(active: bool, flag0: bool, flag1: bool, turn: Role) {

    predicate Flag(r: Role) {
      if r == 0 then flag0 else flag1
    }

    function SetFlag(r: Role, up: bool): Lock {
      if r == 0 then this.(flag0 := up) else this.(flag1 := up)
    }

    /** Raise the own flag and hand the turn to the other role. */
    function Doorway(r: Role): Lock {
      SetFlag(r, true).(turn := 1 - r)
    }

    /** The wait condition: the other role is interested and has the turn. */
    predicate MustWait(r: Role) {
      Flag(1 - r) && turn == 1 - r
    }
  }

  const FRESH := Lock(true, false, false, 0)
  const INACTIVE := Lock(false, false, false, 0)

  type Table = seq<Lock>

  /** The arguments a system call accepts on this table. */
  predicate Accepted(t: Table, id: int, role: int) {
    0 <= id < |t| && 0 <= role <= 1 && t[id].active
  }

  datatype TestResult = Again | Acquired | Rejected

  /** One evaluation of the wait loop of an acquire, entered with valid arguments. */
  function Test(k: Lock, r: Role): TestResult {
    if !k.active then Rejected else if k.MustWait(r) then Again else Acquired
  }

  class LockTable {
    var locks: Table

    ghost predicate Valid()
      reads this
    {
      |locks| == NPETERSONLOCKS
    }

    constructor ()
      ensures Valid()
      ensures forall i :: 0 <= i < |locks| ==> locks[i] == INACTIVE
    {
      locks := seq(NPETERSONLOCKS, i => INACTIVE);
    }

    /** Claims the first inactive entry, or reports that there is none. */
    method Create() returns (id: int)
      requires Valid()
      modifies this
      ensures Valid()
      ensures -1 <= id < |locks|
      ensures id == -1 ==> locks == old(locks) && forall i :: 0 <= i < |locks| ==> locks[i].active
      ensures id != -1 ==>
        && !old(locks)[id].active
        && (forall i :: 0 <= i < id ==> old(locks)[i].active)
        && locks == old(locks)[id := FRESH]
    {
      for i := 0 to NPETERSONLOCKS
        invariant Valid() && locks == old(locks)
        invariant forall j :: 0 <= j < i ==> locks[j].active
      {
        if !locks[i].active {
          locks := locks[i := FRESH];
          return i;
        }
      }
      return -1;
    }

    /** The doorway of an acquire, up to the first evaluation of the wait condition. */
    method Enter(id: int, role: int) returns (ok: bool)
      requires Valid()
      modifies this
      ensures Valid()
      ensures ok <==> Accepted(old(locks), id, role)
      ensures locks == if ok then old(locks)[id := old(locks)[id].Doorway(role)] else old(locks)
    {
      if id < 0 || id >= NPETERSONLOCKS || (role != 0 && role != 1) {
        return false;
      }
      if !locks[id].active {
        return false;
      }
      locks := locks[id := locks[id].SetFlag(role, true)];
      locks := locks[id := locks[id].(turn := 1 - role)];
      return true;
    }

    /** One pass through the wait loop of an acquire. */
    method Evaluate(id: int, role: Role) returns (r: TestResult)
      requires Valid() && 0 <= id < NPETERSONLOCKS
      ensures r == Test(locks[id], role)
      ensures r.Acquired? <==> locks[id].active && !(locks[id].Flag(1 - role) && locks[id].turn != role)
    {
      if locks[id].Flag(1 - role) && locks[id].turn == 1 - role {
        if !locks[id].active {
          return Rejected;
        }
        return Again;
      }
      if !locks[id].active {
        return Rejected;
      }
      return Acquired;
    }

    method Release(id: int, role: int) returns (ok: bool)
      requires Valid()
      modifies this
      ensures Valid()
      ensures ok <==> Accepted(old(locks), id, role)
      ensures locks == if ok then old(locks)[id := old(locks)[id].SetFlag(role, false)] else old(locks)
    {
      if id < 0 || id >= NPETERSONLOCKS || (role != 0 && role != 1) {
        return false;
      }
      if !locks[id].active {
        return false;
      }
      locks := locks[id := locks[id].SetFlag(role, false)];
      return true;
    }
  }
}
