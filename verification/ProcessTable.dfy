/**
 The loops over the process table. Each method is proved to do to the table what the
 corresponding step of ProcessTree does.
 */
module ProcessTable {

  import opened Params
  import opened ProcessTree

  class Table {

    var procs: seq<Proc>
    var nextpid: nat

    constructor ()
      ensures procs == seq(NPROC, i => FREED) && nextpid == 1
    {
      procs := seq(NPROC, i => FREED);
      nextpid := 1;
    }

    /** allocproc: the first unused slot gets the next pid; NONE if there is none. */
    method Allocproc() returns (np: int)
      modifies this
      ensures np == NONE <==> forall i :: 0 <= i < |old(procs)| ==> !old(procs)[i].state.Unused?
      ensures np == NONE ==> procs == old(procs) && nextpid == old(nextpid)
      ensures np != NONE ==> 0 <= np < |old(procs)| && old(procs)[np].state.Unused? && nextpid == old(nextpid) + 1
      ensures np != NONE ==> procs == old(procs)[np := old(procs)[np].(state := Used, pid := old(nextpid))]
      ensures np != NONE ==> forall i :: 0 <= i < np ==> !old(procs)[i].state.Unused?
    {
      np := 0;
      while np < |procs|
        invariant 0 <= np <= |procs| && procs == old(procs) && nextpid == old(nextpid)
        invariant forall i :: 0 <= i < np ==> !procs[i].state.Unused?
      {
        if procs[np].state.Unused? {
          procs := procs[np := procs[np].(pid := nextpid)];
          nextpid := nextpid + 1;
          procs := procs[np := procs[np].(state := Used)];
          return;
        }
        np := np + 1;
      }
      return NONE;
    }

    method Freeproc(i: nat)
      requires i < |procs|
      modifies this`procs
      ensures procs == old(procs)[i := FREED]
    {
      procs := procs[i := procs[i].(pid := 0, parent := NONE)];
      procs := procs[i := procs[i].(chan := NONE, xstate := 0, state := Unused)];
    }

    /** wakeup by process self. */
    method Wakeup(chan: int, self: int)
      modifies this`procs
      ensures procs == Woken(old(procs), chan, self)
    {
      var i := 0;
      while i < |procs|
        invariant 0 <= i <= |procs| == |old(procs)|
        invariant forall k :: 0 <= k < i ==> procs[k] == Woken(old(procs), chan, self)[k]
        invariant forall k :: i <= k < |procs| ==> procs[k] == old(procs)[k]
      {
        if i != self && procs[i].state.Sleeping? && procs[i].chan == chan {
          procs := procs[i := procs[i].(state := Runnable)];
        }
        i := i + 1;
      }
    }

    /** reparent: every child of p gets init as its parent, and init is woken for it. */
    method Reparent(p: nat)
      requires p < |procs|
      modifies this`procs
      ensures procs == Reparented(old(procs), p)
    {
      ghost var any := false;
      var i := 0;
      while i < |procs|
        invariant 0 <= i <= |procs| == |old(procs)|
        invariant any <==> exists k :: 0 <= k < i && old(procs)[k].parent == p
        invariant forall k :: 0 <= k < |procs| ==> procs[k] == Partly(old(procs), p, i, any, k)
      {
        if procs[i].parent == p {
          procs := procs[i := procs[i].(parent := INIT)];
          any := true;
          Wakeup(INIT, p);
        }
        i := i + 1;
      }
    }

    /** exit, under wait_lock. */
    method Exit(p: nat, status: int)
      requires p < |procs|
      modifies this`procs
      ensures procs == Exited(old(procs), p, status)
    {
      Reparent(p);
      Wakeup(procs[p].parent, p);
      procs := procs[p := procs[p].(xstate := status)];
      procs := procs[p := procs[p].(state := Zombie)];
    }

    /**
     One round of wait by p: it reaps p's first zombie, gives up or goes to sleep. `stored` says
     whether the status could be stored at the address given, if there is one; a zombie whose
     status could not be stored stays.
     */
    method WaitScan(p: nat, stored: bool, killed: bool) returns (r: WaitResult)
      requires p < |procs|
      modifies this`procs
      ensures
        var z := FirstZombie(old(procs), p, 0);
        if z == NONE then
          && !r.Reaped? && (r.Asleep? <==> !killed && HasChild(old(procs), p))
          && procs == if r.Asleep? then old(procs)[p := old(procs)[p].(state := Sleeping, chan := p)] else old(procs)
        else if stored then procs == old(procs)[z := FREED] && r == Reaped(old(procs)[z].pid, old(procs)[z].xstate)
        else procs == old(procs) && r == GivesUp
    {
      var havekids := false;
      var i := 0;
      while i < |procs|
        invariant 0 <= i <= |procs| && procs == old(procs)
        invariant FirstZombie(procs, p, 0) == FirstZombie(procs, p, i)
        invariant havekids <==> exists k :: 0 <= k < i && procs[k].parent == p
      {
        if procs[i].parent == p {
          havekids := true;
          if procs[i].state.Zombie? {
            var pid, status := procs[i].pid, procs[i].xstate;
            if !stored {
              return GivesUp;
            }
            Freeproc(i);
            return Reaped(pid, status);
          }
        }
        i := i + 1;
      }
      if !havekids || killed {
        return GivesUp;
      }
      procs := procs[p := procs[p].(chan := p, state := Sleeping)];
      return Asleep;
    }
  }

  /** What a round of wait comes to; GivesUp is the return of -1. */
  datatype WaitResult = Reaped(pid: nat, status: int) | GivesUp | Asleep

  /** Slot k when reparent has visited the slots below i, with or without waking init. */
  ghost function Partly(procs: seq<Proc>, p: int, i: nat, any: bool, k: nat): Proc
    requires k < |procs|
  {
    var q := if k < i && procs[k].parent == p then procs[k].(parent := INIT) else procs[k];
    if any && k != p then Woke(q, INIT) else q
  }
}
