/**
 Progress of the tournament tree: it never deadlocks, and at each node a process that
 has announced itself is overtaken at most once.
 */
module TournamentProgress {
  import opened Params
  import opened Peterson
  import opened Tournament

  // ---------- progress ----------

  /** Somebody trying to get in is not spinning: found by following rivals towards the root. */
  lemma {:induction false} SomeoneAdvances(c: Tree, s: State, p: nat) returns (q: nat)
    requires Inv(c, s) && p < |s.pc| && InAcquire(s.pc[p])
    requires forall q :: 0 <= q < |s.pc| ==> !s.pc[q].Critical? && !InRelease(s.pc[q])
    ensures q < |s.pc| && InAcquire(s.pc[q]) && ProcessStep(c, s, q) != s
    decreases s.pc[p].level
  {
    var l := s.pc[p].level;
    StepUpdates(c, s, p);
    if ProcessStep(c, s, p) != s {
      return p;
    }
    assert LockAt(c, s, p, l).MustWait(c.RoleAt(p, l));
    q :| Rival(c, s, p, l, q);
    if s.pc[q] == Waiting(l) {
      StepUpdates(c, s, q);
      assert LockAt(c, s, q, l) == LockAt(c, s, p, l);
    } else {
      q := SomeoneAdvances(c, s, q);
    }
  }

  /** How many atomic sections are left until the critical section. */
  function Remaining(pc: Pc): nat {
    match pc
    case Entering(l) => 2 * l + 2
    case Waiting(l) => 2 * l + 1
    case _ => 0
  }

  function TotalRemaining(pcs: seq<Pc>): nat {
    if |pcs| == 0 then 0 else Remaining(pcs[0]) + TotalRemaining(pcs[1..])
  }

  lemma {:induction false} TotalDrops(pcs: seq<Pc>, p: nat, pc: Pc)
    requires p < |pcs| && Remaining(pc) < Remaining(pcs[p])
    ensures TotalRemaining(pcs[p := pc]) < TotalRemaining(pcs)
  {
    if p > 0 {
      TotalDrops(pcs[1..], p - 1, pc);
      assert pcs[p := pc][1..] == pcs[1..][p - 1 := pc];
    } else {
      assert pcs[p := pc][1..] == pcs[1..];
    }
  }

  /** The state after the processes named in the schedule have moved, in that order. */
  function Execute(c: Tree, s: State, schedule: seq<nat>): State
    requires forall i :: 0 <= i < |schedule| ==> schedule[i] < |s.pc|
    decreases |schedule|
  {
    if schedule == [] then s else Execute(c, ProcessStep(c, s, schedule[0]), schedule[1..])
  }

  ghost predicate Contended(s: State) {
    && (exists p :: 0 <= p < |s.pc| && InAcquire(s.pc[p]))
    && (forall p :: 0 <= p < |s.pc| ==> !s.pc[p].Critical? && !InRelease(s.pc[p]))
  }

  /** A step of an acquiring process that is not spinning brings it closer. */
  lemma Advances(c: Tree, s: State, q: nat)
    requires Inv(c, s) && q < |s.pc| && InAcquire(s.pc[q]) && ProcessStep(c, s, q) != s
    ensures
      var s' := ProcessStep(c, s, q);
      Inv(c, s') && s'.pc == s.pc[q := s'.pc[q]] && (s'.pc[q].Critical? || InAcquire(s'.pc[q]))
      && Remaining(s'.pc[q]) < Remaining(s.pc[q])
  {
    StepUpdates(c, s, q);
    assert Next(c, s, ProcessStep(c, s, q));
    StepKeeps(c, s, ProcessStep(c, s, q));
  }

  /** The tree cannot deadlock: moving only processes that are acquiring brings one of them in. */
  lemma {:induction false} ReachesCritical(c: Tree, s: State) returns (schedule: seq<nat>, winner: nat)
    requires Inv(c, s) && Contended(s)
    ensures forall i :: 0 <= i < |schedule| ==> schedule[i] < |s.pc| && InAcquire(s.pc[schedule[i]])
    ensures winner < |s.pc| && |Execute(c, s, schedule).pc| == |s.pc| && Execute(c, s, schedule).pc[winner].Critical?
    decreases TotalRemaining(s.pc)
  {
    hide Inv, ProcessStep;
    var p :| 0 <= p < |s.pc| && InAcquire(s.pc[p]);
    var q := SomeoneAdvances(c, s, p);
    var s' := ProcessStep(c, s, q);
    Advances(c, s, q);
    if s'.pc[q].Critical? {
      schedule, winner := [q], q;
      assert Execute(c, s', []) == s';
      assert [q][1..] == [];
    } else {
      TotalDrops(s.pc, q, s'.pc[q]);
      var rest;
      rest, winner := ReachesCritical(c, s');
      schedule := [q] + rest;
      assert schedule[1..] == rest;
    }
  }

  /** In every run, whenever somebody is acquiring and nobody is in or on the way out, one can get in. */
  lemma DeadlockFree(c: Tree, run: seq<State>, i: nat)
    requires IsRun(c, run) && i < |run| && Contended(run[i])
    ensures exists schedule: seq<nat>, winner: nat ::
      && (forall k :: 0 <= k < |schedule| ==> schedule[k] < |run[i].pc| && InAcquire(run[i].pc[schedule[k]]))
      && winner < |Execute(c, run[i], schedule).pc| && Execute(c, run[i], schedule).pc[winner].Critical?
  {
    RunKeeps(c, run, i);
    var schedule, winner := ReachesCritical(c, run[i]);
    assert winner < |Execute(c, run[i], schedule).pc|;
  }

  // ---------- bounded overtaking ----------

  /** In the step from s to s', a process other than p passes the wait loop of p's node at level l. */
  ghost predicate Overtaken(c: Tree, s: State, s': State, p: nat, l: nat)
    requires l < c.levels && |s'.pc| == |s.pc|
  {
    exists q :: 0 <= q < |s.pc| && q != p && c.GroupAt(q, l) == c.GroupAt(p, l)
                && s.pc[q] == Waiting(l) && s'.pc[q] != Waiting(l)
  }

  /** A rival waits at p's node and has the turn: the only situation in which p can be overtaken. */
  ghost predicate RivalHasTurn(c: Tree, s: State, p: nat, l: nat)
    requires Shape(c, s) && p < |s.pc| && l < c.levels
  {
    exists q: nat :: Rival(c, s, p, l, q) && s.pc[q] == Waiting(l) && LockAt(c, s, p, l).turn == c.RoleAt(q, l)
  }

  /** While p waits at a node, no step of another process but a rival's departure moves the turn there. */
  lemma TurnKept(c: Tree, s: State, p: nat, q: nat, r: nat, l: nat)
    requires Shape(c, s) && NodeMutex(c, s) && p < |s.pc| && r < |s.pc| && l < c.levels
    requires s.pc[p] == Waiting(l) && Rival(c, s, p, l, q) && r != p && r != q && Shape(c, ProcessStep(c, s, r))
    ensures LockAt(c, ProcessStep(c, s, r), p, l).turn == LockAt(c, s, p, l).turn
  {
    if InAcquire(s.pc[r]) || InRelease(s.pc[r]) {
      StepUpdates(c, s, r);
      if s.pc[r] == Entering(l) && c.GroupAt(r, l) == c.GroupAt(p, l) {
        if c.RoleAt(r, l) == c.RoleAt(p, l) {
          RoleExclusive(c, s, r, p, l);
        } else {
          RoleExclusive(c, s, r, q, l);
        }
      }
      assert c.GroupAt(r, l) == c.GroupAt(p, l) ==> LockAt(c, s, r, l) == LockAt(c, s, p, l);
    }
  }

  /** A rival that enters while p waits gives the turn away, so the chance to overtake never comes back. */
  lemma TurnNotRegained(c: Tree, s: State, r: nat, p: nat, l: nat)
    requires Shape(c, s) && NodeMutex(c, s) && p < |s.pc| && r < |s.pc| && l < c.levels
    requires s.pc[p] == Waiting(l)
    requires Shape(c, ProcessStep(c, s, r)) && RivalHasTurn(c, ProcessStep(c, s, r), p, l) && r != p
    ensures RivalHasTurn(c, s, p, l)
  {
    var s' := ProcessStep(c, s, r);
    var q: nat :| Rival(c, s', p, l, q) && s'.pc[q] == Waiting(l) && LockAt(c, s', p, l).turn == c.RoleAt(q, l);
    if q != r {
      assert Rival(c, s, p, l, q);
      TurnKept(c, s, p, q, r, l);
    } else {
      MoverLacksTurn(c, s, q, p, l);
    }
  }

  /** A rival that has just moved to p's node, or spins there, does not have the turn. */
  lemma MoverLacksTurn(c: Tree, s: State, q: nat, p: nat, l: nat)
    requires Shape(c, s) && p < |s.pc| && q < |s.pc| && q != p && l < c.levels && Shape(c, ProcessStep(c, s, q))
    requires Rival(c, ProcessStep(c, s, q), p, l, q) && ProcessStep(c, s, q).pc[q] == Waiting(l)
    ensures LockAt(c, ProcessStep(c, s, q), p, l).turn != c.RoleAt(q, l)
  {
    if InAcquire(s.pc[q]) || InRelease(s.pc[q]) {
      StepUpdates(c, s, q);
    }
  }

  /** Only a rival that had the turn overtakes, and by that it uses the chance up. */
  lemma OvertakingNeedsTurn(c: Tree, s: State, q: nat, p: nat, l: nat)
    requires Shape(c, s) && NodeMutex(c, s) && FlagsUp(c, s) && p < |s.pc| && q < |s.pc| && l < c.levels
    requires s.pc[p] == Waiting(l) && q != p && c.GroupAt(q, l) == c.GroupAt(p, l) && s.pc[q] == Waiting(l)
    requires Shape(c, ProcessStep(c, s, q)) && ProcessStep(c, s, q).pc[q] != Waiting(l)
    ensures RivalHasTurn(c, s, p, l) && !RivalHasTurn(c, ProcessStep(c, s, q), p, l)
  {
    var s' := ProcessStep(c, s, q);
    StepUpdates(c, s, q);
    if c.RoleAt(q, l) == c.RoleAt(p, l) {
      RoleExclusive(c, s, q, p, l);
    }
    assert LockAt(c, s, q, l) == LockAt(c, s, p, l);
    assert Uses(s.pc[p], l);
    assert Rival(c, s, p, l, q);
    if RivalHasTurn(c, s', p, l) {
      var q': nat :| Rival(c, s', p, l, q') && s'.pc[q'] == Waiting(l) && LockAt(c, s', p, l).turn == c.RoleAt(q', l);
      RoleExclusive(c, s, q, q', l);
    }
  }

  /** One step of a process: what is overtaken in it is paid for by the rival's turn. */
  lemma ProcessBudget(c: Tree, s: State, r: nat, p: nat, l: nat)
    requires Shape(c, s) && NodeMutex(c, s) && FlagsUp(c, s) && p < |s.pc| && r < |s.pc| && l < c.levels
    requires s.pc[p] == Waiting(l) && Shape(c, ProcessStep(c, s, r)) && ProcessStep(c, s, r).pc[p] == Waiting(l)
    ensures Count(Overtaken(c, s, ProcessStep(c, s, r), p, l)) + Count(RivalHasTurn(c, ProcessStep(c, s, r), p, l))
            <= Count(RivalHasTurn(c, s, p, l))
  {
    if r == p {
      StepUpdates(c, s, p);
    } else if Overtaken(c, s, ProcessStep(c, s, r), p, l) {
      OvertakingNeedsTurn(c, s, r, p, l);
    } else if RivalHasTurn(c, ProcessStep(c, s, r), p, l) {
      TurnNotRegained(c, s, r, p, l);
    }
  }

  lemma EnvironmentBudget(c: Tree, s: State, s': State, p: nat, l: nat)
    requires Shape(c, s) && Shape(c, s') && EnvironmentStep(c, s, s') && p < |s.pc| && l < c.levels
    ensures !Overtaken(c, s, s', p, l) && (RivalHasTurn(c, s', p, l) ==> RivalHasTurn(c, s, p, l))
  {
    NodeInRange(c, p, l);
    if RivalHasTurn(c, s', p, l) {
      var q: nat :| Rival(c, s', p, l, q) && s'.pc[q] == Waiting(l) && LockAt(c, s', p, l).turn == c.RoleAt(q, l);
      assert Rival(c, s, p, l, q);
    }
  }

  /** How often p is overtaken at level l between states i and j of the run. */
  ghost function Overtakings(c: Tree, run: seq<State>, i: nat, j: nat, p: nat, l: nat): nat
    requires i <= j < |run| && l < c.levels
    requires forall k :: i <= k <= j ==> Shape(c, run[k])
    decreases j
  {
    if i == j then 0
    else
      assert Shape(c, run[j - 1]) && Shape(c, run[j]);
      Overtakings(c, run, i, j - 1, p, l) + Count(Overtaken(c, run[j - 1], run[j], p, l))
  }

  /** In step k of the run p is overtaken at level l. */
  ghost predicate OvertakenAt(c: Tree, run: seq<State>, k: nat, p: nat, l: nat) {
    && k + 1 < |run| && l < c.levels && Shape(c, run[k]) && Shape(c, run[k + 1])
    && Overtaken(c, run[k], run[k + 1], p, l)
  }

  /** Two overtakings count as two. */
  lemma {:induction false} EachCounts(c: Tree, run: seq<State>, i: nat, j: nat, p: nat, l: nat, a: nat, b: nat)
    requires i <= j < |run| && l < c.levels && (forall k :: i <= k <= j ==> Shape(c, run[k])) && i <= a <= b < j
    ensures Overtakings(c, run, i, j, p, l) >=
            Count(OvertakenAt(c, run, a, p, l)) + Count(a < b && OvertakenAt(c, run, b, p, l))
    decreases j
  {
    hide Shape, Overtaken;
    assert Shape(c, run[j - 1]) && Shape(c, run[j]);
    if b < j - 1 {
      EachCounts(c, run, i, j - 1, p, l, a, b);
    } else if a < b {
      EachCounts(c, run, i, j - 1, p, l, a, a);
    }
  }

  lemma RunBudget(c: Tree, run: seq<State>, k: nat, p: nat, l: nat)
    requires IsRun(c, run) && k + 1 < |run| && l < c.levels && p < c.Processes()
    requires Shape(c, run[k]) && Shape(c, run[k + 1])
    requires run[k].pc[p] == Waiting(l) && run[k + 1].pc[p] == Waiting(l)
    ensures Count(Overtaken(c, run[k], run[k + 1], p, l)) + Count(RivalHasTurn(c, run[k + 1], p, l))
            <= Count(RivalHasTurn(c, run[k], p, l))
  {
    var s, s' := run[k], run[k + 1];
    assert Next(c, s, s');
    assert NodeMutex(c, s) && FlagsUp(c, s) by {
      RunKeeps(c, run, k);
    }
    if EnvironmentStep(c, s, s') {
      EnvironmentBudget(c, s, s', p, l);
    } else {
      var r: nat :| r < |s.pc| && s' == ProcessStep(c, s, r);
      ProcessBudget(c, s, r, p, l);
    }
  }

  lemma {:induction false} OvertakingBudget(c: Tree, run: seq<State>, i: nat, j: nat, p: nat, l: nat)
    requires IsRun(c, run) && i <= j < |run| && l < c.levels && p < c.Processes()
    requires forall k :: i <= k <= j ==> Shape(c, run[k]) && run[k].pc[p] == Waiting(l)
    ensures Overtakings(c, run, i, j, p, l) + Count(RivalHasTurn(c, run[j], p, l))
            <= Count(RivalHasTurn(c, run[i], p, l))
    decreases j
  {
    hide IsRun, Shape, Overtaken, RivalHasTurn;
    if i < j {
      assert Shape(c, run[j - 1]) && Shape(c, run[j]);
      OvertakingBudget(c, run, i, j - 1, p, l);
      RunBudget(c, run, j - 1, p, l);
    }
  }

  /**
   A process that has run its doorway at a node is overtaken there at most once, and not
   at all if no rival was waiting with the turn when it did so.
   */
  lemma OvertakenAtMostOnce(c: Tree, run: seq<State>, i: nat, j: nat, p: nat, l: nat)
    requires IsRun(c, run) && i <= j < |run| && l < c.levels && p < c.Processes()
    requires forall k :: i <= k <= j ==> |run[k].pc| == c.Processes() && run[k].pc[p] == Waiting(l)
    ensures forall k :: i <= k <= j ==> Shape(c, run[k])
    ensures Overtakings(c, run, i, j, p, l) <= 1
    ensures !RivalHasTurn(c, run[i], p, l) ==> Overtakings(c, run, i, j, p, l) == 0
    ensures forall a, b :: i <= a < b < j ==> !OvertakenAt(c, run, a, p, l) || !OvertakenAt(c, run, b, p, l)
    ensures !RivalHasTurn(c, run[i], p, l) ==> forall a :: i <= a < j ==> !OvertakenAt(c, run, a, p, l)
  {
    forall k | i <= k <= j ensures Shape(c, run[k]) {
      RunKeeps(c, run, k);
    }
    OvertakingBudget(c, run, i, j, p, l);
    hide IsRun, Shape, RivalHasTurn, OvertakenAt;
    forall a, b | i <= a < b < j ensures !OvertakenAt(c, run, a, p, l) || !OvertakenAt(c, run, b, p, l) {
      EachCounts(c, run, i, j, p, l, a, b);
    }
    forall a | i <= a < j ensures Overtakings(c, run, i, j, p, l) >= Count(OvertakenAt(c, run, a, p, l)) {
      EachCounts(c, run, i, j, p, l, a, a);
    }
  }
}
