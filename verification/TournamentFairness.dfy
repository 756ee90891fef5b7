/**
 Starvation freedom of the tournament tree. A run goes on for ever; it is fair if no process
 that could move, and could go on to move, is passed over for ever. Processes outside need not
 come back, and those in the critical section leave it because they can. Then every acquire ends.
 */
module TournamentFairness {
  import opened Peterson
  import opened Tournament
  import opened TournamentProgress
  import opened TournamentBypass

  type Run = nat -> State

  ghost predicate StepAt(c: Tree, run: Run, n: nat) {
    Next(c, run(n), run(n + 1))
  }

  ghost predicate IsInfinite(c: Tree, run: Run) {
    Init(c, run(0)) && forall n: nat :: StepAt(c, run, n)
  }

  /** p is not outside, and its next atomic section would not leave it spinning. */
  predicate CanMove(c: Tree, s: State, p: nat)
    ensures CanMove(c, s, p) ==> p < |s.pc|
  {
    p < |s.pc| && !s.pc[p].Idle? && ProcessStep(c, s, p) != s
  }

  ghost predicate MovesAt(c: Tree, run: Run, n: nat, p: nat) {
    CanMove(c, run(n), p) && run(n + 1) == ProcessStep(c, run(n), p)
  }

  /** From time n on there is a moment at which p moves, or cannot. */
  ghost predicate NotPassedOver(c: Tree, run: Run, p: nat, n: nat) {
    exists m: nat :: n <= m && (MovesAt(c, run, m, p) || !CanMove(c, run(m), p))
  }

  ghost predicate Fair(c: Tree, run: Run) {
    forall p: nat, n: nat :: p < c.Processes() ==> NotPassedOver(c, run, p, n)
  }

  lemma {:induction false} InvAt(c: Tree, run: Run, n: nat)
    requires IsInfinite(c, run)
    ensures Inv(c, run(n)) && |run(n).pc| == c.Processes()
  {
    if n == 0 {
      InitEstablishes(c, run(0));
    } else {
      InvAt(c, run, n - 1);
      assert StepAt(c, run, n - 1);
      StepKeeps(c, run(n - 1), run(n));
    }
  }

  // ---------- a process that can move does ----------

  /** Whether a process can move, and where it gets. */
  lemma MoveIs(c: Tree, s: State, p: nat)
    requires Inv(c, s) && p < |s.pc|
    ensures s.pc[p].Waiting? ==>
      && s.pc[p].level < c.levels
      && (CanMove(c, s, p) <==> !LockAt(c, s, p, s.pc[p].level).MustWait(c.RoleAt(p, s.pc[p].level)))
    ensures s.pc[p].Entering? || s.pc[p].Critical? || s.pc[p].Releasing? ==> CanMove(c, s, p)
    ensures CanMove(c, s, p) ==>
      var s' := ProcessStep(c, s, p);
      && |s'.pc| == |s.pc| && s'.pc[p] != s.pc[p]
      && (s.pc[p].Entering? ==> s'.pc[p] == Waiting(s.pc[p].level))
      && (s.pc[p].Waiting? ==> s'.pc[p] == AfterAcquire(s.pc[p].level))
      && (s.pc[p].Critical? && c.levels > 0 ==> s'.pc[p] == Releasing(0))
      && (s.pc[p].Releasing? ==> s'.pc[p] == AfterRelease(c, s.pc[p].level))
  {
    if InAcquire(s.pc[p]) || InRelease(s.pc[p]) {
      StepUpdates(c, s, p);
    }
  }

  /** What another process does to the node at which p waits cannot make p wait if it need not. */
  lemma StillFree(c: Tree, s: State, r: nat, p: nat, l: nat)
    requires Inv(c, s) && p < |s.pc| && r < |s.pc| && r != p && l < c.levels && s.pc[p] == Waiting(l)
    requires !LockAt(c, s, p, l).MustWait(c.RoleAt(p, l)) && Inv(c, ProcessStep(c, s, r))
    ensures !LockAt(c, ProcessStep(c, s, r), p, l).MustWait(c.RoleAt(p, l))
  {
    hide FlagsUp, TurnWithHolder, FlagsOwned, LockAt;
    if InAcquire(s.pc[r]) || InRelease(s.pc[r]) {
      StepUpdates(c, s, r);
      hide ProcessStep;
      var k := s.pc[r].level;
      if k == l && c.GroupAt(r, l) == c.GroupAt(p, l) {
        SameNode(c, s, r, p, l);
        if c.RoleAt(r, l) == c.RoleAt(p, l) {
          RoleExclusive(c, s, r, p, l);
        }
      }
    } else {
      SameTable(c, s, r, p, l);
    }
  }

  lemma SameTable(c: Tree, s: State, r: nat, p: nat, l: nat)
    requires Shape(c, s) && r < |s.pc| && p < |s.pc| && l < c.levels && !InAcquire(s.pc[r]) && !InRelease(s.pc[r])
    requires Shape(c, ProcessStep(c, s, r))
    ensures LockAt(c, ProcessStep(c, s, r), p, l) == LockAt(c, s, p, l)
  {
  }

  lemma SameNode(c: Tree, s: State, r: nat, p: nat, l: nat)
    requires c.Valid(s.table) && r < c.Processes() && p < c.Processes() && l < c.levels
    requires c.GroupAt(r, l) == c.GroupAt(p, l)
    ensures LockAt(c, s, r, l) == LockAt(c, s, p, l)
  {
  }

  lemma StaysMovable(c: Tree, s: State, s': State, p: nat)
    requires Inv(c, s) && Inv(c, s') && Next(c, s, s') && CanMove(c, s, p) && |s'.pc| == |s.pc| && s'.pc[p] == s.pc[p]
    ensures CanMove(c, s', p)
  {
    MoveIs(c, s, p);
    MoveIs(c, s', p);
    hide CanMove, Inv;
    if s.pc[p].Waiting? {
      var l := s.pc[p].level;
      SameWait(c, s, s', p, l);
    }
  }

  lemma SameWait(c: Tree, s: State, s': State, p: nat, l: nat)
    requires Inv(c, s) && Inv(c, s') && Next(c, s, s') && |s'.pc| == |s.pc| && p < |s.pc| && l < c.levels
    requires s.pc[p] == Waiting(l) == s'.pc[p] && !LockAt(c, s, p, l).MustWait(c.RoleAt(p, l))
    ensures !LockAt(c, s', p, l).MustWait(c.RoleAt(p, l))
  {
    if EnvironmentStep(c, s, s') {
      NodeInRange(c, p, l);
    } else {
      var r: nat :| r < |s.pc| && s' == ProcessStep(c, s, r);
      if r == p {
        MoveIs(c, s, p);
      } else {
        StillFree(c, s, r, p, l);
      }
    }
  }

  /** Before m, the moment that fairness promises, p moves from where it is at n. */
  lemma {:induction false} MovesBefore(c: Tree, run: Run, p: nat, n: nat, m: nat) returns (k: nat)
    requires IsInfinite(c, run) && p < c.Processes() && n <= m && CanMove(c, run(n), p)
    requires MovesAt(c, run, m, p) || !CanMove(c, run(m), p)
    ensures n <= k && MovesAt(c, run, k, p) && run(k).pc[p] == run(n).pc[p]
    decreases m - n
  {
    hide Inv, CanMove;
    k := n;
    if !MovesAt(c, run, n, p) {
      InvAt(c, run, n);
      InvAt(c, run, n + 1);
      assert StepAt(c, run, n);
      NotMoved(c, run(n), run(n + 1), p);
      k := MovesBefore(c, run, p, n + 1, m);
    }
  }

  lemma NotMoved(c: Tree, s: State, s': State, p: nat)
    requires Inv(c, s) && Inv(c, s') && Next(c, s, s') && CanMove(c, s, p) && |s'.pc| == |s.pc|
    requires s' != ProcessStep(c, s, p)
    ensures s'.pc[p] == s.pc[p] && CanMove(c, s', p)
  {
    hide CanMove;
    if s'.pc[p] != s.pc[p] {
      MovedItself(c, s, s', p);
    }
    StaysMovable(c, s, s', p);
  }

  lemma EventuallyMoves(c: Tree, run: Run, p: nat, n: nat) returns (k: nat)
    requires IsInfinite(c, run) && Fair(c, run) && p < c.Processes() && CanMove(c, run(n), p)
    ensures n <= k && MovesAt(c, run, k, p) && run(k).pc[p] == run(n).pc[p]
  {
    hide CanMove, IsInfinite;
    assert NotPassedOver(c, run, p, n);
    var m: nat :| n <= m && (MovesAt(c, run, m, p) || !CanMove(c, run(m), p));
    k := MovesBefore(c, run, p, n, m);
  }

  /** The same, with where p is afterwards. */
  lemma Advance(c: Tree, run: Run, p: nat, n: nat) returns (m: nat)
    requires IsInfinite(c, run) && Fair(c, run) && p < c.Processes() && CanMove(c, run(n), p)
    ensures n < m && |run(n).pc| == |run(m).pc| == c.Processes()
    ensures MovesAt(c, run, m - 1, p) && run(m - 1).pc[p] == run(n).pc[p]
    ensures run(n).pc[p].Entering? ==> run(m).pc[p] == Waiting(run(n).pc[p].level)
    ensures run(n).pc[p].Waiting? ==> run(m).pc[p] == AfterAcquire(run(n).pc[p].level)
    ensures run(n).pc[p].Critical? && c.levels > 0 ==> run(m).pc[p] == Releasing(0)
    ensures run(n).pc[p].Releasing? ==> run(m).pc[p] == AfterRelease(c, run(n).pc[p].level)
  {
    hide Inv, IsInfinite, Fair;
    InvAt(c, run, n);
    var k := EventuallyMoves(c, run, p, n);
    InvAt(c, run, k);
    MoveIs(c, run(k), p);
    m := k + 1;
  }

  // ---------- every wait ends ----------

  /** Whoever was waiting at level l at time n still is at time m, or has got the lock in between. */
  lemma {:induction false} WaitingOrPast(c: Tree, run: Run, p: nat, l: nat, n: nat, m: nat) returns (k: nat)
    requires IsInfinite(c, run) && p < c.Processes() && n <= m
    requires |run(n).pc| == c.Processes() && run(n).pc[p] == Waiting(l)
    ensures n <= k <= m && |run(k).pc| == c.Processes() && (k == m || k > n)
    ensures run(k).pc[p] == if k == m && run(m).pc[p] == Waiting(l) then Waiting(l) else AfterAcquire(l)
    decreases m - n
  {
    hide Inv, IsInfinite;
    k := n;
    if n < m {
      InvAt(c, run, n);
      InvAt(c, run, n + 1);
      WaitStep(c, run, p, l, n);
      if run(n + 1).pc[p] == Waiting(l) {
        k := WaitingOrPast(c, run, p, l, n + 1, m);
      } else {
        k := n + 1;
      }
    }
  }

  lemma WaitStep(c: Tree, run: Run, p: nat, l: nat, n: nat)
    requires IsInfinite(c, run) && Inv(c, run(n)) && p < |run(n).pc| == |run(n + 1).pc| && run(n).pc[p] == Waiting(l)
    ensures run(n + 1).pc[p] == Waiting(l) || run(n + 1).pc[p] == AfterAcquire(l)
  {
    assert StepAt(c, run, n);
    if run(n + 1).pc[p] != Waiting(l) {
      MovedItself(c, run(n), run(n + 1), p);
      MoveIs(c, run(n), p);
    }
  }

  /** How far a holder of level l is from releasing it. */
  function ToRelease(pc: Pc, l: nat): nat {
    match pc
    case Entering(k) => l + 2 * k + 4
    case Waiting(k) => l + 2 * k + 3
    case Critical => l + 2
    case Releasing(k) => if k <= l then l + 1 - k else 0
    case _ => 0
  }

  /** A holder of a node releases it. */
  lemma {:induction false} Releases(c: Tree, run: Run, q: nat, l: nat, n: nat) returns (m: nat)
    requires IsInfinite(c, run) && Fair(c, run) && q < c.Processes() && l < c.levels
    requires q < |run(n).pc| && Holds(run(n).pc[q], l)
    ensures n <= m && MovesAt(c, run, m, q) && run(m).pc[q] == Releasing(l)
    decreases l, 0, ToRelease(run(n).pc[q], l)
  {
    hide Inv, IsInfinite, Fair, CanMove;
    InvAt(c, run, n);
    MoveIs(c, run(n), q);
    var k;
    if run(n).pc[q].Waiting? {
      k := Passes(c, run, q, run(n).pc[q].level, n);
    } else {
      k := Advance(c, run, q, n);
    }
    if run(n).pc[q] == Releasing(l) {
      m := k - 1;
    } else {
      m := Releases(c, run, q, l, k);
    }
  }

  /** Who waits at a node gets it. */
  lemma {:induction false} Passes(c: Tree, run: Run, p: nat, l: nat, n: nat) returns (m: nat)
    requires IsInfinite(c, run) && Fair(c, run) && p < c.Processes() && l < c.levels
    requires p < |run(n).pc| && run(n).pc[p] == Waiting(l)
    ensures n < m && |run(m).pc| == c.Processes() && run(m).pc[p] == AfterAcquire(l)
    decreases l, 2, 0
  {
    hide Inv, IsInfinite, Fair, CanMove;
    InvAt(c, run, n);
    if CanMove(c, run(n), p) {
      m := Advance(c, run, p, n);
    } else {
      var k := RivalReleases(c, run, p, l, n);
      InvAt(c, run, k);
      m := WaitingOrPast(c, run, p, l, n, k);
      if run(m).pc[p] == Waiting(l) {
        m := Advance(c, run, p, k);
      }
    }
  }

  /** If p has to wait, its rival gets in, if it is not, and releases the node; after that p need not wait. */
  lemma {:induction false} RivalReleases(c: Tree, run: Run, p: nat, l: nat, n: nat) returns (k: nat)
    requires IsInfinite(c, run) && Fair(c, run) && p < c.Processes() && l < c.levels
    requires p < |run(n).pc| && run(n).pc[p] == Waiting(l) && !CanMove(c, run(n), p)
    ensures n < k && |run(k).pc| == c.Processes() && (run(k).pc[p] == Waiting(l) ==> CanMove(c, run(k), p))
    decreases l, 1, 0
  {
    hide Inv, IsInfinite, Fair, CanMove, ProcessStep;
    InvAt(c, run, n);
    var q := Blocker(c, run(n), p, l);
    var h := n;
    if run(n).pc[q] == Waiting(l) {
      h := Advance(c, run, q, n);
    }
    InvAt(c, run, h);
    var r := Releases(c, run, q, l, h);
    InvAt(c, run, r);
    InvAt(c, run, r + 1);
    k := r + 1;
    if run(k).pc[p] == Waiting(l) {
      FreedNode(c, run(r), q, p, l);
      MoveIs(c, run(k), p);
    }
  }

  /** Who makes p wait: a rival that holds the node, or could take it now. */
  lemma Blocker(c: Tree, s: State, p: nat, l: nat) returns (q: nat)
    requires Inv(c, s) && p < |s.pc| && l < c.levels && s.pc[p] == Waiting(l) && !CanMove(c, s, p)
    ensures q < |s.pc| && q != p && c.GroupAt(q, l) == c.GroupAt(p, l) && c.RoleAt(q, l) == 1 - c.RoleAt(p, l)
    ensures Holds(s.pc[q], l) || (s.pc[q] == Waiting(l) && CanMove(c, s, q))
  {
    hide CanMove, NodeMutex, FlagsUp, TurnWithHolder, LockAt;
    MoveIs(c, s, p);
    q :| Rival(c, s, p, l, q);
    MoveIs(c, s, q);
    SameNode(c, s, q, p, l);
  }

  /** A node that q has just released does not make p wait. */
  lemma FreedNode(c: Tree, s: State, q: nat, p: nat, l: nat)
    requires Inv(c, s) && p < |s.pc| && q < |s.pc| && q != p && l < c.levels && s.pc[q] == Releasing(l)
    requires c.GroupAt(q, l) == c.GroupAt(p, l) && c.RoleAt(q, l) == 1 - c.RoleAt(p, l) && Inv(c, ProcessStep(c, s, q))
    ensures !LockAt(c, ProcessStep(c, s, q), p, l).MustWait(c.RoleAt(p, l))
  {
    StepUpdates(c, s, q);
    assert LockAt(c, s, q, l) == LockAt(c, s, p, l);
  }

  /** In every fair run, for every number of levels, every process that is acquiring gets in. */
  lemma {:induction false} StarvationFree(c: Tree, run: Run, p: nat, n: nat) returns (m: nat)
    requires IsInfinite(c, run) && Fair(c, run) && p < c.Processes() && p < |run(n).pc| && InAcquire(run(n).pc[p])
    ensures n <= m && p < |run(m).pc| && run(m).pc[p].Critical?
    decreases Remaining(run(n).pc[p])
  {
    hide Inv, IsInfinite, Fair, CanMove;
    InvAt(c, run, n);
    MoveIs(c, run(n), p);
    InLevels(c, run(n), p);
    if run(n).pc[p].Waiting? {
      m := Passes(c, run, p, run(n).pc[p].level, n);
    } else {
      m := Advance(c, run, p, n);
    }
    if !run(m).pc[p].Critical? {
      m := StarvationFree(c, run, p, m);
    }
  }

  lemma InLevels(c: Tree, s: State, p: nat)
    requires Inv(c, s) && p < |s.pc| && InAcquire(s.pc[p])
    ensures s.pc[p].level < c.levels
  {
  }
}
