/**
 How often others get ahead of a process in one whole acquire, from its first doorway to its
 entry. At the nodes on its own way they do so at most once per level. The entries into the
 critical section meanwhile have a bound only for a single lock: with two levels or more,
 processes in the other half of the tree can enter any number of times.
 */
module TournamentBypass {
  import opened Params
  import opened Peterson
  import opened Tournament
  import opened TournamentProgress

  /** From state i on, p has run the doorway of its leaf node and is still acquiring. */
  ghost predicate Announced(c: Tree, run: seq<State>, i: nat, p: nat) {
    && i < |run| && (forall k :: i <= k < |run| ==> p < |run[k].pc| && InAcquire(run[k].pc[p]))
    && run[i].pc[p].Waiting? && run[i].pc[p].level + 1 == c.levels
  }

  // ---------- at the nodes of the process's own way ----------

  /** In the step from s to s', somebody passes the wait loop in which p is. */
  ghost predicate Passed(c: Tree, s: State, s': State, p: nat) {
    && |s'.pc| == |s.pc| && p < |s.pc| && s.pc[p].Waiting? && s'.pc[p] == s.pc[p] && s.pc[p].level < c.levels
    && Overtaken(c, s, s', p, s.pc[p].level)
  }

  ghost function Passings(c: Tree, run: seq<State>, i: nat, p: nat): nat {
    if |run| <= i + 1 then 0
    else Passings(c, run[..|run| - 1], i, p) + Count(Passed(c, run[|run| - 2], run[|run| - 1], p))
  }

  /** How often p may still be passed on its way. */
  ghost function Credit(c: Tree, s: State, p: nat): nat
    requires Shape(c, s) && p < |s.pc|
  {
    match s.pc[p]
    case Entering(l) => l + 1
    case Waiting(l) => l + Count(RivalHasTurn(c, s, p, l))
    case _ => 0
  }

  lemma StepCredit(c: Tree, run: seq<State>, k: nat, p: nat)
    requires IsRun(c, run) && k + 1 < |run| && p < c.Processes() && Shape(c, run[k]) && Shape(c, run[k + 1])
    requires InAcquire(run[k].pc[p]) && InAcquire(run[k + 1].pc[p])
    ensures Count(Passed(c, run[k], run[k + 1], p)) + Credit(c, run[k + 1], p) <= Credit(c, run[k], p)
  {
    var s, s' := run[k], run[k + 1];
    if s.pc[p] == s'.pc[p] {
      if s.pc[p].Waiting? {
        RunBudget(c, run, k, p, s.pc[p].level);
      }
    } else {
      assert Next(c, s, s');
      OwnStep(c, s, s', p);
    }
  }

  /** A process moves only by its own steps. */
  lemma MovedItself(c: Tree, s: State, s': State, p: nat)
    requires Next(c, s, s') && Shape(c, s) && p < |s.pc| && p < |s'.pc| && s'.pc[p] != s.pc[p]
    ensures s' == ProcessStep(c, s, p)
  {
    hide Shape, ProcessStep;
    var q: nat :| q < |s.pc| && s' == ProcessStep(c, s, q);
    if q != p {
      OthersStay(c, s, q, p);
    }
  }

  lemma OthersStay(c: Tree, s: State, q: nat, p: nat)
    requires q < |s.pc| && p < |s.pc| && q != p
    ensures |ProcessStep(c, s, q).pc| == |s.pc| && ProcessStep(c, s, q).pc[p] == s.pc[p]
  {
  }

  lemma OwnStep(c: Tree, s: State, s': State, p: nat)
    requires Next(c, s, s') && Shape(c, s) && Shape(c, s') && p < |s.pc| && InAcquire(s.pc[p]) && s'.pc[p] != s.pc[p]
    ensures InAcquire(s'.pc[p]) ==> Credit(c, s', p) <= Credit(c, s, p)
    ensures s.pc[p] == Waiting(0) ==> s'.pc[p] == Critical
  {
    MovedItself(c, s, s', p);
    hide Next, ProcessStep, LockAt, RivalHasTurn;
    StepUpdates(c, s, p);
  }

  lemma RunShape(c: Tree, run: seq<State>, k: nat)
    requires IsRun(c, run) && k < |run|
    ensures Shape(c, run[k]) && |run[k].pc| == c.Processes()
  {
    RunKeeps(c, run, k);
  }

  lemma RunPrefix(c: Tree, run: seq<State>, n: nat)
    requires IsRun(c, run) && 0 < n <= |run|
    ensures IsRun(c, run[..n])
  {
    forall k, m | 0 <= k && m == k + 1 < n ensures Next(c, run[..n][k], run[..n][m]) {
      assert Next(c, run[k], run[m]);
    }
  }

  lemma {:induction false} CreditSpent(c: Tree, run: seq<State>, i: nat, p: nat)
    requires IsRun(c, run) && p < c.Processes() && Announced(c, run, i, p)
    ensures Shape(c, run[i]) && Shape(c, run[|run| - 1])
    ensures Passings(c, run, i, p) + Credit(c, run[|run| - 1], p) <= Credit(c, run[i], p)
  {
    hide IsRun, Shape, Credit, Passed;
    RunShape(c, run, i);
    RunShape(c, run, |run| - 1);
    if |run| > i + 1 {
      RunShape(c, run, |run| - 2);
      RunPrefix(c, run, |run| - 1);
      CreditSpent(c, run[..|run| - 1], i, p);
      StepCredit(c, run, |run| - 2, p);
    }
  }

  /** In one whole acquire a process is passed at most once per level of the tree. */
  lemma PassedAtMostLevels(c: Tree, run: seq<State>, i: nat, p: nat)
    requires IsRun(c, run) && p < c.Processes() && Announced(c, run, i, p)
    ensures Passings(c, run, i, p) <= c.levels
  {
    CreditSpent(c, run, i, p);
  }

  // ---------- entries into the critical section ----------

  /** In the step from s to s', a process other than p enters. */
  ghost predicate Enters(s: State, s': State, p: nat) {
    |s'.pc| == |s.pc| && exists q :: 0 <= q < |s.pc| && q != p && !s.pc[q].Critical? && s'.pc[q].Critical?
  }

  ghost function Entries(run: seq<State>, i: nat, p: nat): nat {
    if |run| <= i + 1 then 0
    else Entries(run[..|run| - 1], i, p) + Count(Enters(run[|run| - 2], run[|run| - 1], p))
  }

  /** No process of a tree with that many levels sees more than `bound` entries by others in one acquire. */
  ghost predicate BoundedBypass(levels: nat, bound: nat) {
    forall c: Tree, run: seq<State>, i: nat, p: nat
      | c.levels == levels && IsRun(c, run) && p < c.Processes() && Announced(c, run, i, p) ::
      Entries(run, i, p) <= bound
  }

  /** With one lock, whoever enters passes the wait loop of that lock. */
  lemma EnteringPasses(c: Tree, s: State, s': State, p: nat)
    requires c.levels == 1 && Next(c, s, s') && Shape(c, s) && Shape(c, s') && p < |s.pc|
    requires s.pc[p] == Waiting(0) == s'.pc[p] && Enters(s, s', p)
    ensures Passed(c, s, s', p)
  {
    hide Next, Shape;
    var q :| 0 <= q < |s.pc| && q != p && !s.pc[q].Critical? && s'.pc[q].Critical?;
    EntersFromWaiting(c, s, s', q);
    ShrBound(p, 1, 0);
    ShrBound(q, 1, 0);
  }

  lemma EntersFromWaiting(c: Tree, s: State, s': State, q: nat)
    requires 0 < c.levels && Next(c, s, s') && Shape(c, s) && Shape(c, s')
    requires q < |s.pc| && !s.pc[q].Critical? && s'.pc[q].Critical?
    ensures |s.pc| == c.Processes() && s.pc[q] == Waiting(0)
  {
    MovedItself(c, s, s', q);
    hide Next, LockAt;
    if InAcquire(s.pc[q]) || InRelease(s.pc[q]) {
      StepUpdates(c, s, q);
    }
  }

  lemma {:induction false} EntriesArePassings(c: Tree, run: seq<State>, i: nat, p: nat)
    requires c.levels == 1 && IsRun(c, run) && p < c.Processes() && Announced(c, run, i, p)
    ensures Entries(run, i, p) <= Passings(c, run, i, p) && run[|run| - 1].pc[p] == Waiting(0)
  {
    hide IsRun, Shape, Passed, Enters;
    if |run| > i + 1 {
      var s, s' := run[|run| - 2], run[|run| - 1];
      RunShape(c, run, |run| - 2);
      RunShape(c, run, |run| - 1);
      RunPrefix(c, run, |run| - 1);
      EntriesArePassings(c, run[..|run| - 1], i, p);
      LastStep(c, run);
      if s'.pc[p] != s.pc[p] {
        OwnStep(c, s, s', p);
      } else if Enters(s, s', p) {
        EnteringPasses(c, s, s', p);
      }
    }
  }

  lemma LastStep(c: Tree, run: seq<State>)
    requires IsRun(c, run) && |run| > 1
    ensures Next(c, run[|run| - 2], run[|run| - 1])
  {
  }

  // ---------- two levels or more: no bound ----------

  /** Process 0 has its leaf lock and is about to go for the next; q may be anywhere, and nobody else is there. */
  ghost predicate Lone(c: Tree, s: State, q: nat) {
    && Inv(c, s) && 1 < c.levels && q + 1 == c.Processes() && s.pc[0] == Entering(c.levels - 2)
    && forall r :: 0 < r < q ==> s.pc[r].Idle?
  }

  lemma {:induction false} ShrTop(a: nat, k: nat)
    ensures Shr(Pow2(a + k) - 1, k) == Pow2(a) - 1
    decreases k
  {
    if k > 0 {
      ShrTop(a + 1, k - 1);
    }
  }

  /** The first and the last process have different leaf nodes. */
  lemma FarApart(c: Tree, q: nat)
    requires 1 < c.levels && q + 1 == c.Processes()
    ensures c.GroupAt(0, c.levels - 1) != c.GroupAt(q, c.levels - 1)
  {
    ShrTop(c.levels - 1, 1);
    Pow2Monotone(1, c.levels - 1);
  }

  /** The last process has no rival on its way up. */
  lemma NoRival(c: Tree, s: State, q: nat, l: nat)
    requires Lone(c, s, q) && l < c.levels
    ensures !LockAt(c, s, q, l).MustWait(c.RoleAt(q, l))
  {
    hide NodeMutex, FlagsUp, TurnWithHolder, Pow2, Shr;
    FarApart(c, q);
    assert forall r: nat :: !Rival(c, s, q, l, r);
  }

  /** Steps of q alone: after each one it is where the program text says. */
  lemma LoneStep(c: Tree, s: State, q: nat)
    requires Lone(c, s, q)
    ensures
      var s' := ProcessStep(c, s, q);
      && Lone(c, s', q) && Next(c, s, s') && |s'.pc| == |s.pc|
      && s'.pc[q] == match s.pc[q]
                     case Idle => Entering(c.levels - 1)
                     case Entering(l) => Waiting(l)
                     case Waiting(l) => AfterAcquire(l)
                     case Critical => Releasing(0)
                     case Releasing(l) => AfterRelease(c, l)
                     case Failed => Failed
  {
    var s' := ProcessStep(c, s, q);
    assert Next(c, s, s');
    StepKeeps(c, s, s');
    if s.pc[q].Waiting? {
      NoRival(c, s, q, s.pc[q].level);
    }
    if InAcquire(s.pc[q]) || InRelease(s.pc[q]) {
      StepUpdates(c, s, q);
    }
  }

  /** A run that ends in s, in which process 0 is announced from state 2 on. */
  ghost predicate RunTo(c: Tree, run: seq<State>, q: nat, s: State) {
    IsRun(c, run) && Announced(c, run, 2, 0) && run[|run| - 1] == s && Lone(c, s, q)
  }

  lemma ExtendRun(c: Tree, run: seq<State>, q: nat, s: State)
    requires RunTo(c, run, q, s)
    ensures RunTo(c, run + [ProcessStep(c, s, q)], q, ProcessStep(c, s, q))
    ensures Entries(run + [ProcessStep(c, s, q)], 2, 0) ==
            Entries(run, 2, 0) + Count(Enters(s, ProcessStep(c, s, q), 0))
  {
    hide Inv, ProcessStep, Init, Enters;
    LoneLevels(c, s, q);
    var s' := ProcessStep(c, s, q);
    LoneStep(c, s, q);
    var run' := run + [s'];
    assert run'[..|run'| - 1] == run;
    forall k, m | 0 <= k && m == k + 1 < |run'| ensures Next(c, run'[k], run'[m]) {
      if m < |run| {
        assert Next(c, run[k], run[m]);
      }
    }
  }

  /** How many steps q is from its entry, or on the way out from being outside. */
  function StepsLeft(c: Tree, pc: Pc): nat {
    match pc
    case Idle => 2 * c.levels + 1
    case Entering(l) => 2 * l + 2
    case Waiting(l) => 2 * l + 1
    case Releasing(l) => if l < c.levels then c.levels - l else 0
    case _ => 0
  }

  lemma {:induction false} ComesIn(c: Tree, run: seq<State>, q: nat, s: State) returns (run': seq<State>, s': State)
    requires RunTo(c, run, q, s) && |s.pc| == c.Processes() && (s.pc[q].Idle? || InAcquire(s.pc[q]))
    ensures RunTo(c, run', q, s') && |s'.pc| == c.Processes() && s'.pc[q].Critical?
    ensures Entries(run', 2, 0) > Entries(run, 2, 0)
    decreases StepsLeft(c, s.pc[q])
  {
    hide IsRun, Announced, ProcessStep, Inv;
    LoneStep(c, s, q);
    ExtendRun(c, run, q, s);
    run', s' := run + [ProcessStep(c, s, q)], ProcessStep(c, s, q);
    if s'.pc[q].Critical? {
      assert Enters(s, s', 0);
    } else {
      LoneLevels(c, s, q);
      run', s' := ComesIn(c, run', q, s');
    }
  }

  lemma LoneLevels(c: Tree, s: State, q: nat)
    requires Lone(c, s, q)
    ensures |s.pc| == c.Processes() && !s.pc[q].Failed?
    ensures s.pc[q].Entering? || s.pc[q].Waiting? || s.pc[q].Releasing? ==> s.pc[q].level < c.levels
  {
  }

  lemma {:induction false} GoesOut(c: Tree, run: seq<State>, q: nat, s: State) returns (run': seq<State>, s': State)
    requires RunTo(c, run, q, s) && |s.pc| == c.Processes() && s.pc[q].Releasing?
    ensures RunTo(c, run', q, s') && |s'.pc| == c.Processes() && s'.pc[q].Idle?
    ensures Entries(run', 2, 0) >= Entries(run, 2, 0)
    decreases StepsLeft(c, s.pc[q])
  {
    hide IsRun, Announced, ProcessStep, Inv;
    LoneStep(c, s, q);
    LoneLevels(c, s, q);
    ExtendRun(c, run, q, s);
    run', s' := run + [ProcessStep(c, s, q)], ProcessStep(c, s, q);
    if !s'.pc[q].Idle? {
      run', s' := GoesOut(c, run', q, s');
    }
  }

  /** Any number of entries by the last process while process 0 is on its way up, holding its leaf lock. */
  lemma {:induction false} EntersOften(c: Tree, run: seq<State>, q: nat, s: State, n: nat)
    returns (run': seq<State>, s': State)
    requires RunTo(c, run, q, s) && |s.pc| == c.Processes() && s.pc[q].Idle?
    ensures RunTo(c, run', q, s') && Entries(run', 2, 0) >= Entries(run, 2, 0) + n
    decreases n
  {
    hide IsRun, Announced, ProcessStep, Inv;
    run', s' := run, s;
    if n > 0 {
      run', s' := ComesIn(c, run, q, s);
      LoneStep(c, s', q);
      ExtendRun(c, run', q, s');
      run', s' := run' + [ProcessStep(c, s', q)], ProcessStep(c, s', q);
      run', s' := GoesOut(c, run', q, s');
      run', s' := EntersOften(c, run', q, s', n - 1);
    }
  }

  lemma Start(levels: nat) returns (c: Tree, s: State)
    requires levels > 1
    ensures c.levels == levels && c.Processes() >= 4 && Init(c, s)
  {
    Pow2Monotone(2, levels);
    assert Pow2(2) == 4;
    c := Tree(levels, seq(Pow2(levels) - 1, i => i));
    s := State(seq(Pow2(levels), i => FRESH), seq(Pow2(levels), i => Idle));
  }

  /** Process 0 calls acquire and gets its leaf lock at once. */
  lemma FirstLeaf(levels: nat) returns (c: Tree, run: seq<State>, s: State)
    requires levels > 1
    ensures c.levels == levels && c.Processes() > 0 && |s.pc| == c.Processes() && s.pc[c.Processes() - 1].Idle?
    ensures RunTo(c, run, c.Processes() - 1, s) && Entries(run, 2, 0) == 0
  {
    hide Inv;
    var s0;
    c, s0 := Start(levels);
    var s1 := ProcessStep(c, s0, 0);
    InitEstablishes(c, s0);
    OneStep(c, s0);
    OneStep(c, s1);
    AtDoorway(c, s1);
    var s2 := ProcessStep(c, s1, 0);
    OneStep(c, s2);
    AtLeaf(c, s2);
    s := ProcessStep(c, s2, 0);
    run := [s0, s1, s2, s];
    hide ProcessStep, Next;
    assert run[..3] == [s0, s1, s2];
    assert !Enters(s2, s, 0);
  }

  lemma OneStep(c: Tree, s: State)
    requires Inv(c, s) && |s.pc| > 0
    ensures Next(c, s, ProcessStep(c, s, 0)) && Inv(c, ProcessStep(c, s, 0))
  {
    assert Next(c, s, ProcessStep(c, s, 0));
    StepKeeps(c, s, ProcessStep(c, s, 0));
  }

  lemma AtDoorway(c: Tree, s: State)
    requires Inv(c, s) && 0 < c.levels && |s.pc| > 0 && s.pc[0] == Entering(c.levels - 1)
    ensures ProcessStep(c, s, 0).pc == s.pc[0 := Waiting(c.levels - 1)]
  {
    StepUpdates(c, s, 0);
  }

  /** With everybody else outside, the wait test passes. */
  lemma AtLeaf(c: Tree, s: State)
    requires Inv(c, s) && 1 < c.levels && |s.pc| > 0 && s.pc[0] == Waiting(c.levels - 1)
    requires forall r :: 0 < r < |s.pc| ==> s.pc[r].Idle?
    ensures ProcessStep(c, s, 0).pc == s.pc[0 := Entering(c.levels - 2)]
  {
    StepUpdates(c, s, 0);
    var l := c.levels - 1;
    assert forall r: nat :: !Rival(c, s, 0, l, r);
  }

  /**
   Entries by others in one whole acquire have a bound exactly if the tree is a single lock, and
   then the bound is one.
   */
  lemma BypassBoundedIff(levels: nat)
    ensures (exists bound :: BoundedBypass(levels, bound)) <==> levels <= 1
    ensures levels <= 1 ==> BoundedBypass(levels, 1)
  {
    hide IsRun, Entries;
    if levels <= 1 {
      forall c: Tree, run: seq<State>, i: nat, p: nat
        | c.levels == levels && IsRun(c, run) && p < c.Processes() && Announced(c, run, i, p)
        ensures Entries(run, i, p) <= 1
      {
        EntriesArePassings(c, run, i, p);
        PassedAtMostLevels(c, run, i, p);
      }
      assert BoundedBypass(levels, 1);
    } else {
      forall bound: nat ensures !BoundedBypass(levels, bound) {
        var c, run, s := FirstLeaf(levels);
        run, s := EntersOften(c, run, c.Processes() - 1, s, bound + 1);
        assert Announced(c, run, 2, 0) && Entries(run, 2, 0) > bound;
      }
    }
  }
}
